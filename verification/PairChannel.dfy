/**
 One direction of a pair of bufferevents, as a flow-controlled queue: what the writer has put out
 and the reader not taken in yet, and what the reader has in and not read yet.
 */
module PairChannel {
  import opened Bytes
  import opened Suspension

  datatype Channel = Channel(
    output: seq<byte>, writeOn: bool, writeSuspended: set<Reason>,                 // the writer's side
    input: seq<byte>, readOn: bool, readSuspended: set<Reason>, high: nat)         // the reader's side

  /** How much be_pair_transfer moves. */
  function Room(c: Channel, ignoreWm: bool): (n: nat)
    ensures n <= |c.output|
  {
    if c.high == 0 then |c.output|
    else if |c.input| < c.high then Min(c.high - |c.input|, |c.output|)
    else if ignoreWm then |c.output| else 0
  }

  /** The input is at or above its high watermark. */
  predicate Full(c: Channel) {
    c.high != 0 && |c.input| >= c.high
  }

  function Marked(c: Channel): Channel {
    c.(readSuspended := if Full(c) then c.readSuspended + {SuspendWm} else c.readSuspended - {SuspendWm})
  }

  function Transferred(c: Channel, ignoreWm: bool): Channel {
    var n := Room(c, ignoreWm);
    if n == 0 then c else
      var d := c.(input := c.input + c.output[..n], output := c.output[n..]);
      if c.high == 0 then d else Marked(d)
  }

  /** be_pair_wants_to_talk */
  predicate Talks(c: Channel) {
    c.writeOn && c.readOn && c.readSuspended == {} && c.output != []
  }

  function Settled(c: Channel): Channel {
    if Talks(c) then Transferred(c, false) else c
  }

  datatype ChannelOp =
    | Write(data: seq<byte>)
    | Read(n: nat)
    | EnableRead | EnableWrite | DisableRead | DisableWrite
    | SetHigh(high: nat)
    | SuspendRead(what: Reason) | UnsuspendRead(what: Reason)
    | SuspendWrite(what: Reason) | UnsuspendWrite(what: Reason)
    | Flush

  function Resumed(c: Channel, what: Reason): Channel {
    Settled(c.(readSuspended := c.readSuspended - {what}))
  }

  /** What the watermark callback makes of a changed input. */
  function Watched(c: Channel): Channel {
    if |c.input| >= c.high then c.(readSuspended := c.readSuspended + {SuspendWm}) else Resumed(c, SuspendWm)
  }

  function Step(c: Channel, op: ChannelOp): Channel {
    match op
    case Write(data) => if data == [] then c else Settled(c.(output := c.output + data))
    case Read(n) =>
      var d := c.(input := c.input[Min(n, |c.input|)..]);
      if n == 0 || c.input == [] || c.high == 0 then d else Watched(d)
    case EnableRead => Settled(c.(readOn := true))
    case EnableWrite =>
      var d := c.(writeOn := true);
      if c.writeSuspended == {} then Settled(d) else d
    case DisableRead => c.(readOn := false)
    case DisableWrite => c.(writeOn := false)
    case SetHigh(high) => if high == 0 then Resumed(c.(high := 0), SuspendWm) else Watched(c.(high := high))
    case SuspendRead(what) => c.(readSuspended := c.readSuspended + {what})
    case UnsuspendRead(what) => Resumed(c, what)
    case SuspendWrite(what) => c.(writeSuspended := c.writeSuspended + {what})
    case UnsuspendWrite(what) =>
      var d := c.(writeSuspended := c.writeSuspended - {what});
      if d.writeSuspended == {} && d.writeOn then Settled(d) else d
    case Flush => Transferred(c, true)
  }

  function Taken(c: Channel, op: ChannelOp): seq<byte> {
    if op.Read? then c.input[..Min(op.n, |c.input|)] else []
  }

  function Final(c: Channel, ops: seq<ChannelOp>): Channel
    decreases |ops|
  {
    if ops == [] then c else Final(Step(c, ops[0]), ops[1..])
  }

  function Written(ops: seq<ChannelOp>): seq<byte> {
    if ops == [] then [] else (if ops[0].Write? then ops[0].data else []) + Written(ops[1..])
  }

  function TakenAll(c: Channel, ops: seq<ChannelOp>): seq<byte>
    decreases |ops|
  {
    if ops == [] then [] else Taken(c, ops[0]) + TakenAll(Step(c, ops[0]), ops[1..])
  }

  lemma TransferKeeps(c: Channel, ignoreWm: bool)
    ensures var d := Transferred(c, ignoreWm); d.input + d.output == c.input + c.output
  {
    var n := Room(c, ignoreWm);
    assert c.output == c.output[..n] + c.output[n..];
  }

  lemma Nothing(s: seq<byte>)
    ensures [] + s == s == s + []
  {
  }

  /** What waits at the writer, and what the reader has, as the operation finds them. */
  function Waiting(c: Channel, op: ChannelOp): seq<byte> {
    if op.Write? then c.output + op.data else c.output
  }

  function Unread(c: Channel, op: ChannelOp): seq<byte> {
    if op.Read? then c.input[Min(op.n, |c.input|)..] else c.input
  }

  /** The reasons for suspending the reader that an operation may lift. */
  function Lifted(op: ChannelOp): set<Reason> {
    if op.UnsuspendRead? then {op.what} else if op.Read? || op.SetHigh? then {SuspendWm} else {}
  }

  /** All that may change in a transfer is where the bytes are and what the watermark says. */
  ghost predicate SameSwitches(d: Channel, c: Channel) {
    && d.writeOn == c.writeOn && d.readOn == c.readOn && d.high == c.high && d.writeSuspended == c.writeSuspended
    && forall r :: r != SuspendWm ==> (r in d.readSuspended <==> r in c.readSuspended)
  }

  /** Bytes go over in order, just until the reader is at its high watermark or the writer has no more. */
  ghost predicate FilledUp(d: Channel, output: seq<byte>, input: seq<byte>) {
    && |d.output| <= |output| && input + output == d.input + d.output
    && (d.output == [] || |d.input| == d.high)
    && (d.high > 0 ==> |d.input| <= d.high)
  }

  /**
   A transfer fills the reader up to its high watermark. Above that only a flush gets through, and
   with everything.
   */
  lemma TransferFills(c: Channel, ignoreWm: bool)
    ensures var d := Transferred(c, ignoreWm);
      SameSwitches(d, c) && d.input + d.output == c.input + c.output &&
        if !Full(c) then FilledUp(d, c.output, c.input)
        else if ignoreWm then d.output == []
        else d == c
  {
    TransferKeeps(c, ignoreWm);
  }

  /**
   A step but a flush either moves nothing, or fills the reader up, and that only while both sides
   are on and no reason but one it lifts itself suspends the reader.
   */
  ghost predicate MovesRightly(d: Channel, c: Channel, op: ChannelOp) {
    || (d.output == Waiting(c, op) && d.input == Unread(c, op))
    || (&& FilledUp(d, Waiting(c, op), Unread(c, op))
        && d.writeOn && d.readOn && c.readSuspended <= Lifted(op))
  }

  lemma SettledMoves(c: Channel)
    ensures var d := Settled(c);
      && SameSwitches(d, c)
      && (d == c || (FilledUp(d, c.output, c.input) && c.writeOn && c.readOn && c.readSuspended == {}))
  {
    hide Transferred, FilledUp, SameSwitches;
    SameAsItself(c);
    TransferFills(c, false);
  }

  lemma SameAsItself(c: Channel)
    ensures SameSwitches(c, c)
  {
  }

  lemma WatchedMoves(c: Channel)
    ensures var d := Watched(c);
      && SameSwitches(d, c)
      && ((d.input == c.input && d.output == c.output)
        || (FilledUp(d, c.output, c.input) && c.writeOn && c.readOn && c.readSuspended <= {SuspendWm}))
  {
    hide Settled, FilledUp;
    SettledMoves(c.(readSuspended := c.readSuspended - {SuspendWm}));
  }

  lemma {:induction false} StepMoves(c: Channel, op: ChannelOp)
    requires !op.Flush?
    ensures MovesRightly(Step(c, op), c, op)
  {
    hide Settled, Watched, FilledUp;
    match op
    case Write(data) => SettledMoves(c.(output := c.output + data));
    case Read(n) => WatchedMoves(c.(input := Unread(c, op)));
    case EnableRead => SettledMoves(c.(readOn := true));
    case EnableWrite => SettledMoves(c.(writeOn := true));
    case SetHigh(high) =>
      WatchedMoves(c.(high := high));
      SettledMoves(c.(high := 0, readSuspended := c.readSuspended - {SuspendWm}));
    case UnsuspendRead(what) => SettledMoves(c.(readSuspended := c.readSuspended - {what}));
    case UnsuspendWrite(what) => SettledMoves(c.(writeSuspended := c.writeSuspended - {what}));
    case _ =>
  }

  /** Each switch, suspension and watermark is what the last operation for it made it. */
  lemma {:induction false} StepSwitches(c: Channel, op: ChannelOp)
    ensures var d := Step(c, op);
      && (d.readOn <==> op.EnableRead? || (c.readOn && !op.DisableRead?))
      && (d.writeOn <==> op.EnableWrite? || (c.writeOn && !op.DisableWrite?))
      && d.high == (if op.SetHigh? then op.high else c.high)
      && (forall r :: r in d.writeSuspended <==> op == SuspendWrite(r) || (r in c.writeSuspended && op != UnsuspendWrite(r)))
      && forall r :: r != SuspendWm ==>
        (r in d.readSuspended <==> op == SuspendRead(r) || (r in c.readSuspended && op != UnsuspendRead(r)))
  {
    hide Settled, Watched, Transferred;
    match op
    case Write(data) => SettledMoves(c.(output := c.output + data));
    case Read(n) => WatchedMoves(c.(input := Unread(c, op)));
    case EnableRead => SettledMoves(c.(readOn := true));
    case EnableWrite => SettledMoves(c.(writeOn := true));
    case SetHigh(high) =>
      WatchedMoves(c.(high := high));
      SettledMoves(c.(high := 0, readSuspended := c.readSuspended - {SuspendWm}));
    case UnsuspendRead(what) => SettledMoves(c.(readSuspended := c.readSuspended - {what}));
    case UnsuspendWrite(what) => SettledMoves(c.(writeSuspended := c.writeSuspended - {what}));
    case Flush => TransferFills(c, true);
    case _ =>
  }

  lemma FlushFills(c: Channel)
    ensures var d := Step(c, Flush);
      && d.high == c.high && d.input + d.output == c.input + c.output
      && if Full(c) then d.output == [] else FilledUp(d, c.output, c.input)
  {
    TransferFills(c, true);
  }

  lemma TakenThenUnread(c: Channel, op: ChannelOp)
    ensures Taken(c, op) + Unread(c, op) == c.input
  {
    Nothing(c.input);
  }

  lemma {:induction false} StepKeepsBytes(c: Channel, op: ChannelOp)
    ensures var d := Step(c, op);
      Taken(c, op) + (d.input + d.output) == c.input + c.output + if op.Write? then op.data else []
  {
    hide Step, Taken;
    var d := Step(c, op);
    if op.Flush? {
      FlushFills(c);
    } else {
      StepMoves(c, op);
    }
    TakenThenUnread(c, op);
    assert d.input + d.output == Unread(c, op) + Waiting(c, op);
    Regroup(Taken(c, op), Unread(c, op), Waiting(c, op), []);
  }

  /**
   First in, first out: at any time the bytes taken so far, then the reader's input, then the
   writer's output, are the bytes that were there and were written since, in order.
   */
  lemma {:induction false} BytesArriveInOrder(c: Channel, ops: seq<ChannelOp>)
    ensures var d := Final(c, ops);
      TakenAll(c, ops) + d.input + d.output == c.input + c.output + Written(ops)
    decreases |ops|
  {
    hide Step, Taken;
    if ops == [] {
      Nothing(c.input + c.output);
      Nothing(c.input);
    } else {
      var u, d := Step(c, ops[0]), Final(c, ops);
      StepKeepsBytes(c, ops[0]);
      BytesArriveInOrder(u, ops[1..]);
      Regroup(Taken(c, ops[0]), TakenAll(u, ops[1..]), d.input, d.output);
      Chain(Taken(c, ops[0]), u.input + u.output, c.input + c.output, if ops[0].Write? then ops[0].data else [], Written(ops[1..]));
    }
  }

  lemma Regroup(t: seq<byte>, rest: seq<byte>, i: seq<byte>, o: seq<byte>)
    ensures (t + rest) + i + o == t + (rest + i + o)
  {
  }

  lemma Chain(t: seq<byte>, u: seq<byte>, s: seq<byte>, w: seq<byte>, more: seq<byte>)
    requires t + u == s + w
    ensures t + (u + more) == s + (w + more)
  {
    assert t + (u + more) == (t + u) + more;
    assert s + (w + more) == (s + w) + more;
  }

  /** The watermark suspension is in force exactly while the input is at or above the high watermark. */
  ghost predicate WatermarkExact(c: Channel) {
    SuspendWm in c.readSuspended <==> Full(c)
  }

  /** Nothing waits while both sides are on and neither is suspended. */
  ghost predicate NoStall(c: Channel) {
    c.writeOn && c.readOn && c.readSuspended == {} && c.writeSuspended == {} ==> c.output == []
  }

  lemma TransferSettles(c: Channel)
    requires Talks(c) && WatermarkExact(c)
    ensures var d := Transferred(c, false);
      WatermarkExact(d) && (d.readSuspended == {} ==> d.output == []) && !Talks(d)
    ensures var d := Transferred(c, false);
      d.writeOn == c.writeOn && d.readOn == c.readOn && d.writeSuspended == c.writeSuspended && d.high == c.high
  {
  }

  lemma SettledIsSettled(c: Channel)
    requires WatermarkExact(c)
    ensures WatermarkExact(Settled(c)) && NoStall(Settled(c))
  {
    hide WatermarkExact, Transferred;
    if Talks(c) {
      TransferSettles(c);
    }
  }

  lemma StepKeepsFlow(c: Channel, op: ChannelOp)
    requires WatermarkExact(c) && NoStall(c)
    requires (op.SuspendRead? || op.UnsuspendRead?) ==> op.what != SuspendWm
    ensures WatermarkExact(Step(c, op)) && NoStall(Step(c, op))
  {
    hide Settled, Transferred;
    match op
    case Write(data) => SettledIsSettled(c.(output := c.output + data));
    case Read(n) =>
      var d := c.(input := c.input[Min(n, |c.input|)..]);
      if !Full(d) {
        SettledIsSettled(d.(readSuspended := d.readSuspended - {SuspendWm}));
      }
    case EnableRead => SettledIsSettled(c.(readOn := true));
    case EnableWrite => SettledIsSettled(c.(writeOn := true));
    case SetHigh(high) =>
      var d := c.(high := high, readSuspended := c.readSuspended - {SuspendWm});
      if !Full(d) {
        SettledIsSettled(d);
      }
    case UnsuspendRead(what) => SettledIsSettled(c.(readSuspended := c.readSuspended - {what}));
    case UnsuspendWrite(what) => SettledIsSettled(c.(writeSuspended := c.writeSuspended - {what}));
    case Flush => FlushSettles(c);
    case _ =>
  }

  lemma FlushSettles(c: Channel)
    requires WatermarkExact(c) && NoStall(c)
    ensures WatermarkExact(Transferred(c, true)) && NoStall(Transferred(c, true))
  {
  }

  /** No run of operations ever leaves the channel stalled, or the watermark suspension out of step. */
  lemma {:induction false} NeverStalls(c: Channel, ops: seq<ChannelOp>)
    requires WatermarkExact(c) && NoStall(c)
    requires forall i :: 0 <= i < |ops| && (ops[i].SuspendRead? || ops[i].UnsuspendRead?) ==> ops[i].what != SuspendWm
    ensures WatermarkExact(Final(c, ops)) && NoStall(Final(c, ops))
    decreases |ops|
  {
    hide Step, WatermarkExact, NoStall;
    if ops != [] {
      StepKeepsFlow(c, ops[0]);
      NeverStalls(Step(c, ops[0]), ops[1..]);
    }
  }

  lemma SettledIsQuiet(c: Channel)
    requires WatermarkExact(c)
    ensures !Talks(Settled(c)) && WatermarkExact(Settled(c))
  {
    hide WatermarkExact, Transferred;
    if Talks(c) {
      TransferSettles(c);
    }
  }

  /**
   The one way to a stall, where both sides are on, the reader is not suspended, and output waits:
   to enable a writer that is suspended at that time and has output waiting.
   */
  lemma StallsExactlyWhen(c: Channel, op: ChannelOp)
    requires WatermarkExact(c) && !Talks(c)
    requires (op.SuspendRead? || op.UnsuspendRead?) ==> op.what != SuspendWm
    ensures Talks(Step(c, op))
      <==> op.EnableWrite? && c.writeSuspended != {} && c.readOn && c.readSuspended == {} && c.output != []
  {
    hide Settled, Transferred;
    match op
    case Write(data) => SettledIsQuiet(c.(output := c.output + data));
    case Read(n) =>
      var d := c.(input := c.input[Min(n, |c.input|)..]);
      if !Full(d) {
        SettledIsQuiet(d.(readSuspended := d.readSuspended - {SuspendWm}));
      }
    case EnableRead => SettledIsQuiet(c.(readOn := true));
    case EnableWrite => SettledIsQuiet(c.(writeOn := true));
    case SetHigh(high) =>
      var d := c.(high := high, readSuspended := c.readSuspended - {SuspendWm});
      if !Full(d) {
        SettledIsQuiet(d);
      }
    case UnsuspendRead(what) => SettledIsQuiet(c.(readSuspended := c.readSuspended - {what}));
    case UnsuspendWrite(what) => SettledIsQuiet(c.(writeSuspended := c.writeSuspended - {what}));
    case Flush => FlushIsQuiet(c);
    case _ =>
  }

  lemma FlushIsQuiet(c: Channel)
    requires WatermarkExact(c) && !Talks(c)
    ensures !Talks(Transferred(c, true))
  {
  }

  /** No step but a flush takes the reader's input over its high watermark, or further over it. */
  lemma {:induction false} StepRespectsWatermark(c: Channel, op: ChannelOp)
    requires !op.Flush? || !Full(c)
    ensures var d := Step(c, op);
      d.high > 0 ==> |d.input| <= if |c.input| > d.high then |c.input| else d.high
  {
    hide Step;
    if op.Flush? {
      FlushFills(c);
    } else {
      StepMoves(c, op);
    }
  }

  /** So the reader's input stays within any bound that its watermarks stay within, over any run without a flush. */
  lemma {:induction false} InputStaysBounded(c: Channel, ops: seq<ChannelOp>, bound: nat)
    requires |c.input| <= bound && 0 < c.high <= bound
    requires forall i :: 0 <= i < |ops| ==> ops[i] != Flush && (ops[i].SetHigh? ==> 0 < ops[i].high <= bound)
    ensures |Final(c, ops).input| <= bound
    decreases |ops|
  {
    hide Step;
    if ops != [] {
      StepRespectsWatermark(c, ops[0]);
      StepSwitches(c, ops[0]);
      InputStaysBounded(Step(c, ops[0]), ops[1..], bound);
    }
  }

  /** While the reader stays off, or the writer, nothing goes over but in a flush. */
  lemma {:induction false} OffMeansStill(c: Channel, ops: seq<ChannelOp>)
    requires Flush !in ops && ((!c.readOn && EnableRead !in ops) || (!c.writeOn && EnableWrite !in ops))
    ensures Final(c, ops).output == c.output + Written(ops)
    ensures TakenAll(c, ops) + Final(c, ops).input == c.input
    decreases |ops|
  {
    hide Step, Taken, Waiting, Unread, MovesRightly;
    if ops == [] {
      Nothing(c.output);
      Nothing(c.input);
    } else {
      assert ops[0] in ops;
      StillStep(c, ops[0]);
      OffMeansStill(Step(c, ops[0]), ops[1..]);
      StillMore(c, ops[0], Written(ops[1..]), TakenAll(Step(c, ops[0]), ops[1..]), Final(c, ops).input);
    }
  }

  lemma StillStep(c: Channel, op: ChannelOp)
    requires op != Flush && ((!c.readOn && op != EnableRead) || (!c.writeOn && op != EnableWrite))
    ensures var d := Step(c, op);
      && d.output == Waiting(c, op) && d.input == Unread(c, op)
      && (!c.readOn && op != EnableRead ==> !d.readOn) && (!c.writeOn && op != EnableWrite ==> !d.writeOn)
  {
    hide Step, Waiting, Unread;
    StepMoves(c, op);
    StepSwitches(c, op);
  }

  lemma StillMore(c: Channel, op: ChannelOp, more: seq<byte>, taken: seq<byte>, input: seq<byte>)
    requires taken + input == Unread(c, op)
    ensures Waiting(c, op) + more == c.output + ((if op.Write? then op.data else []) + more)
    ensures (Taken(c, op) + taken) + input == c.input
  {
    TakenThenUnread(c, op);
  }

  /** A new channel: the writer is on, the reader is not yet. */
  function Initial(): (c: Channel)
    ensures NoStall(c) && WatermarkExact(c) && !Talks(c)
  {
    Channel([], true, {}, [], false, {}, 0)
  }

  /** Such a stall is reached from a new channel in five operations. */
  lemma SuspendedWriterStalls(data: seq<byte>, what: Reason)
    requires data != []
    ensures var d := Final(Initial(), [EnableRead, DisableWrite, SuspendWrite(what), Write(data), EnableWrite]);
      Talks(d) && d.output == data
  {
    var c0 := Initial();
    var c1 := Step(c0, EnableRead);
    var c2 := Step(c1, DisableWrite);
    var c3 := Step(c2, SuspendWrite(what));
    var c4 := Step(c3, Write(data));
    assert [] + data == data;
    FinalStep(c0, EnableRead, [DisableWrite, SuspendWrite(what), Write(data), EnableWrite]);
    FinalStep(c1, DisableWrite, [SuspendWrite(what), Write(data), EnableWrite]);
    FinalStep(c2, SuspendWrite(what), [Write(data), EnableWrite]);
    FinalStep(c3, Write(data), [EnableWrite]);
    FinalStep(c4, EnableWrite, []);
  }

  lemma FinalStep(c: Channel, op: ChannelOp, ops: seq<ChannelOp>)
    ensures Final(c, [op] + ops) == Final(Step(c, op), ops)
  {
    assert ([op] + ops)[1..] == ops;
  }
}
