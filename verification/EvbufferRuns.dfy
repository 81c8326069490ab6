/**
 Runs: any series of operations on two evbuffers acts on their byte strings as a few plain
 sequence operations do, keeps both list invariants, and keeps the change reports exact.
 */
module EvbufferRuns {
  import opened Bytes
  import opened EvbufferCore
  import opened EvbufferAppend
  import opened EvbufferPrepend
  import opened EvbufferDrain
  import opened EvbufferMove
  import opened EvbufferSplit
  import opened EvbufferPullup
  import opened EvbufferExpand

  datatype OneOp =
    | DoAdd(data: seq<byte>)
    | DoPrepend(data: seq<byte>)
    | DoDrain(len: nat)
    | DoRemove(len: nat)
    | DoPullup(size: int)
    | DoExpand(len: nat)
    | DoFreeze(atStart: bool, on: bool)
    | DoRunDeferred

  /** An operation on the first or second buffer, or one that moves bytes into it from the other. */
  datatype Op =
    | On(second: bool, op: OneOp)
    | MoveAll(second: bool, front: bool)     // evbuffer_add_buffer, evbuffer_prepend_buffer
    | MoveSome(second: bool, len: nat)       // evbuffer_remove_buffer

  /** What a buffer is to its users. */
  datatype Queue = Queue(bytes: seq<byte>, frozenStart: bool, frozenEnd: bool)

  datatype Two = Two(a: Queue, b: Queue) {
    function Get(second: bool): Queue {
      if second then b else a
    }

    function Put(second: bool, q: Queue): Two {
      if second then Two(a, q) else Two(q, b)
    }
  }

  function StepOne(q: Queue, op: OneOp): Queue {
    match op
    case DoAdd(data) => if q.frozenEnd || |data| > MAX_ALLOC then q else q.(bytes := q.bytes + data)
    case DoPrepend(data) => if q.frozenStart then q else q.(bytes := data + q.bytes)
    case DoDrain(len) => if q.frozenStart then q else q.(bytes := q.bytes[Min(len, |q.bytes|)..])
    case DoRemove(len) => if q.frozenStart then q else q.(bytes := q.bytes[Min(len, |q.bytes|)..])
    case DoPullup(_) => q
    case DoExpand(_) => q
    case DoFreeze(atStart, on) => if atStart then q.(frozenStart := on) else q.(frozenEnd := on)
    case DoRunDeferred => q
  }

  /** What an operation hands to its caller. */
  function OutOne(q: Queue, op: OneOp): seq<byte> {
    if op.DoRemove? && !q.frozenStart then q.bytes[..Min(op.len, |q.bytes|)] else []
  }

  function Step(t: Two, op: Op): Two {
    match op
    case On(second, o) => t.Put(second, StepOne(t.Get(second), o))
    case MoveAll(second, front) =>
      var dst, src := t.Get(second), t.Get(!second);
      if src.frozenStart || (if front then dst.frozenStart else dst.frozenEnd) then t else
        t.Put(!second, src.(bytes := []))
         .Put(second, dst.(bytes := if front then src.bytes + dst.bytes else dst.bytes + src.bytes))
    case MoveSome(second, len) =>
      var dst, src := t.Get(second), t.Get(!second);
      if src.frozenStart || dst.frozenEnd then t else
        var n := Min(len, |src.bytes|);
        t.Put(!second, src.(bytes := src.bytes[n..])).Put(second, dst.(bytes := dst.bytes + src.bytes[..n]))
  }

  function Out(t: Two, op: Op): seq<byte> {
    if op.On? then OutOne(t.Get(op.second), op.op) else []
  }

  function Final(t: Two, ops: seq<Op>): Two
    decreases |ops|
  {
    if ops == [] then t else Final(Step(t, ops[0]), ops[1..])
  }

  function Outputs(t: Two, ops: seq<Op>): seq<byte>
    decreases |ops|
  {
    if ops == [] then [] else Out(t, ops[0]) + Outputs(Step(t, ops[0]), ops[1..])
  }

  /** How many bytes the callers bring in. */
  function Brought(ops: seq<Op>): nat {
    if ops == [] then 0 else BroughtBy(ops[0]) + Brought(ops[1..])
  }

  function BroughtBy(op: Op): nat {
    if op.On? && (op.op.DoAdd? || op.op.DoPrepend?) then |op.op.data| else 0
  }

  /** What is put in front fits into one chain, so that it does not fail half-way. */
  predicate PrependsInOne(op: Op) {
    op.On? && op.op.DoPrepend? ==> |op.op.data| <= MAX_ALLOC
  }

  ghost function QueueOf(buf: Evbuffer): Queue
    reads buf
  {
    Queue(buf.Contents(), buf.freezeStart, buf.freezeEnd)
  }

  ghost function TwoOf(a: Evbuffer, b: Evbuffer): Two
    reads a, b
  {
    Two(QueueOf(a), QueueOf(b))
  }

  function Size(t: Two): nat {
    |t.a.bytes| + |t.b.bytes|
  }

  /** Callbacks are told at once, and nothing is left to tell. */
  ghost predicate Prompt(buf: Evbuffer)
    reads buf`nAddForCb, buf`nDelForCb
  {
    buf.cbMode == Immediate && buf.nAddForCb == 0 && buf.nDelForCb == 0
  }

  /** What callbacks are told of a step: how long the buffer was, and how many bytes came or went, if any. */
  function Report(before: Queue, after: Queue): seq<CbInfo> {
    var m, n := |before.bytes|, |after.bytes|;
    if m < n then [CbInfo(m, n - m, 0)] else if n < m then [CbInfo(m, 0, m - n)] else []
  }

  /** What the callbacks of one of the buffers are told during a run. */
  function Log(t: Two, ops: seq<Op>, second: bool): seq<CbInfo>
    decreases |ops|
  {
    if ops == [] then [] else
      Report(t.Get(second), Step(t, ops[0]).Get(second)) + Log(Step(t, ops[0]), ops[1..], second)
  }

  lemma BaseIs(buf: Evbuffer)
    requires buf.Valid()
    ensures Prompt(buf) ==> buf.cbBase == |buf.Contents()|
  {
  }

  /** Callbacks that are told at once were told of this step. */
  twostate predicate Tells(buf: Evbuffer)
    reads buf
  {
    old(Prompt(buf)) ==>
      Prompt(buf) && buf.reports == old(buf.reports) + Report(old(QueueOf(buf)), QueueOf(buf))
  }

  method DoOne(buf: Evbuffer, op: OneOp) returns (out: seq<byte>)
    requires buf.Valid()
    requires op.DoAdd? || op.DoPrepend? ==> |op.data| + |buf.Contents()| <= SIZE_MAX
    requires op.DoPrepend? ==> |op.data| <= MAX_ALLOC
    modifies buf, buf.foot
    ensures buf.Valid() && fresh(buf.foot - old(buf.foot))
    ensures QueueOf(buf) == StepOne(old(QueueOf(buf)), op) && out == OutOne(old(QueueOf(buf)), op)
    ensures Tells(buf)
  {
    hide Evbuffer.Valid, Evbuffer.Shape, Evbuffer.Contents, Tells, Evbuffer.Told, Evbuffer.Silent;
    out := [];
    match op {
      case DoAdd(data) => DoAddOne(buf, data);
      case DoPrepend(data) => DoPrependOne(buf, data);
      case DoDrain(len) => DoDrainOne(buf, len);
      case DoRemove(len) => out := DoRemoveOne(buf, len);
      case DoPullup(size) => DoPullupOne(buf, size);
      case DoExpand(len) => DoExpandOne(buf, len);
      case DoFreeze(atStart, on) => Freeze(buf, atStart, on);
      case DoRunDeferred => DoDeferredRun(buf);
    }
  }

  method DoAddOne(buf: Evbuffer, data: seq<byte>)
    requires buf.Valid() && |data| + |buf.Contents()| <= SIZE_MAX
    modifies buf, buf.foot
    ensures buf.Valid() && fresh(buf.foot - old(buf.foot))
    ensures QueueOf(buf) == StepOne(old(QueueOf(buf)), DoAdd(data)) && Tells(buf)
  {
    hide Evbuffer.Valid, Evbuffer.Shape, Evbuffer.Contents;
    BaseIs(buf);
    var _ := Add(buf, data);
  }

  method DoPrependOne(buf: Evbuffer, data: seq<byte>)
    requires buf.Valid() && |data| + |buf.Contents()| <= SIZE_MAX && |data| <= MAX_ALLOC
    modifies buf, buf.foot
    ensures buf.Valid() && fresh(buf.foot - old(buf.foot))
    ensures QueueOf(buf) == StepOne(old(QueueOf(buf)), DoPrepend(data)) && Tells(buf)
  {
    hide Evbuffer.Valid, Evbuffer.Shape, Evbuffer.Contents;
    BaseIs(buf);
    assert [] + buf.Contents() == buf.Contents();
    var _ := Prepend(buf, data);
  }

  method DoDrainOne(buf: Evbuffer, len: nat)
    requires buf.Valid()
    modifies buf, buf.foot
    ensures buf.Valid() && fresh(buf.foot - old(buf.foot))
    ensures QueueOf(buf) == StepOne(old(QueueOf(buf)), DoDrain(len)) && Tells(buf)
  {
    hide Evbuffer.Valid, Evbuffer.Shape, Evbuffer.Contents;
    BaseIs(buf);
    var _ := Drain(buf, len);
  }

  method DoRemoveOne(buf: Evbuffer, len: nat) returns (out: seq<byte>)
    requires buf.Valid()
    modifies buf, buf.foot
    ensures buf.Valid() && fresh(buf.foot - old(buf.foot)) && Tells(buf)
    ensures QueueOf(buf) == StepOne(old(QueueOf(buf)), DoRemove(len)) && out == OutOne(old(QueueOf(buf)), DoRemove(len))
  {
    hide Evbuffer.Valid, Evbuffer.Shape, Evbuffer.Contents;
    ghost var s := buf.Contents();
    BaseIs(buf);
    var _, data := Remove(buf, len);
    out := data;
    assert s[..|out|] == out && s[|out|..] == buf.Contents();
    assert out == [] ==> buf.Contents() == s;
  }

  /** What changes how the bytes lie only. */
  method DoPullupOne(buf: Evbuffer, size: int)
    requires buf.Valid()
    modifies buf, buf.foot
    ensures buf.Valid() && fresh(buf.foot - old(buf.foot))
    ensures QueueOf(buf) == old(QueueOf(buf)) && Tells(buf)
  {
    hide Evbuffer.Valid, Evbuffer.Shape, Evbuffer.Contents;
    ValidParts(buf);
    ShapeParts(buf);
    var _ := Pullup(buf, size);
  }

  method DoExpandOne(buf: Evbuffer, len: nat)
    requires buf.Valid()
    modifies buf, buf.foot
    ensures buf.Valid() && fresh(buf.foot - old(buf.foot))
    ensures QueueOf(buf) == old(QueueOf(buf)) && Tells(buf)
  {
    hide Evbuffer.Valid, Evbuffer.Shape, Evbuffer.Contents;
    var _ := Expand(buf, len);
  }

  method DoDeferredRun(buf: Evbuffer)
    requires buf.Valid()
    modifies buf`nAddForCb, buf`nDelForCb, buf`reports, buf`early, buf`cbBase
    ensures buf.Valid() && Tells(buf)
  {
    hide Evbuffer.Valid;
    RunCallbacks(buf, true);
  }

  /** evbuffer_freeze and evbuffer_unfreeze */
  method Freeze(buf: Evbuffer, atStart: bool, on: bool)
    requires buf.Valid()
    modifies buf`freezeStart, buf`freezeEnd
    ensures buf.Valid() && Tells(buf)
    ensures buf.freezeStart == if atStart then on else old(buf.freezeStart)
    ensures buf.freezeEnd == if atStart then old(buf.freezeEnd) else on
  {
    hide Evbuffer.Shape, Evbuffer.Reported;
    if atStart {
      buf.freezeStart := on;
    } else {
      buf.freezeEnd := on;
    }
  }

  method DoOp(a: Evbuffer, b: Evbuffer, op: Op) returns (out: seq<byte>)
    requires a.Valid() && b.Valid() && Apart(a, b)
    requires Size(TwoOf(a, b)) + BroughtBy(op) <= SIZE_MAX && PrependsInOne(op)
    modifies a, a.foot, b, b.foot
    ensures a.Valid() && b.Valid() && Apart(a, b) && fresh(a.foot + b.foot - old(a.foot + b.foot))
    ensures TwoOf(a, b) == Step(old(TwoOf(a, b)), op) && out == Out(old(TwoOf(a, b)), op)
    ensures Tells(a) && Tells(b)
  {
    hide Evbuffer.Valid, Evbuffer.Contents, StepOne, OutOne;
    out := [];
    match op {
      case On(second, o) => out := DoOne(if second then b else a, o);
      case MoveAll(second, front) =>
        DoMoveAll(if second then b else a, if second then a else b, front);
      case MoveSome(second, len) =>
        DoMoveSome(if second then b else a, if second then a else b, len);
    }
  }

  method DoMoveAll(dst: Evbuffer, src: Evbuffer, front: bool)
    requires dst.Valid() && src.Valid() && Apart(dst, src)
    modifies dst, dst.foot, src, src.foot
    ensures dst.Valid() && src.Valid() && Apart(dst, src) && fresh(dst.foot + src.foot - old(dst.foot + src.foot))
    ensures TwoOf(dst, src) == Step(old(TwoOf(dst, src)), MoveAll(false, front)) && Tells(dst) && Tells(src)
  {
    hide Evbuffer.Valid, Evbuffer.Contents;
    BaseIs(dst);
    BaseIs(src);
    if front {
      var _ := PrependBuffer(dst, src);
    } else {
      var _ := AddBuffer(dst, src);
    }
  }

  method DoMoveSome(dst: Evbuffer, src: Evbuffer, len: nat)
    requires dst.Valid() && src.Valid() && Apart(dst, src) && Size(TwoOf(dst, src)) <= SIZE_MAX
    modifies dst, dst.foot, src, src.foot
    ensures dst.Valid() && src.Valid() && Apart(dst, src) && fresh(dst.foot + src.foot - old(dst.foot + src.foot))
    ensures TwoOf(dst, src) == Step(old(TwoOf(dst, src)), MoveSome(false, len)) && Tells(dst) && Tells(src)
  {
    hide Evbuffer.Valid, Evbuffer.Contents;
    BaseIs(dst);
    BaseIs(src);
    var _ := RemoveBuffer(src, dst, len);
  }

  lemma SizeGrows(t: Two, op: Op)
    ensures Size(Step(t, op)) <= Size(t) + BroughtBy(op)
  {
  }

  /**
   Any run of operations does to the two byte strings what the plain operations say; and callbacks that
   are told at once are told of just the changes, one by one and in order.
   */
  method Run(a: Evbuffer, b: Evbuffer, ops: seq<Op>) returns (out: seq<byte>)
    requires a.Valid() && b.Valid() && Apart(a, b)
    requires Size(TwoOf(a, b)) + Brought(ops) <= SIZE_MAX
    requires forall i :: 0 <= i < |ops| ==> PrependsInOne(ops[i])
    modifies a, a.foot, b, b.foot
    ensures a.Valid() && b.Valid() && Apart(a, b)
    ensures TwoOf(a, b) == Final(old(TwoOf(a, b)), ops) && out == Outputs(old(TwoOf(a, b)), ops)
    ensures old(Prompt(a)) ==> Prompt(a) && a.reports == old(a.reports) + Log(old(TwoOf(a, b)), ops, false)
    ensures old(Prompt(b)) ==> Prompt(b) && b.reports == old(b.reports) + Log(old(TwoOf(a, b)), ops, true)
  {
    hide Evbuffer.Valid, Evbuffer.Contents, Step, Out, Size, BroughtBy, Report;
    out := [];
    ghost var t0, foot0 := TwoOf(a, b), a.foot + b.foot;
    for i := 0 to |ops|
      invariant a.Valid() && b.Valid() && Apart(a, b) && fresh(a.foot + b.foot - foot0)
      invariant Size(TwoOf(a, b)) + Brought(ops[i..]) <= SIZE_MAX
      invariant Final(TwoOf(a, b), ops[i..]) == Final(t0, ops)
      invariant out + Outputs(TwoOf(a, b), ops[i..]) == Outputs(t0, ops)
      invariant old(Prompt(a)) ==>
        Prompt(a) && a.reports + Log(TwoOf(a, b), ops[i..], false) == old(a.reports) + Log(t0, ops, false)
      invariant old(Prompt(b)) ==>
        Prompt(b) && b.reports + Log(TwoOf(a, b), ops[i..], true) == old(b.reports) + Log(t0, ops, true)
    {
      ghost var toldA, toldB := a.reports, b.reports;
      ghost var t := TwoOf(a, b);
      assert ops[i..][0] == ops[i] && ops[i..][1..] == ops[i + 1..];
      var o := DoOp(a, b, ops[i]);
      SizeGrows(t, ops[i]);
      assert out + (o + Outputs(TwoOf(a, b), ops[i + 1..])) == (out + o) + Outputs(TwoOf(a, b), ops[i + 1..]);
      out := out + o;
      assert toldA + (Report(t.a, TwoOf(a, b).a) + Log(TwoOf(a, b), ops[i + 1..], false))
          == (toldA + Report(t.a, TwoOf(a, b).a)) + Log(TwoOf(a, b), ops[i + 1..], false);
      assert toldB + (Report(t.b, TwoOf(a, b).b) + Log(TwoOf(a, b), ops[i + 1..], true))
          == (toldB + Report(t.b, TwoOf(a, b).b)) + Log(TwoOf(a, b), ops[i + 1..], true);
    }
  }

  /** Bytes only enter the first buffer at its end, pass on to the second, and leave at its front. */
  predicate Pipeline(op: Op) {
    match op
    case On(second, o) =>
      (o.DoAdd? ==> !second) && (o.DoRemove? ==> second) && !o.DoPrepend? && !o.DoDrain?
    case MoveAll(second, front) => second && !front
    case MoveSome(second, _) => second
  }

  /** What the first buffer accepts during a run. */
  function Accepted(t: Two, ops: seq<Op>): seq<byte>
    decreases |ops|
  {
    if ops == [] then [] else
      (if ops[0].On? && ops[0].op.DoAdd? && !t.a.frozenEnd && |ops[0].op.data| <= MAX_ALLOC then ops[0].op.data else [])
      + Accepted(Step(t, ops[0]), ops[1..])
  }

  /**
   First in, first out, through both buffers and whatever the freezes, chain splits and moves:
   what came out, then what is in the second buffer, then what is in the first, is what was
   there before followed by what was accepted.
   */
  lemma {:induction false} PipelineKeepsOrder(t: Two, ops: seq<Op>)
    requires forall i :: 0 <= i < |ops| ==> Pipeline(ops[i])
    ensures var f := Final(t, ops);
      Outputs(t, ops) + f.b.bytes + f.a.bytes == t.b.bytes + t.a.bytes + Accepted(t, ops)
    decreases |ops|
  {
    hide Step, Out, Pipeline;
    if ops != [] {
      var op, u, f := ops[0], Step(t, ops[0]), Final(t, ops);
      var inp := if op.On? && op.op.DoAdd? && !t.a.frozenEnd && |op.op.data| <= MAX_ALLOC then op.op.data else [];
      PipelineKeepsOrder(u, ops[1..]);
      PipelineStep(t, op);
      Regroup(Out(t, op), Outputs(u, ops[1..]), f.b.bytes, f.a.bytes);
      Regroup(Out(t, op), u.b.bytes, u.a.bytes, Accepted(u, ops[1..]));
      Regroup(t.b.bytes, t.a.bytes, inp, Accepted(u, ops[1..]));
    }
  }

  lemma Regroup(a: seq<byte>, b: seq<byte>, c: seq<byte>, d: seq<byte>)
    ensures a + b + c + d == a + (b + c + d) == (a + b + c) + d == a + b + (c + d)
  {
  }

  lemma PipelineStep(t: Two, op: Op)
    requires Pipeline(op)
    ensures var u := Step(t, op);
      Out(t, op) + u.b.bytes + u.a.bytes
      == t.b.bytes + t.a.bytes + if op.On? && op.op.DoAdd? && !t.a.frozenEnd && |op.op.data| <= MAX_ALLOC then op.op.data else []
  {
  }

  function NetOf(reports: seq<CbInfo>): int {
    if reports == [] then 0 else
      var r := reports[|reports| - 1]; NetOf(reports[..|reports| - 1]) + r.nAdded - r.nDeleted
  }

  lemma {:induction false} ChainedNet(reports: seq<CbInfo>)
    requires Chained(reports)
    ensures After(reports) == NetOf(reports)
  {
    if reports != [] {
      ChainedNet(reports[..|reports| - 1]);
    }
  }

  /**
   The change callbacks never miss or repeat a byte: at any time, what they have been told so far
   plus the counters not told yet is exactly the length of the buffer.
   */
  lemma ReportsAccountForLength(buf: Evbuffer)
    requires buf.Valid() && buf.cbMode != NoCallbacks
    ensures NetOf(buf.reports) + buf.nAddForCb - buf.nDelForCb == |buf.Contents()|
  {
    ChainedNet(buf.reports);
  }

  /** For one: three bytes are added, and two drained. */
  method ToldOfEach() returns (buf: Evbuffer)
    ensures buf.reports == [CbInfo(0, 3, 0), CbInfo(3, 0, 2)] && buf.Contents() == [3]
  {
    hide Evbuffer.Valid, Evbuffer.Shape, Evbuffer.Contents;
    buf := new Evbuffer(Immediate);
    BaseIs(buf);
    var added := Add(buf, [1, 2, 3]);
    assert buf.Contents() == [1, 2, 3];
    BaseIs(buf);
    var drained := Drain(buf, 2);
  }
}
