/**
 The evbuffer: a byte queue kept as a linked list of partly filled chains, with
 its representation invariant, and the helpers every operation is built from.
 */
module EvbufferCore {
  import opened Bytes

  const CHAIN_SIZE: nat := 48         // sizeof(struct evbuffer_chain), 64-bit
  const MIN_BUFFER_SIZE: nat := 1024
  const CHAIN_MAX: nat := SSIZE_MAX
  const MAX_ALLOC: nat := CHAIN_MAX - CHAIN_SIZE

  ghost function Window(memory: array<byte>, at: nat, len: nat): seq<byte>
    requires at + len <= memory.Length
    reads memory
  {
    memory[at..at + len]
  }

  class Chain {
    var next: Chain?
    const buffer: array<byte>
    var misalign: nat
    var off: nat

    constructor (capacity: nat)
      ensures next == null && misalign == 0 && off == 0
      ensures fresh(buffer) && buffer.Length == capacity
    {
      next := null;
      buffer := new byte[capacity];
      misalign := 0;
      off := 0;
    }

    /** The data window of this chain holds exactly `b`. */
    ghost predicate Holds(b: seq<byte>)
      reads this`misalign, this`off, buffer
    {
      && 0 < buffer.Length <= MAX_ALLOC
      && |b| == off
      && misalign + off <= buffer.Length
      && Window(buffer, misalign, off) == b
    }

    /** CHAIN_SPACE_LEN: room after the data window. */
    function SpaceLen(): nat
      requires misalign + off <= buffer.Length
      reads this`misalign, this`off
    {
      buffer.Length - (misalign + off)
    }
  }

  /** struct evbuffer_ptr: a position, and where in the list it is. */
  datatype Ptr = Ptr(pos: int, chain: Chain?, posInChain: nat)

  /** What a change callback is told. */
  datatype CbInfo = CbInfo(origSize: int, nAdded: nat, nDeleted: nat)

  datatype CbMode = NoCallbacks | Immediate | Deferred

  /** What the heap structure of a buffer stands for: its chains and what each one holds. */
  datatype View = View(
    chains: seq<Chain>,
    bytes: seq<seq<byte>>,      // bytes[i] is what chains[i] holds
    lwd: nat)                   // index of the last-with-data chain
  {
    /** Chains, and their memories, are pairwise distinct. */
    ghost predicate Distinct() {
      forall i, j :: 0 <= i < j < |chains| ==> chains[i] != chains[j] && chains[i].buffer != chains[j].buffer
    }

    ghost predicate Within(foot: set<object>) {
      forall i {:trigger chains[i]} :: 0 <= i < |chains| ==> chains[i] in foot && chains[i].buffer in foot
    }

    /** `lwd` is the last chain with data, or else the first chain. */
    ghost predicate Marked() {
      && |bytes| == |chains|
      && (lwd < |chains| || lwd == |chains| == 0)
      && (lwd > 0 ==> bytes[lwd] != [])
      && (forall i :: lwd < i < |bytes| ==> bytes[i] == [])
    }

    ghost predicate Ok() {
      Marked() && Distinct()
    }

    /** The chains on the heap are linked and filled as this view says. */
    ghost predicate OnHeap(foot: set<object>)
      requires |bytes| == |chains| && Within(foot)
      reads foot
    {
      && (forall i {:trigger chains[i].next} :: 0 <= i < |chains| ==> chains[i].next == Next(i))
      && (forall i {:trigger chains[i]} :: 0 <= i < |chains| ==> chains[i].Holds(bytes[i]))
    }

    ghost function Next(i: nat): Chain? {
      if i + 1 < |chains| then chains[i + 1] else null
    }

    /** `p` is a position in chain number `k`, or the end of the list. */
    ghost predicate At(p: Ptr, k: nat) {
      && k <= |chains| == |bytes|
      && p.chain == (if k < |chains| then chains[k] else null)
      && p.posInChain <= (if k < |chains| then |bytes[k]| else 0)
      && p.pos == |Flatten(bytes[..k])| + p.posInChain
    }

    ghost function Head(): Chain? {
      if chains == [] then null else chains[0]
    }

    /** The chain whose `next` field is the slot of chain number `k`; null for the head. */
    ghost function Pred(k: nat): Chain?
      requires k <= |chains|
    {
      if k == 0 then null else chains[k - 1]
    }
  }

  class Evbuffer {
    var first: Chain?
    var last: Chain?
    /** last_with_datap: null stands for &buf->first, a chain c for &c->next. */
    var lastWithDataPred: Chain?
    var totalLen: nat
    var nAddForCb: nat
    var nDelForCb: nat
    var freezeStart: bool
    var freezeEnd: bool
    const cbMode: CbMode
    /** What the callbacks were told by the runs that cleared the counters. */
    var reports: seq<CbInfo>
    /** What callbacks that are not deferred were told by the runs that did not. */
    var early: seq<CbInfo>

    ghost var view: View
    ghost var cbBase: nat             // length when the counters were last cleared
    ghost var foot: set<object>       // the chains and their memories

    ghost predicate Heads()
      requires view.Marked()
      reads this`view, this`first, this`lastWithDataPred, this`totalLen
    {
      && first == view.Head()
      && lastWithDataPred == view.Pred(view.lwd)
      && totalLen == |Flatten(view.bytes)|
    }

    /** The list invariant, except that `last` may be stale. */
    ghost predicate ShapeButLast()
      reads this`view, this`foot, this`first, this`lastWithDataPred, this`totalLen, foot - {this}
    {
      && this !in foot && view.Within(foot)
      && view.Ok() && view.OnHeap(foot) && Heads()
    }

    ghost predicate Shape()
      reads this`view, this`foot, this`first, this`lastWithDataPred, this`totalLen, this`last, foot - {this}
    {
      && ShapeButLast()
      && last == view.Pred(|view.chains|)
    }

    /** How much of the length change since the last clearing run is not counted yet. */
    ghost function Uncounted(): int
      reads this`cbBase, this`nAddForCb, this`nDelForCb, this`totalLen
    {
      totalLen - cbBase - (nAddForCb - nDelForCb)
    }

    ghost predicate Reported()
      reads this`cbBase, this`reports
    {
      cbMode != NoCallbacks ==> Chained(reports) && After(reports) == cbBase
    }

    ghost predicate Valid()
      reads this, foot
    {
      Shape() && Uncounted() == 0 && Reported()
    }

    /**
     What a change comes to for the callbacks. Those that are told at once are told of everything since
     they were last told; for the others it is added up, and callbacks that are not deferred are told of
     the sums so far, `again` once more.
     */
    twostate predicate Told(added: nat, deleted: nat, again: bool := false)
      reads this`nAddForCb, this`nDelForCb, this`reports, this`early, this`cbBase
    {
      var info := CbInfo(old(cbBase), old(nAddForCb) + added, old(nDelForCb) + deleted);
      var news := if info.nAdded == info.nDeleted == 0 then [] else [info];
      match cbMode
      case NoCallbacks => reports == old(reports) && early == old(early)
      case Immediate =>
        nAddForCb == nDelForCb == 0 && reports == old(reports) + news && early == old(early)
      case Deferred =>
        && nAddForCb == info.nAdded && nDelForCb == info.nDeleted && cbBase == old(cbBase)
        && reports == old(reports) && early == old(early) + news + if again then news else []
    }

    /** Nothing is told; bytes that were added are counted for the next time. */
    twostate predicate Silent(added: int := 0)
      reads this`nAddForCb, this`nDelForCb, this`reports, this`early, this`cbBase
    {
      && nAddForCb == old(nAddForCb) + added && nDelForCb == old(nDelForCb) && cbBase == old(cbBase)
      && reports == old(reports) && early == old(early)
    }

    ghost function Contents(): seq<byte>
      reads this`view
    {
      Flatten(view.bytes)
    }

    constructor (mode: CbMode)
      ensures Valid() && fresh(foot) && Contents() == []
      ensures !freezeStart && !freezeEnd && cbMode == mode && reports == early == [] && first == null
      ensures nAddForCb == nDelForCb == 0
    {
      first, last, lastWithDataPred := null, null, null;
      totalLen, nAddForCb, nDelForCb := 0, 0, 0;
      freezeStart, freezeEnd := false, false;
      cbMode := mode;
      reports, early := [], [];
      view := View([], [], 0);
      cbBase := 0;
      foot := {};
    }

    /** The chain *last_with_datap, or null. */
    function LastWithData(): (c: Chain?)
      requires ShapeButLast()
      reads this, foot
      ensures c == if view.chains == [] then null else view.chains[view.lwd]
    {
      if lastWithDataPred == null then first else lastWithDataPred.next
    }
  }

  /** Each report starts from the length the one before it ended with. */
  ghost predicate Chained(reports: seq<CbInfo>) {
    reports == [] ||
    var before := reports[..|reports| - 1];
    Chained(before) && reports[|reports| - 1].origSize == After(before)
  }

  ghost function After(reports: seq<CbInfo>): int {
    if reports == [] then 0 else
      var r := reports[|reports| - 1]; r.origSize + r.nAdded - r.nDeleted
  }

  /** The first of `alloc`, its double, and so on, that is not below `need`. */
  function Doubled(alloc: nat, need: nat): (r: nat)
    requires alloc > 0
    ensures need <= r && (r == alloc || r < 2 * need)
    decreases need - alloc
  {
    if alloc >= need then alloc else Doubled(alloc * 2, need)
  }

  /** The memory of a chain that is made for `size` bytes. */
  function Capacity(size: nat): (r: nat)
    ensures size <= r && 0 < CHAIN_SIZE + r && (size > 0 ==> r > 0)
    ensures r == size || r + CHAIN_SIZE == MIN_BUFFER_SIZE || r + CHAIN_SIZE < 2 * (size + CHAIN_SIZE)
  {
    var need := size + CHAIN_SIZE;
    if need < CHAIN_MAX / 2 then Doubled(MIN_BUFFER_SIZE, need) - CHAIN_SIZE else size
  }

  /** 2^k */
  function PowerOf2(k: nat): (r: nat)
    ensures r > 0
  {
    if k == 0 then 1 else 2 * PowerOf2(k - 1)
  }

  /** Doubling gives the least of the doubles that is large enough. */
  lemma {:induction false} DoubledIsLeast(alloc: nat, need: nat, k: nat) returns (j: nat)
    requires alloc > 0 && need <= alloc * PowerOf2(k)
    ensures j <= k && Doubled(alloc, need) == alloc * PowerOf2(j) <= alloc * PowerOf2(k)
    decreases k
  {
    if alloc >= need {
      j := 0;
      TimesGrows(alloc, PowerOf2(k));
    } else {
      TwiceTimes(alloc, PowerOf2(k - 1));
      var i := DoubledIsLeast(alloc * 2, need, k - 1);
      TwiceTimes(alloc, PowerOf2(i));
      j := i + 1;
    }
  }

  lemma TwiceTimes(a: nat, b: nat)
    ensures a * 2 * b == a * (2 * b)
  {
  }

  lemma TimesGrows(a: nat, b: nat)
    requires b > 0
    ensures a <= a * b
  {
  }

  /**
   A chain is allocated with the least power-of-two multiple of the minimal size that holds the
   request and the header, unless that is half of all there can be.
   */
  lemma {:induction false} CapacityIsLeast(size: nat, k: nat)
    requires size + CHAIN_SIZE < CHAIN_MAX / 2 && size + CHAIN_SIZE <= MIN_BUFFER_SIZE * PowerOf2(k)
    ensures Capacity(size) + CHAIN_SIZE <= MIN_BUFFER_SIZE * PowerOf2(k)
    ensures exists j: nat :: Capacity(size) + CHAIN_SIZE == MIN_BUFFER_SIZE * PowerOf2(j)
  {
    var j := DoubledIsLeast(MIN_BUFFER_SIZE, size + CHAIN_SIZE, k);
    assert Capacity(size) + CHAIN_SIZE == MIN_BUFFER_SIZE * PowerOf2(j);
  }

  /** evbuffer_chain_new */
  method ChainNew(size: nat) returns (chain: Chain?)
    ensures chain == null <==> size > MAX_ALLOC
    ensures chain != null ==>
      && fresh(chain) && fresh(chain.buffer) && chain.next == null
      && chain.Holds([]) && chain.misalign == 0
      && chain.buffer.Length == Capacity(size)
  {
    if size > MAX_ALLOC {
      return null;
    }
    var need := size + CHAIN_SIZE;
    var toAlloc := need;
    if need < CHAIN_MAX / 2 {
      toAlloc := MIN_BUFFER_SIZE;
      while toAlloc < need
        invariant toAlloc > 0 && Doubled(toAlloc, need) == Doubled(MIN_BUFFER_SIZE, need)
      {
        toAlloc := toAlloc * 2;
      }
    }
    chain := new Chain(toAlloc - CHAIN_SIZE);
  }

  /** memcpy into a chain's memory. */
  method Memcpy(dst: array<byte>, at: nat, data: seq<byte>)
    requires at + |data| <= dst.Length
    modifies dst
    ensures dst[at..at + |data|] == data
    ensures forall k :: 0 <= k < dst.Length && !(at <= k < at + |data|) ==> dst[k] == old(dst[k])
  {
    for i := 0 to |data|
      invariant forall k :: 0 <= k < i ==> dst[at + k] == data[k]
      invariant forall k :: 0 <= k < dst.Length && !(at <= k < at + i) ==> dst[k] == old(dst[k])
    {
      dst[at + i] := data[i];
    }
  }

  lemma ChainedMore(reports: seq<CbInfo>, info: CbInfo)
    ensures Chained(reports + [info]) <==> Chained(reports) && info.origSize == After(reports)
    ensures After(reports + [info]) == info.origSize + info.nAdded - info.nDeleted
  {
    assert (reports + [info])[..|reports|] == reports;
  }

  /** evbuffer_run_callbacks, as called when the deferred callback fires or not. */
  method RunCallbacks(buf: Evbuffer, runningDeferred: bool)
    requires buf.Valid()
    modifies buf`nAddForCb, buf`nDelForCb, buf`reports, buf`early, buf`cbBase
    ensures buf.Valid()
    ensures buf.cbMode != Deferred || runningDeferred ==> buf.nAddForCb == 0 && buf.nDelForCb == 0
    ensures buf.reports ==
            if buf.cbMode == NoCallbacks || (buf.cbMode == Deferred && !runningDeferred)
               || (old(buf.nAddForCb) == 0 && old(buf.nDelForCb) == 0)
            then old(buf.reports)
            else old(buf.reports) + [CbInfo(old(buf.cbBase), old(buf.nAddForCb), old(buf.nDelForCb))]
    ensures buf.cbMode == Deferred && !runningDeferred ==>
      buf.nAddForCb == old(buf.nAddForCb) && buf.nDelForCb == old(buf.nDelForCb) && buf.cbBase == old(buf.cbBase)
    ensures buf.early ==
            if buf.cbMode == Deferred && !runningDeferred && (old(buf.nAddForCb) != 0 || old(buf.nDelForCb) != 0)
            then old(buf.early) + [CbInfo(old(buf.cbBase), old(buf.nAddForCb), old(buf.nDelForCb))]
            else old(buf.early)
  {
    hide Evbuffer.Shape, Chained, After;
    if buf.cbMode == NoCallbacks {
      buf.nAddForCb, buf.nDelForCb := 0, 0;
      buf.cbBase := buf.totalLen;
    } else if buf.nAddForCb != 0 || buf.nDelForCb != 0 {
      var info := CbInfo(buf.totalLen + buf.nDelForCb - buf.nAddForCb, buf.nAddForCb, buf.nDelForCb);
      if buf.cbMode != Deferred || runningDeferred {
        ChainedMore(buf.reports, info);
        buf.nAddForCb, buf.nDelForCb := 0, 0;
        buf.reports := buf.reports + [info];
        buf.cbBase := buf.totalLen;
      } else {
        buf.early := buf.early + [info];
      }
    }
  }

  /** evbuffer_invoke_callbacks_ (scheduling the deferred run is not modelled). */
  method InvokeCallbacks(buf: Evbuffer)
    requires buf.Valid()
    modifies buf`nAddForCb, buf`nDelForCb, buf`reports, buf`early, buf`cbBase
    ensures buf.Valid() && buf.Told(0, 0)
  {
    hide Evbuffer.Shape, Evbuffer.Reported;
    RunCallbacks(buf, false);
  }

  /** Account for bytes added or deleted, and tell the callbacks. */
  method Count(buf: Evbuffer, added: nat, deleted: nat)
    requires buf.Shape() && buf.Reported() && buf.Uncounted() == added - deleted
    modifies buf`nAddForCb, buf`nDelForCb, buf`reports, buf`early, buf`cbBase
    ensures buf.Valid() && buf.Told(added, deleted)
  {
    hide Evbuffer.Shape, Evbuffer.Reported;
    buf.nAddForCb := buf.nAddForCb + added;
    buf.nDelForCb := buf.nDelForCb + deleted;
    InvokeCallbacks(buf);
  }

  /** Where evbuffer_free_trailing_empty_chains cuts the list. */
  ghost function Kept(view: View): nat
    requires view.Marked()
  {
    if view.chains == [] || view.bytes[view.lwd] == [] then 0 else view.lwd + 1
  }

  ghost function Prefix(view: View, k: nat): View
    requires k <= |view.chains| == |view.bytes|
  {
    view.(chains := view.chains[..k], bytes := view.bytes[..k])
  }

  lemma PrefixOk(view: View, foot: set<object>)
    requires view.Ok() && view.Within(foot)
    ensures var k := Kept(view); k <= |view.chains| == |view.bytes| && (k == |view.chains| ==> Prefix(view, k) == view)
    ensures var p := Prefix(view, Kept(view));
      && p.Ok() && p.Within(foot) && Flatten(p.bytes) == Flatten(view.bytes) && Trimmed(p)
      && p.Pred(p.lwd) == view.Pred(view.lwd) && p.Pred(|p.chains|) == view.Pred(Kept(view))
      && p.Head() == (if Kept(view) == 0 then null else view.Head())
  {
    FlattenSplit(view.bytes, Kept(view));
    FlattenEmpties(view.bytes[Kept(view)..]);
  }

  /** Nothing but the last-with-data chain, if that one has data. */
  ghost predicate Trimmed(view: View) {
    view.Marked() && Kept(view) == |view.chains|
  }

  /** Putting the list invariant together from its parts. */
  lemma ShapeFrom(buf: Evbuffer)
    requires buf !in buf.foot && buf.view.Ok() && buf.view.Within(buf.foot) && buf.view.OnHeap(buf.foot)
    requires buf.first == buf.view.Head() && buf.lastWithDataPred == buf.view.Pred(buf.view.lwd)
    requires buf.totalLen == |Flatten(buf.view.bytes)|
    ensures buf.ShapeButLast() && buf.Contents() == Flatten(buf.view.bytes)
    ensures buf.last == buf.view.Pred(|buf.view.chains|) ==> buf.Shape()
  {
  }

  /** Taking the list invariant apart. */
  lemma ShapeParts(buf: Evbuffer)
    requires buf.ShapeButLast() || buf.Shape()
    ensures buf.ShapeButLast()
    ensures buf !in buf.foot && buf.view.Ok() && buf.view.Within(buf.foot) && buf.view.OnHeap(buf.foot)
    ensures |buf.view.bytes| == |buf.view.chains|
    ensures buf.view.lwd < |buf.view.chains| || buf.view.lwd == |buf.view.chains| == 0
    ensures buf.first == buf.view.Head() && buf.lastWithDataPred == buf.view.Pred(buf.view.lwd)
    ensures buf.totalLen == |buf.Contents()| && buf.Contents() == Flatten(buf.view.bytes)
    ensures buf.Shape() ==> buf.last == buf.view.Pred(|buf.view.chains|)
    ensures forall c :: c in buf.view.chains ==> c in buf.foot && c.buffer in buf.foot
  {
  }

  lemma NodeAt(buf: Evbuffer, k: nat)
    requires buf.ShapeButLast() && k < |buf.view.chains|
    ensures |buf.view.chains| == |buf.view.bytes|
    ensures var c := buf.view.chains[k];
      && c.Holds(buf.view.bytes[k]) && c.off == |buf.view.bytes[k]|
      && c.misalign + c.off <= c.buffer.Length <= MAX_ALLOC && c.next == buf.view.Next(k)
      && c in buf.foot && c.buffer in buf.foot
  {
  }

  lemma ValidParts(buf: Evbuffer)
    requires buf.Valid()
    ensures buf.Shape() && buf.ShapeButLast() && buf.Uncounted() == 0 && buf.Reported()
    ensures buf !in buf.foot && buf.totalLen == |buf.Contents()|
  {
  }

  lemma ValidFrom(buf: Evbuffer)
    requires buf.Shape() && buf.Uncounted() == 0 && buf.Reported()
    ensures buf.Valid()
  {
  }

  /** The assignment *chp = chain, for the slot after `pred`. */
  method SetSlot(buf: Evbuffer, pred: Chain?, chain: Chain?)
    modifies buf`first, (if pred == null then {} else {pred})`next
    ensures if pred == null then buf.first == chain else pred.next == chain && buf.first == old(buf.first)
  {
    if pred == null {
      buf.first := chain;
    } else {
      pred.next := chain;
    }
  }

  /** Write the header fields that go with a change of the list. */
  method SetHeader(buf: Evbuffer, last: Chain?, lastWithDataPred: Chain?, totalLen: nat,
                   ghost view: View, ghost foot: set<object>)
    modifies buf`last, buf`lastWithDataPred, buf`totalLen, buf`view, buf`foot
    ensures buf.last == last && buf.lastWithDataPred == lastWithDataPred && buf.totalLen == totalLen
    ensures buf.view == view && buf.foot == foot
  {
    buf.last, buf.lastWithDataPred, buf.totalLen := last, lastWithDataPred, totalLen;
    buf.view, buf.foot := view, foot;
  }

  method CutNode(buf: Evbuffer, pred: Chain?, ghost v: View, ghost foot: set<object>)
    requires v.Ok() && v.Within(foot) && v.OnHeap(foot) && buf !in foot
    requires Kept(v) < |v.chains| && pred == v.Pred(Kept(v))
    requires Prefix(v, Kept(v)).Ok() && Prefix(v, Kept(v)).Within(foot)
    modifies buf`first, v.chains`next
    ensures Prefix(v, Kept(v)).OnHeap(foot)
    ensures buf.first == if Kept(v) == 0 then null else old(buf.first)
  {
    hide Chain.Holds;
    SetSlot(buf, pred, null);
  }

  /** Cut the list in the slot after `pred`, all chains from there on being empty. */
  method CutAt(buf: Evbuffer, pred: Chain?)
    requires buf.Shape()
    requires Kept(buf.view) < |buf.view.chains| && pred == buf.view.Pred(Kept(buf.view))
    modifies buf`first, buf`view, buf.view.chains`next
    ensures buf.ShapeButLast()
    ensures buf.view == old(Prefix(buf.view, Kept(buf.view)))
    ensures buf.Contents() == old(buf.Contents())
  {
    hide *;
    ShapeParts(buf);
    PrefixOk(buf.view, buf.foot);
    ghost var p := Prefix(buf.view, Kept(buf.view));
    CutNode(buf, pred, buf.view, buf.foot);
    buf.view := p;
    ShapeFrom(buf);
  }

  /** The search loop of evbuffer_free_trailing_empty_chains. */
  method FindTrailingEmpty(buf: Evbuffer) returns (pred: Chain?, victim: Chain?)
    requires buf.Shape()
    ensures var k := Kept(buf.view);
      && pred == buf.view.Pred(k)
      && victim == if k < |buf.view.chains| then buf.view.chains[k] else null
  {
    pred := buf.lastWithDataPred;
    victim := buf.LastWithData();
    ghost var k := buf.view.lwd;
    while victim != null && victim.off != 0
      invariant buf.view.lwd <= k <= |buf.view.chains|
      invariant k > buf.view.lwd ==> k == Kept(buf.view)
      invariant victim == if k < |buf.view.chains| then buf.view.chains[k] else null
      invariant pred == buf.view.Pred(k)
      decreases |buf.view.chains| - k
    {
      pred := victim;
      victim := victim.next;
      k := k + 1;
    }
  }

  /**
   evbuffer_free_trailing_empty_chains: drop every chain after the last one that has
   data; answer the predecessor of the place where a new chain will go.
   */
  method FreeTrailingEmptyChains(buf: Evbuffer) returns (pred: Chain?)
    requires buf.Shape()
    modifies buf`first, buf`view, buf.view.chains`next
    ensures buf.ShapeButLast()
    ensures buf.view == old(Prefix(buf.view, Kept(buf.view)))
    ensures pred == buf.view.Pred(|buf.view.chains|)
    ensures buf.Contents() == old(buf.Contents())
  {
    hide *;
    ShapeParts(buf);
    PrefixOk(buf.view, buf.foot);
    var victim;
    pred, victim := FindTrailingEmpty(buf);
    if victim != null {
      CutAt(buf, pred);
    }
  }

  lemma NoChains(view: View)
    requires view.Ok() && view.chains == []
    ensures Kept(view) == 0 && view.Pred(0) == null
  {
  }

  lemma HoldsOff(c: Chain, b: seq<byte>)
    requires c.Holds(b)
    ensures c.off == |b| && c.misalign + c.off <= c.buffer.Length
  {
  }

  /** The list with one more chain, holding `b`, at its end. */
  ghost function Extended(view: View, c: Chain, b: seq<byte>): View {
    var n := |view.chains|;
    View(view.chains + [c], view.bytes + [b],
         if b != [] || n == 0 then n else view.lwd)
  }

  lemma ExtendedOk(view: View, foot: set<object>, c: Chain, b: seq<byte>)
    requires Trimmed(view) && view.Ok() && view.Within(foot)
    requires c !in foot && c.buffer !in foot
    ensures var e := Extended(view, c, b);
      && e.Ok() && e.Within(foot + {c, c.buffer}) && Flatten(e.bytes) == Flatten(view.bytes) + b
      && e.Pred(|e.chains|) == c && e.Head() == (if view.chains == [] then c else view.Head())
      && e.Pred(e.lwd) == (if b != [] then view.Pred(|view.chains|) else view.Pred(view.lwd))
  {
    FlattenAppend(view.bytes, [b]);
    FlattenOne(b);
  }

  /** Store `chain` in the slot after `pred`, where the list ends. */
  method LinkNode(buf: Evbuffer, pred: Chain?, chain: Chain, ghost v: View, ghost foot: set<object>, ghost b: seq<byte>)
    requires v.Ok() && v.Within(foot) && v.OnHeap(foot) && buf !in foot
    requires pred == v.Pred(|v.chains|)
    requires chain !in foot && chain.buffer !in foot && chain.next == null && chain.Holds(b)
    requires Extended(v, chain, b).Ok() && Extended(v, chain, b).Within(foot + {chain, chain.buffer})
    modifies buf`first, v.chains`next
    ensures Extended(v, chain, b).OnHeap(foot + {chain, chain.buffer})
    ensures buf.first == if v.chains == [] then chain else old(buf.first)
  {
    hide Chain.Holds;
    SetSlot(buf, pred, chain);
  }

  /** Make `chain` the last chain of a trimmed list. */
  method LinkAtEnd(buf: Evbuffer, pred: Chain?, chain: Chain, ghost b: seq<byte>)
    requires buf.ShapeButLast() && Trimmed(buf.view)
    requires pred == buf.view.Pred(|buf.view.chains|)
    requires chain !in buf.foot && chain.buffer !in buf.foot
    requires chain.next == null && chain.Holds(b)
    modifies buf`first, buf`last, buf`lastWithDataPred, buf`totalLen, buf`view, buf`foot
    modifies buf.view.chains`next
    ensures buf.Shape()
    ensures buf.view == old(Extended(buf.view, chain, b))
    ensures buf.foot == old(buf.foot) + {chain, chain.buffer}
    ensures buf.Contents() == old(buf.Contents()) + b
  {
    hide *;
    ShapeParts(buf);
    HoldsOff(chain, b);
    ExtendedOk(buf.view, buf.foot, chain, b);
    LinkNode(buf, pred, chain, buf.view, buf.foot, b);
    SetHeader(buf, chain, if chain.off != 0 then pred else buf.lastWithDataPred, buf.totalLen + chain.off,
              Extended(buf.view, chain, b), buf.foot + {chain, chain.buffer});
    ShapeFrom(buf);
  }

  /**
   evbuffer_chain_insert: add one chain at the end, freeing trailing empty chains first.
   The callback counters are left to the caller.
   */
  method ChainInsert(buf: Evbuffer, chain: Chain, ghost b: seq<byte>)
    requires buf.Shape()
    requires chain !in buf.foot && chain.buffer !in buf.foot
    requires chain.next == null && chain.Holds(b)
    modifies buf`first, buf`last, buf`lastWithDataPred, buf`totalLen, buf`view, buf`foot
    modifies buf.foot
    ensures buf.Shape()
    ensures buf.view == old(Extended(Prefix(buf.view, Kept(buf.view)), chain, b))
    ensures buf.foot == old(buf.foot) + {chain, chain.buffer}
    ensures buf.Contents() == old(buf.Contents()) + b
  {
    hide *;
    ShapeParts(buf);
    PrefixOk(buf.view, buf.foot);
    var lastWithData := buf.LastWithData();
    if lastWithData == null {
      NoChains(buf.view);
      LinkAtEnd(buf, null, chain, b);
    } else {
      var pred := FreeTrailingEmptyChains(buf);
      ShapeParts(buf);
      LinkAtEnd(buf, pred, chain, b);
    }
  }
}
