/**
 evbuffer_pullup: make the first bytes of an evbuffer contiguous.
 */
module EvbufferPullup {
  import opened Bytes
  import opened EvbufferCore
  import opened EvbufferAppend
  import opened EvbufferDrain

  /** The bytes of chain number `k` on, without the first `r` of them. */
  ghost function RestOf(view: View, k: nat, r: nat): seq<seq<byte>>
    requires k <= |view.bytes| && (k < |view.bytes| ==> r <= |view.bytes[k]|)
  {
    if k < |view.bytes| then [view.bytes[k][r..]] + view.bytes[k + 1..] else []
  }

  /** The list after everything up to byte `r` of chain number `k` was pulled into `tmp`, as `b`. */
  ghost function Pulled(view: View, tmp: Chain, k: nat, r: nat, b: seq<byte>): View
    requires k <= |view.chains| == |view.bytes| && (k < |view.bytes| ==> r <= |view.bytes[k]|)
  {
    View([tmp] + view.chains[k..], [b] + RestOf(view, k, r),
         if k < |view.chains| && k <= view.lwd then view.lwd - k + 1 else 0)
  }

  lemma PulledFlat(view: View, k: nat, r: nat, b: seq<byte>)
    requires view.Ok() && k <= |view.chains| == |view.bytes|
    requires if k < |view.bytes| then r < |view.bytes[k]| else r == 0
    requires |b| == |Flatten(view.bytes[..k])| + r <= |Flatten(view.bytes)| && b == Flatten(view.bytes)[..|b|]
    ensures Flatten([b] + RestOf(view, k, r)) == Flatten(view.bytes)
    ensures k < |view.bytes| ==> k <= view.lwd
  {
    FlattenCons(b, RestOf(view, k, r));
    if k < |view.bytes| {
      FlattenAt(view.bytes, k);
      FlattenCons(view.bytes[k][r..], view.bytes[k + 1..]);
    } else {
      FlattenAll(view.bytes);
    }
  }

  lemma PulledOk(view: View, foot: set<object>, tmp: Chain, k: nat, r: nat, b: seq<byte>)
    requires view.Ok() && view.Within(foot) && k <= |view.chains| == |view.bytes|
    requires if k < |view.bytes| then r < |view.bytes[k]| else r == 0
    requires |b| == |Flatten(view.bytes[..k])| + r <= |Flatten(view.bytes)| && b == Flatten(view.bytes)[..|b|]
    requires (k > 0 && tmp == view.chains[0]) || (tmp !in foot && tmp.buffer !in foot)
    ensures var p := Pulled(view, tmp, k, r, b);
      && p.Ok() && p.Within(foot + {tmp, tmp.buffer}) && Flatten(p.bytes) == Flatten(view.bytes)
      && p.Head() == tmp && p.Pred(|p.chains|) == (if k < |view.chains| then view.Pred(|view.chains|) else tmp)
      && (k < |view.chains| ==> k <= view.lwd)
      && p.Pred(p.lwd) == if k == |view.chains| then null else if view.lwd == k then tmp else view.Pred(view.lwd)
  {
    hide Flatten;
    PulledFlat(view, k, r, b);
  }

  /** The chains from number `k` on. */
  ghost function Tail(v: View, k: nat): View
    requires k <= |v.chains| == |v.bytes|
  {
    View(v.chains[k..], v.bytes[k..], 0)
  }

  lemma TailWithin(v: View, foot: set<object>, k: nat)
    requires k <= |v.chains| == |v.bytes| && v.Within(foot) && v.Distinct()
    ensures Tail(v, k).Within(foot) && Tail(v, k).Distinct()
  {
  }

  lemma TailFurther(v: View, foot: set<object>, k: nat, m: nat)
    requires k <= m <= |v.chains| == |v.bytes| && v.Within(foot) && v.Distinct()
    ensures Tail(v, k).Within(foot) && Tail(v, m).Within(foot) && Tail(v, m).Distinct()
    ensures Tail(v, k).OnHeap(foot) ==> Tail(v, m).OnHeap(foot)
  {
    hide Chain.Holds, View.Within, View.Distinct;
    TailWithin(v, foot, k);
    TailWithin(v, foot, m);
    assert forall i {:trigger Tail(v, m).chains[i]} :: 0 <= i < |v.chains| - m ==>
      Tail(v, m).chains[i] == Tail(v, k).chains[i + (m - k)] && Tail(v, m).bytes[i] == Tail(v, k).bytes[i + (m - k)];
  }

  lemma FrontOnHeap(w: View, foot: set<object>, c: Chain, b: seq<byte>, lwd: nat)
    requires |w.bytes| == |w.chains| && w.Within(foot) && w.OnHeap(foot)
    requires c.next == w.Head() && c.Holds(b)
    ensures var f := View([c] + w.chains, [b] + w.bytes, lwd);
      f.Within(foot + {c, c.buffer}) && f.OnHeap(foot + {c, c.buffer})
  {
    hide Chain.Holds;
  }

  /** Take the first `r` bytes off `chain`, and link it after `tmp`. */
  method PullNodes(tmp: Chain, chain: Chain?, r: nat, ghost v: View, ghost foot: set<object>, ghost k: nat, ghost b: seq<byte>)
    requires k <= |v.bytes| == |v.chains| && v.Within(foot) && v.Distinct()
    requires chain == if k < |v.chains| then v.chains[k] else null
    requires Tail(v, k).Within(foot) && Tail(v, k).Distinct() && Tail(v, k).OnHeap(foot)
    requires tmp.Holds(b) && (k < |v.chains| ==> r <= |v.bytes[k]| == chain.off)
    requires forall i :: k <= i < |v.chains| ==> v.chains[i] != tmp && v.chains[i].buffer != tmp.buffer
    modifies tmp`next, foot
    ensures Pulled(v, tmp, k, r, b).Within(foot + {tmp, tmp.buffer})
    ensures Pulled(v, tmp, k, r, b).OnHeap(foot + {tmp, tmp.buffer})
    ensures tmp.Holds(b) && (chain != null ==> chain.off == old(chain.off) - r)
  {
    hide Chain.Holds, View.Distinct, View.Within, View.OnHeap, View.Head;
    ghost var w := Tail(v, k);
    if chain != null {
      ghost var d := Dropped(w, 0, r);
      assert d.chains == v.chains[k..] && d.bytes == RestOf(v, k, r);
      DroppedWithin(w, foot, r);
      DropNode(chain, w, foot, 0, r);
      w := d;
    }
    TailHead(v, k, w);
    LinkFront(tmp, chain, w, foot, b);
    FrontOnHeap(w, foot, tmp, b, Pulled(v, tmp, k, r, b).lwd);
  }

  lemma DroppedWithin(w: View, foot: set<object>, r: nat)
    requires 0 < |w.chains| == |w.bytes| && w.Within(foot) && r <= |w.bytes[0]|
    ensures Dropped(w, 0, r).Within(foot)
  {
  }

  lemma TailHead(v: View, k: nat, w: View)
    requires k <= |v.chains| && w.chains == v.chains[k..]
    ensures w.Head() == if k < |v.chains| then v.chains[k] else null
  {
  }

  method LinkFront(tmp: Chain, chain: Chain?, ghost w: View, ghost foot: set<object>, ghost b: seq<byte>)
    requires |w.chains| == |w.bytes| && w.Within(foot) && w.OnHeap(foot) && tmp !in w.chains && tmp.Holds(b)
    modifies tmp`next
    ensures w.OnHeap(foot) && tmp.Holds(b) && tmp.next == chain
  {
    hide Chain.Holds;
    tmp.next := chain;
  }

  /**
   The gathering loop of evbuffer_pullup: read `size` bytes from chain number `k0` on, going
   over every chain that is used up entirely, and note which marked chains are gone.
   */
  method Gather(buf: Evbuffer, start: Chain?, size: nat, ghost k0: nat)
      returns (chain: Chain?, r: nat, data: seq<byte>, lostLast: bool, lostPred: bool, ghost k: nat)
    requires buf.Shape() && k0 <= |buf.view.chains| == |buf.view.bytes|
    requires start == if k0 < |buf.view.chains| then buf.view.chains[k0] else null
    requires |Flatten(buf.view.bytes[..k0])| + size <= |Flatten(buf.view.bytes)|
    ensures k0 <= k <= |buf.view.chains|
    ensures chain == if k < |buf.view.chains| then buf.view.chains[k] else null
    ensures if k < |buf.view.chains| then r < |buf.view.bytes[k]| == chain.off else r == 0
    ensures |Flatten(buf.view.bytes[..k0])| + size == |Flatten(buf.view.bytes[..k])| + r
    ensures data == Flatten(buf.view.bytes)[|Flatten(buf.view.bytes[..k0])|..|Flatten(buf.view.bytes[..k0])| + size]
    ensures lostLast <==> k0 <= buf.view.lwd < k
    ensures lostPred <==> k0 + 1 <= buf.view.lwd <= k
  {
    hide *;
    ShapeParts(buf);
    ghost var v, p0 := buf.view, |Flatten(buf.view.bytes[..k0])|;
    ghost var s := Flatten(v.bytes);
    FlattenAll(v.bytes);
    chain, r, data, lostLast, lostPred, k := start, size, [], false, false, k0;
    var lastWithData := buf.LastWithData();
    assert s[p0..p0] == [];
    FirstHop(buf, k, chain);
    while chain != null && r >= chain.off
      invariant k0 <= k <= |v.chains| && chain == if k < |v.chains| then v.chains[k] else null
      invariant chain != null ==> chain.off == |v.bytes[k]|
      invariant p0 + size == |Flatten(v.bytes[..k])| + r && |data| + r == size
      invariant data == s[p0..p0 + |data|]
      invariant lostLast <==> k0 <= v.lwd < k
      invariant lostPred <==> k0 + 1 <= v.lwd <= k
      decreases |v.chains| - k
    {
      var next, part := Visit(buf, chain, k);
      SliceJoin(s, p0, p0 + |data|, p0 + |data| + chain.off);
      data := data + part;
      r := r - chain.off;
      if chain == lastWithData {
        lostLast := true;
      }
      if chain == buf.lastWithDataPred {
        lostPred := true;
      }
      chain := next;
      k := k + 1;
    }
    if chain != null {
      var part := CopyPart(buf, chain, k, 0, r, |Flatten(v.bytes[..k])|);
      SliceJoin(s, p0, p0 + |data|, p0 + |data| + r);
      data := data + part;
    }
  }

  /** One step of the gathering loop: the bytes of chain number `k`, and the next chain. */
  method Visit(buf: Evbuffer, chain: Chain, ghost k: nat) returns (next: Chain?, part: seq<byte>)
    requires buf.Shape() && k < |buf.view.chains| == |buf.view.bytes| && chain == buf.view.chains[k]
    ensures next == if k + 1 < |buf.view.chains| then buf.view.chains[k + 1] else null
    ensures next != null ==> next.off == |buf.view.bytes[k + 1]|
    ensures chain.off == |buf.view.bytes[k]| == |part|
    ensures var p := |Flatten(buf.view.bytes[..k])|;
      && p + |part| <= |Flatten(buf.view.bytes)| && part == Flatten(buf.view.bytes)[p..p + |part|]
      && |Flatten(buf.view.bytes[..k + 1])| == p + |part|
    ensures buf.view.lwd < |buf.view.chains|
    ensures chain == buf.view.chains[buf.view.lwd] <==> k == buf.view.lwd
    ensures chain == buf.lastWithDataPred <==> k + 1 == buf.view.lwd
  {
    hide Evbuffer.Shape, Flatten, Chain.Holds;
    FirstHop(buf, k, chain);
    SameChain(buf, k);
    part := CopyPart(buf, chain, k, 0, chain.off, |Flatten(buf.view.bytes[..k])|);
    next := chain.next;
    FirstHop(buf, k + 1, next);
  }

  /** Which marked chain number `k` is. */
  lemma SameChain(buf: Evbuffer, k: nat)
    requires buf.Shape() && k < |buf.view.chains|
    ensures buf.view.lwd < |buf.view.chains|
    ensures buf.view.chains[k] == buf.view.chains[buf.view.lwd] <==> k == buf.view.lwd
    ensures buf.view.chains[k] == buf.lastWithDataPred <==> k + 1 == buf.view.lwd
  {
  }

  lemma PullParts(buf: Evbuffer, tmp: Chain, k: nat)
    requires buf.Shape() && k <= |buf.view.chains|
    requires (k > 0 && tmp == buf.view.chains[0]) || (tmp !in buf.foot && tmp.buffer !in buf.foot)
    ensures forall i :: k <= i < |buf.view.chains| ==>
      buf.view.chains[i] != tmp && buf.view.chains[i].buffer != tmp.buffer
  {
  }

  /** Where last_with_datap is after pulling up: the branches at the end of evbuffer_pullup. */
  function NewMark(lostLast: bool, lostPred: bool, tmp: Chain, nextOff: nat, oldPred: Chain?): Chain? {
    if lostLast then null
    else if lostPred then (if nextOff > 0 then tmp else null)
    else oldPred
  }

  /** The end of evbuffer_pullup: `tmp` holds the pulled bytes and becomes the first chain. */
  method FinishPull(buf: Evbuffer, tmp: Chain, chain: Chain?, r: nat, lostLast: bool, lostPred: bool,
                    ghost k0: nat, ghost k: nat, ghost b: seq<byte>)
    requires buf !in buf.foot && buf.view.Ok() && buf.view.Distinct() && buf.view.Within(buf.foot)
    requires buf.view.lwd < |buf.view.chains| && k <= |buf.view.chains| == |buf.view.bytes|
    requires buf.last == buf.view.Pred(|buf.view.chains|) && buf.lastWithDataPred == buf.view.Pred(buf.view.lwd)
    requires buf.totalLen == |Flatten(buf.view.bytes)|
    requires chain == if k < |buf.view.chains| then buf.view.chains[k] else null
    requires if k < |buf.view.chains| then r < |buf.view.bytes[k]| == chain.off else r == 0
    requires Tail(buf.view, k).Within(buf.foot) && Tail(buf.view, k).Distinct() && Tail(buf.view, k).OnHeap(buf.foot)
    requires tmp.Holds(b) && |b| == |Flatten(buf.view.bytes[..k])| + r <= |Flatten(buf.view.bytes)|
    requires b == Flatten(buf.view.bytes)[..|b|]
    requires if tmp in buf.foot then k > 0 && k0 == 1 && tmp == buf.view.chains[0] else k0 == 0 && tmp.buffer !in buf.foot
    requires forall i :: k <= i < |buf.view.chains| ==> buf.view.chains[i] != tmp && buf.view.chains[i].buffer != tmp.buffer
    requires lostLast <==> k0 <= buf.view.lwd < k
    requires lostPred <==> k0 + 1 <= buf.view.lwd <= k
    requires k0 <= buf.view.lwd && (k0 == 0 ==> 0 < buf.view.lwd)
    modifies buf`first, buf`last, buf`lastWithDataPred, buf`totalLen, buf`view, buf`foot, tmp`next, buf.foot
    ensures buf.Shape() && buf.foot == old(buf.foot) + {tmp, tmp.buffer} && buf.Contents() == Flatten(old(buf.view.bytes))
    ensures buf.first == tmp && tmp.Holds(b)
  {
    hide Evbuffer.Shape, Evbuffer.ShapeButLast, Evbuffer.Contents, View.Ok, View.Within, View.OnHeap, Chain.Holds;
    hide Flatten, Pulled, View.Distinct, Tail;
    ghost var v, foot := buf.view, buf.foot;
    PulledOk(v, foot, tmp, k, r, b);
    PullNodes(tmp, chain, r, v, foot, k, b);
    buf.first := tmp;
    var mark := NewMark(lostLast, lostPred, tmp, if chain == null then 0 else chain.off, buf.lastWithDataPred);
    SetHeader(buf, if chain == null then tmp else buf.last, mark, buf.totalLen, Pulled(v, tmp, k, r, b),
              foot + {tmp, tmp.buffer});
    ShapeFrom(buf);
  }

  /** What evbuffer_pullup answers: nothing, or a place in memory. */
  datatype Region = Nowhere | At(memory: array<byte>, at: nat)

  method GrowFirst(c: Chain, ghost v: View, ghost foot: set<object>, data: seq<byte>)
    requires |v.bytes| == |v.chains| && v.Distinct() && v.Within(foot) && v.OnHeap(foot)
    requires v.chains != [] && v.chains[0] == c && c.misalign + c.off + |data| <= c.buffer.Length
    requires Tail(v, 1).Within(foot) && Tail(v, 1).OnHeap(foot)
    modifies c`off, c.buffer
    ensures Tail(v, 1).OnHeap(foot) && c.Holds(v.bytes[0] + data)
  {
    hide Chain.Holds;
    AppendBytes(c, v.bytes[0], data);
  }

  /** Pulling into the first chain, which has room. */
  method PullIntoFirst(buf: Evbuffer, size: nat)
    requires buf.Shape() && buf.first != null && buf.view.chains != []
    requires buf.first.off < size <= |buf.Contents()|
    requires size <= buf.first.buffer.Length - buf.first.misalign
    modifies buf`first, buf`last, buf`lastWithDataPred, buf`totalLen, buf`view, buf`foot, buf.foot
    ensures buf.Shape() && fresh(buf.foot - old(buf.foot)) && buf.Contents() == old(buf.Contents())
    ensures buf.first == old(buf.first) && buf.first.Holds(buf.Contents()[..size])
  {
    hide Evbuffer.Shape, Evbuffer.ShapeButLast, Evbuffer.Contents, View.Ok, View.Within, View.OnHeap, Chain.Holds;
    hide Flatten, Tail, View.Distinct, View.Pred;
    ShapeParts(buf);
    FirstParts(buf);
    NodeAt(buf, 0);
    var tmp := buf.first;
    ghost var v, foot, s := buf.view, buf.foot, buf.Contents();
    var chain, r, data, lostLast, lostPred, k := Gather(buf, tmp.next, size - tmp.off, 1);
    PullParts(buf, tmp, k);
    TailFurther(v, foot, 0, 1);
    WholeTail(buf);
    GrowFirst(tmp, v, foot, data);
    TailFurther(v, foot, 1, k);
    ghost var b := v.bytes[0] + data;
    assert b == s[..size];
    FinishPull(buf, tmp, chain, r, lostLast, lostPred, 1, k, b);
    assert foot + {tmp, tmp.buffer} == foot;
  }

  /** Pulling into a new chain. */
  method PullIntoNew(buf: Evbuffer, size: nat)
    requires buf.Shape() && buf.first != null && buf.view.chains != []
    requires buf.first.off < size <= |buf.Contents()| && size <= MAX_ALLOC
    modifies buf`first, buf`last, buf`lastWithDataPred, buf`totalLen, buf`view, buf`foot, buf.foot
    ensures buf.Shape() && fresh(buf.foot - old(buf.foot)) && buf.Contents() == old(buf.Contents())
    ensures buf.first != null && buf.first.Holds(buf.Contents()[..size])
  {
    hide Evbuffer.Shape, Evbuffer.ShapeButLast, Evbuffer.Contents, View.Ok, View.Within, View.OnHeap, Chain.Holds;
    hide Flatten, Tail, View.Distinct, View.Pred;
    var tmp := ChainNew(size);
    ShapeParts(buf);
    FirstParts(buf);
    NodeAt(buf, 0);
    ghost var v, foot, s := buf.view, buf.foot, buf.Contents();
    var chain, r, data, lostLast, lostPred, k := Gather(buf, buf.first, size, 0);
    PullParts(buf, tmp, k);
    TailFurther(v, foot, 0, k);
    WholeTail(buf);
    AppendBytes(tmp, [], data);
    assert [] + data == s[..size];
    FinishPull(buf, tmp, chain, r, lostLast, lostPred, 0, k, s[..size]);
  }

  lemma WholeTail(buf: Evbuffer)
    requires buf.Shape()
    ensures |buf.view.chains| == |buf.view.bytes| && buf.view.Distinct() && buf.view.Within(buf.foot)
    ensures Tail(buf.view, 0).Within(buf.foot) && Tail(buf.view, 0).OnHeap(buf.foot)
  {
    assert Tail(buf.view, 0).chains == buf.view.chains && Tail(buf.view, 0).bytes == buf.view.bytes;
  }

  /** A first chain that does not hold all the data is followed by the last one with data. */
  lemma FirstParts(buf: Evbuffer)
    requires buf.Shape() && buf.first != null && buf.first.off < |buf.Contents()|
    ensures 0 < buf.view.lwd < |buf.view.chains| && buf.first == buf.view.chains[0]
    ensures buf.view.Distinct() && buf.first in buf.foot && buf.first.buffer in buf.foot
    ensures buf.last == buf.view.Pred(|buf.view.chains|) && buf.lastWithDataPred == buf.view.Pred(buf.view.lwd)
    ensures |Flatten(buf.view.bytes[..0])| == 0 && |Flatten(buf.view.bytes[..1])| == |buf.view.bytes[0]|
    ensures Flatten(buf.view.bytes)[..|buf.view.bytes[0]|] == buf.view.bytes[0]
  {
    FlattenStep(buf.view.bytes, 0);
    if buf.view.lwd == 0 {
      FlattenEmpties(buf.view.bytes[1..]);
    }
  }

  /** evbuffer_pullup */
  method Pullup(buf: Evbuffer, size: int) returns (result: Region)
    requires buf.Valid()
    modifies buf`first, buf`last, buf`lastWithDataPred, buf`totalLen, buf`view, buf`foot, buf.foot
    ensures buf.Valid() && fresh(buf.foot - old(buf.foot)) && buf.Contents() == old(buf.Contents())
    ensures var want := if size < 0 then |buf.Contents()| else size;
      && (result.Nowhere? <==> want == 0 || want > |buf.Contents()| || want > MAX_ALLOC)
      && (result.At? ==>
          && buf.first != null && result.memory == buf.first.buffer && result.at == buf.first.misalign
          && want <= buf.first.off && result.at + want <= result.memory.Length
          && result.memory[result.at..result.at + want] == buf.Contents()[..want])
  {
    hide Evbuffer.Valid, Evbuffer.Shape, Evbuffer.Contents, Evbuffer.Reported, Chain.Holds, Flatten;
    ValidParts(buf);
    var want := if size < 0 then buf.totalLen else size;
    if want == 0 || want > buf.totalLen {
      return Nowhere;
    }
    ShapeParts(buf);
    SomeFirst(buf);
    if buf.first.off >= want {
      ReadyFirst(buf, want);
      return At(buf.first.buffer, buf.first.misalign);
    }
    if buf.first.buffer.Length - buf.first.misalign >= want {
      PullIntoFirst(buf, want);
    } else if want > MAX_ALLOC {
      return Nowhere;
    } else {
      PullIntoNew(buf, want);
    }
    ShapeParts(buf);
    ValidFrom(buf);
    HoldsWindow(buf.first, buf.Contents()[..want]);
    return At(buf.first.buffer, buf.first.misalign);
  }

  lemma SomeFirst(buf: Evbuffer)
    requires buf.Shape() && buf.Contents() != []
    ensures buf.first != null && buf.view.chains != [] && buf.first.buffer.Length <= MAX_ALLOC
    ensures buf.first.misalign + buf.first.off <= buf.first.buffer.Length
  {
    HasChain(buf.view);
  }

  lemma HasChain(v: View)
    requires Flatten(v.bytes) != []
    ensures v.bytes != []
  {
  }

  lemma ReadyFirst(buf: Evbuffer, want: nat)
    requires buf.Shape() && buf.first != null && want <= buf.first.off
    ensures buf.first.misalign + buf.first.off <= buf.first.buffer.Length && want <= |buf.Contents()|
    ensures buf.first.buffer[buf.first.misalign..buf.first.misalign + want] == buf.Contents()[..want]
  {
    var b := buf.view.bytes[0];
    NodeAt(buf, 0);
    HoldsWindow(buf.first, b);
    assert buf.Contents()[..|b|] == b;
    assert buf.first.buffer[buf.first.misalign..buf.first.misalign + want] == b[..want];
  }

  lemma HoldsWindow(c: Chain, b: seq<byte>)
    requires c.Holds(b)
    ensures |b| == c.off && c.misalign + c.off <= c.buffer.Length && c.buffer[c.misalign..c.misalign + c.off] == b
  {
  }
}
