/**
 Moving bytes between evbuffers by relinking chains: evbuffer_add_buffer,
 evbuffer_prepend_buffer and evbuffer_remove_buffer.
 */
module EvbufferMove {
  import opened Bytes
  import opened EvbufferCore
  import opened EvbufferDrain

  /** Two buffers that share no memory. */
  ghost predicate Apart(a: Evbuffer, b: Evbuffer)
    reads a`foot, b`foot
  {
    a != b && a.foot !! b.foot && a !in b.foot && b !in a.foot
  }

  /** The chains of `a`, then those of `b`, when `b` has data. */
  ghost function Joined(a: View, b: View): View {
    View(a.chains + b.chains, a.bytes + b.bytes, |a.chains| + b.lwd)
  }

  /** In a list with data, the last-with-data chain has data. */
  lemma HasData(v: View)
    requires v.Ok() && Flatten(v.bytes) != []
    ensures v.lwd < |v.bytes| == |v.chains| && v.bytes[v.lwd] != []
  {
    if v.bytes == [] || v.bytes[v.lwd] == [] {
      FlattenEmpties(v.bytes);
    }
  }

  lemma JoinedDistinct(a: View, fa: set<object>, b: View, fb: set<object>)
    requires a.Ok() && a.Within(fa) && b.Ok() && b.Within(fb) && fa !! fb
    ensures Joined(a, b).Distinct() && Joined(a, b).Within(fa + fb)
  {
  }

  lemma JoinedOk(a: View, fa: set<object>, b: View, fb: set<object>)
    requires a.Ok() && a.Within(fa) && b.Ok() && b.Within(fb) && fa !! fb && Flatten(b.bytes) != []
    ensures |b.bytes| == |b.chains| > 0 && |a.bytes| == |a.chains| && b.lwd < |b.chains|
    ensures var j := Joined(a, b);
      && |j.bytes| == |j.chains| && j.Ok() && j.Within(fa + fb)
      && Flatten(j.bytes) == Flatten(a.bytes) + Flatten(b.bytes)
      && j.Head() == (if a.chains == [] then b.Head() else a.Head())
      && j.Pred(|j.chains|) == b.Pred(|b.chains|)
      && j.Pred(j.lwd) == if b.lwd == 0 then a.Pred(|a.chains|) else b.Pred(b.lwd)
  {
    hide Flatten, View.Distinct, View.Within;
    HasData(b);
    FlattenAppend(a.bytes, b.bytes);
    JoinedDistinct(a, fa, b, fb);
  }

  /** Storing b's first chain in the slot where a's list ends links the two lists. */
  method JoinNodes(dst: Evbuffer, pred: Chain?, head: Chain, ghost a: View, ghost fa: set<object>, ghost b: View, ghost fb: set<object>)
    requires a.Ok() && a.Within(fa) && b.Ok() && b.Within(fb) && fa !! fb && dst !in fa && dst !in fb
    requires a.OnHeap(fa) && b.OnHeap(fb) && pred == a.Pred(|a.chains|) && head == b.Head()
    requires var j := Joined(a, b); |j.bytes| == |j.chains| && j.Within(fa + fb)
    modifies dst`first, fa
    ensures Joined(a, b).OnHeap(fa + fb)
    ensures dst.first == if a.chains == [] then head else old(dst.first)
  {
    hide Chain.Holds;
    SetSlot(dst, pred, head);
  }

  /** COPY_CHAIN and APPEND_CHAIN, once dst is trimmed or emptied, and ZERO_CHAIN for src. */
  method AppendChains(dst: Evbuffer, src: Evbuffer, pred: Chain?)
    requires dst.ShapeButLast() && src.Shape() && Apart(dst, src) && src.Contents() != []
    requires pred == dst.view.Pred(|dst.view.chains|)
    modifies dst`first, dst`last, dst`lastWithDataPred, dst`totalLen, dst`view, dst`foot, dst.foot
    modifies src`first, src`last, src`lastWithDataPred, src`totalLen, src`view, src`foot
    ensures dst.Shape() && src.Shape() && Apart(dst, src)
    ensures dst.foot == old(dst.foot + src.foot) && src.foot == {}
    ensures dst.Contents() == old(dst.Contents() + src.Contents()) && src.Contents() == []
  {
    hide Evbuffer.Shape, Evbuffer.ShapeButLast, Evbuffer.Contents, View.Ok, View.Within, View.OnHeap, Chain.Holds;
    hide Flatten, Joined, View.Head, View.Pred;
    ShapeParts(dst);
    ShapeParts(src);
    JoinedOk(dst.view, dst.foot, src.view, src.foot);
    SrcHead(src);
    JoinNodes(dst, pred, src.first, dst.view, dst.foot, src.view, src.foot);
    SetHeader(dst, src.last, if src.lastWithDataPred == null then pred else src.lastWithDataPred,
              dst.totalLen + src.totalLen, Joined(dst.view, src.view), dst.foot + src.foot);
    ShapeFrom(dst);
    src.first := null;
    SetHeader(src, null, null, 0, View([], [], 0), {});
    ZeroOk(src);
    ShapeFrom(src);
  }

  lemma SrcHead(src: Evbuffer)
    requires src.Shape() && src.Contents() != []
    ensures src.first != null && src.first == src.view.Head()
    ensures src.lastWithDataPred == null <==> src.view.lwd == 0
  {
    HasData(src.view);
  }

  /** Account for the bytes that were moved, and tell the callbacks of both buffers. */
  method CountMoved(outbuf: Evbuffer, inbuf: Evbuffer, n: nat)
    requires outbuf.Shape() && inbuf.Shape() && Apart(outbuf, inbuf) && outbuf.Reported() && inbuf.Reported()
    requires outbuf.Uncounted() == n && inbuf.Uncounted() + n == 0
    modifies outbuf`nAddForCb, outbuf`nDelForCb, outbuf`reports, outbuf`early, outbuf`cbBase
    modifies inbuf`nAddForCb, inbuf`nDelForCb, inbuf`reports, inbuf`early, inbuf`cbBase
    ensures outbuf.Valid() && inbuf.Valid() && outbuf.Told(n, 0) && inbuf.Told(0, n)
  {
    hide Evbuffer.Valid, Evbuffer.Shape, Evbuffer.Reported;
    ShapeParts(inbuf);
    ShapeParts(outbuf);
    Count(inbuf, 0, n);
    Count(outbuf, n, 0);
  }

  /** evbuffer_add_buffer */
  method AddBuffer(outbuf: Evbuffer, inbuf: Evbuffer) returns (result: int)
    requires outbuf.Valid() && inbuf.Valid() && (outbuf == inbuf || Apart(outbuf, inbuf))
    modifies outbuf, outbuf.foot, inbuf, inbuf.foot
    ensures outbuf.Valid() && inbuf.Valid() && (outbuf == inbuf || Apart(outbuf, inbuf))
    ensures outbuf.foot + inbuf.foot == old(outbuf.foot + inbuf.foot)
    ensures outbuf.freezeStart == old(outbuf.freezeStart) && outbuf.freezeEnd == old(outbuf.freezeEnd)
    ensures inbuf.freezeStart == old(inbuf.freezeStart) && inbuf.freezeEnd == old(inbuf.freezeEnd)
    ensures result == if old(inbuf.Contents() == [] || outbuf == inbuf || !(outbuf.freezeEnd || inbuf.freezeStart))
            then 0 else -1
    ensures if result == 0 && outbuf != inbuf
            then outbuf.Contents() == old(outbuf.Contents() + inbuf.Contents()) && inbuf.Contents() == []
            else outbuf.Contents() == old(outbuf.Contents()) && inbuf.Contents() == old(inbuf.Contents())
    ensures if result == 0 && outbuf != inbuf && old(inbuf.Contents()) != []
            then outbuf.Told(|old(inbuf.Contents())|, 0) && inbuf.Told(0, |old(inbuf.Contents())|)
            else outbuf.Silent() && inbuf.Silent()
  {
    hide Evbuffer.Valid, Evbuffer.Shape, Evbuffer.ShapeButLast, Evbuffer.Contents, Evbuffer.Reported;
    hide View.Ok, View.Within, View.OnHeap, Chain.Holds, Flatten, Prefix, Kept;
    ValidParts(outbuf);
    ValidParts(inbuf);
    var inTotal := inbuf.totalLen;
    if inTotal == 0 || outbuf == inbuf {
      assert inTotal == 0 ==> outbuf.Contents() + inbuf.Contents() == outbuf.Contents();
      return 0;
    }
    if outbuf.freezeEnd || inbuf.freezeStart {
      return -1;
    }
    MoveAll(outbuf, inbuf);
    ShapeParts(inbuf);
    ShapeParts(outbuf);
    CountMoved(outbuf, inbuf, inTotal);
    return 0;
  }

  method MoveAll(outbuf: Evbuffer, inbuf: Evbuffer)
    requires outbuf.Shape() && inbuf.Shape() && Apart(outbuf, inbuf) && inbuf.Contents() != []
    modifies outbuf`first, outbuf`last, outbuf`lastWithDataPred, outbuf`totalLen, outbuf`view, outbuf`foot, outbuf.foot
    modifies inbuf`first, inbuf`last, inbuf`lastWithDataPred, inbuf`totalLen, inbuf`view, inbuf`foot
    ensures outbuf.Shape() && inbuf.Shape() && Apart(outbuf, inbuf)
    ensures outbuf.foot == old(outbuf.foot + inbuf.foot) && inbuf.foot == {}
    ensures outbuf.Contents() == old(outbuf.Contents() + inbuf.Contents()) && inbuf.Contents() == []
  {
    hide Evbuffer.Shape, Evbuffer.ShapeButLast, Evbuffer.Contents, View.Ok, View.Within, View.OnHeap, Chain.Holds;
    hide Flatten, Prefix, Kept;
    ShapeParts(outbuf);
    ShapeParts(inbuf);
    if outbuf.totalLen == 0 {
      ZeroChain(outbuf);
      ShapeParts(outbuf);
      AppendChains(outbuf, inbuf, null);
    } else {
      var pred := FreeTrailingEmptyChains(outbuf);
      AppendChains(outbuf, inbuf, pred);
    }
  }

  /** PREPEND_CHAIN, for a dst with data, and ZERO_CHAIN for src. */
  method PrependChains(dst: Evbuffer, src: Evbuffer)
    requires dst.Shape() && src.Shape() && Apart(src, dst) && src.Contents() != [] && dst.Contents() != []
    modifies dst`first, dst`last, dst`lastWithDataPred, dst`totalLen, dst`view, dst`foot
    modifies src`first, src`last, src`lastWithDataPred, src`totalLen, src`view, src`foot, src.foot
    ensures dst.Shape() && src.Shape() && Apart(dst, src)
    ensures dst.foot == old(dst.foot + src.foot) && src.foot == {}
    ensures dst.Contents() == old(src.Contents() + dst.Contents()) && src.Contents() == []
  {
    hide Evbuffer.Shape, Evbuffer.ShapeButLast, Evbuffer.Contents, View.Ok, View.Within, View.OnHeap, Chain.Holds;
    hide Flatten, Joined, View.Head, View.Pred;
    ShapeParts(dst);
    ShapeParts(src);
    JoinedOk(src.view, src.foot, dst.view, dst.foot);
    SrcHead(src);
    SrcHead(dst);
    ghost var joined := Joined(src.view, dst.view);
    JoinNodes(src, src.last, dst.first, src.view, src.foot, dst.view, dst.foot);
    dst.first := src.first;
    SetHeader(dst, dst.last, if dst.lastWithDataPred == null then src.last else dst.lastWithDataPred,
              dst.totalLen + src.totalLen, joined, dst.foot + src.foot);
    assert dst.foot == src.foot + old(dst.foot);
    ShapeFrom(dst);
    src.first := null;
    SetHeader(src, null, null, 0, View([], [], 0), {});
    ZeroOk(src);
    ShapeFrom(src);
  }

  /** evbuffer_prepend_buffer */
  method PrependBuffer(outbuf: Evbuffer, inbuf: Evbuffer) returns (result: int)
    requires outbuf.Valid() && inbuf.Valid() && (outbuf == inbuf || Apart(outbuf, inbuf))
    modifies outbuf, outbuf.foot, inbuf, inbuf.foot
    ensures outbuf.Valid() && inbuf.Valid() && (outbuf == inbuf || Apart(outbuf, inbuf))
    ensures outbuf.foot + inbuf.foot == old(outbuf.foot + inbuf.foot)
    ensures outbuf.freezeStart == old(outbuf.freezeStart) && outbuf.freezeEnd == old(outbuf.freezeEnd)
    ensures inbuf.freezeStart == old(inbuf.freezeStart) && inbuf.freezeEnd == old(inbuf.freezeEnd)
    ensures result == if old(inbuf.Contents() == [] || outbuf == inbuf || !(outbuf.freezeStart || inbuf.freezeStart))
            then 0 else -1
    ensures if result == 0 && outbuf != inbuf
            then outbuf.Contents() == old(inbuf.Contents() + outbuf.Contents()) && inbuf.Contents() == []
            else outbuf.Contents() == old(outbuf.Contents()) && inbuf.Contents() == old(inbuf.Contents())
    ensures if result == 0 && outbuf != inbuf && old(inbuf.Contents()) != []
            then outbuf.Told(|old(inbuf.Contents())|, 0) && inbuf.Told(0, |old(inbuf.Contents())|)
            else outbuf.Silent() && inbuf.Silent()
  {
    hide Evbuffer.Valid, Evbuffer.Shape, Evbuffer.ShapeButLast, Evbuffer.Contents, Evbuffer.Reported;
    hide View.Ok, View.Within, View.OnHeap, Chain.Holds, Flatten, Prefix, Kept;
    ValidParts(outbuf);
    ValidParts(inbuf);
    var inTotal := inbuf.totalLen;
    if inTotal == 0 || outbuf == inbuf {
      assert inTotal == 0 ==> inbuf.Contents() + outbuf.Contents() == outbuf.Contents();
      return 0;
    }
    if outbuf.freezeStart || inbuf.freezeStart {
      return -1;
    }
    PutAllFirst(outbuf, inbuf);
    ShapeParts(inbuf);
    ShapeParts(outbuf);
    CountMoved(outbuf, inbuf, inTotal);
    return 0;
  }

  method PutAllFirst(outbuf: Evbuffer, inbuf: Evbuffer)
    requires outbuf.Shape() && inbuf.Shape() && Apart(outbuf, inbuf) && inbuf.Contents() != []
    modifies outbuf`first, outbuf`last, outbuf`lastWithDataPred, outbuf`totalLen, outbuf`view, outbuf`foot, outbuf.foot
    modifies inbuf`first, inbuf`last, inbuf`lastWithDataPred, inbuf`totalLen, inbuf`view, inbuf`foot, inbuf.foot
    ensures outbuf.Shape() && inbuf.Shape() && Apart(outbuf, inbuf)
    ensures outbuf.foot == old(outbuf.foot + inbuf.foot) && inbuf.foot == {}
    ensures outbuf.Contents() == old(inbuf.Contents() + outbuf.Contents()) && inbuf.Contents() == []
  {
    hide Evbuffer.Shape, Evbuffer.ShapeButLast, Evbuffer.Contents, View.Ok, View.Within, View.OnHeap, Chain.Holds;
    hide Flatten, Prefix, Kept;
    ShapeParts(outbuf);
    ShapeParts(inbuf);
    if outbuf.totalLen == 0 {
      ZeroChain(outbuf);
      ShapeParts(outbuf);
      AppendChains(outbuf, inbuf, null);
      assert old(inbuf.Contents()) + old(outbuf.Contents()) == [] + old(inbuf.Contents());
    } else {
      PrependChains(outbuf, inbuf);
    }
  }
}
