/**
 Making room at the end of an evbuffer: evbuffer_expand_singlechain, evbuffer_expand and
 evbuffer_expand_fast_.
 */
module EvbufferExpand {
  import opened Bytes
  import opened EvbufferCore
  import opened EvbufferAppend

  const MAX_TO_COPY_IN_EXPAND: nat := 4096

  /** The list with `tmp` in place of chain number `i`. */
  ghost function Replaced(view: View, i: nat, tmp: Chain): View
    requires i < |view.chains|
  {
    view.(chains := view.chains[i := tmp])
  }

  lemma ReplacedOk(view: View, foot: set<object>, i: nat, tmp: Chain)
    requires view.Ok() && view.Within(foot) && i < |view.chains| && i <= view.lwd
    requires tmp !in foot && tmp.buffer !in foot
    ensures var r := Replaced(view, i, tmp);
      && r.Ok() && r.Within(foot + {tmp, tmp.buffer})
      && r.Head() == (if i == 0 then tmp else view.Head())
      && r.Pred(|r.chains|) == (if i + 1 == |view.chains| then tmp else view.Pred(|view.chains|))
      && (i == view.lwd ==> r.Pred(r.lwd) == view.Pred(view.lwd))
  {
  }

  method ReplaceNode(buf: Evbuffer, pred: Chain?, chain: Chain, tmp: Chain, ghost v: View, ghost foot: set<object>, ghost i: nat)
    requires |v.bytes| == |v.chains| && v.Distinct() && v.Within(foot) && v.OnHeap(foot) && buf !in foot
    requires i < |v.chains| && chain == v.chains[i] && pred == v.Pred(i)
    requires tmp !in foot && tmp.buffer !in foot && tmp.Holds(v.bytes[i])
    requires Replaced(v, i, tmp).Within(foot + {tmp, tmp.buffer})
    modifies buf`first, foot, tmp`next
    ensures Replaced(v, i, tmp).OnHeap(foot + {tmp, tmp.buffer})
    ensures buf.first == if i == 0 then tmp else old(buf.first)
    ensures tmp.misalign == old(tmp.misalign) && tmp.off == old(tmp.off)
  {
    hide Chain.Holds;
    tmp.next := chain.next;
    SetSlot(buf, pred, tmp);
  }

  /** The resizing branch of evbuffer_expand_singlechain. */
  method Resize(buf: Evbuffer, chain: Chain, datlen: nat) returns (result: Chain?)
    requires buf.Shape() && buf.view.lwd < |buf.view.chains| && chain == buf.view.chains[buf.view.lwd]
    modifies buf`first, buf`last, buf`lastWithDataPred, buf`totalLen, buf`view, buf`foot, buf.foot
    ensures buf.Shape() && fresh(buf.foot - old(buf.foot)) && buf.Contents() == old(buf.Contents())
    ensures result == null <==> old(chain.off) + datlen > MAX_ALLOC
    ensures result != null ==>
      && buf.view.lwd < |buf.view.chains| && result == buf.view.chains[buf.view.lwd]
      && result.misalign + result.off + datlen <= result.buffer.Length
  {
    hide Evbuffer.Shape, Evbuffer.ShapeButLast, Evbuffer.Contents, View.Ok, View.Within, View.OnHeap, Chain.Holds;
    hide View.Distinct, View.Pred, View.Head;
    result := ChainNew(chain.off + datlen);
    if result != null {
      ShapeParts(buf);
      LwdParts(buf);
      ghost var v, foot, i := buf.view, buf.foot, buf.view.lwd;
      NodeAt(buf, i);
      CopyChain(result, chain, v.bytes[i]);
      ReplacedOk(v, foot, i, result);
      ReplaceNode(buf, buf.lastWithDataPred, chain, result, v, foot, i);
      SetHeader(buf, if buf.last == chain then result else buf.last, buf.lastWithDataPred, buf.totalLen,
                Replaced(v, i, result), foot + {result, result.buffer});
      ShapeFrom(buf);
    }
  }

  method CopyChain(tmp: Chain, chain: Chain, ghost b: seq<byte>)
    requires tmp.Holds([]) && tmp.misalign == 0 && chain.Holds(b) && |b| <= tmp.buffer.Length
    requires tmp != chain && tmp.buffer != chain.buffer
    modifies tmp`off, tmp.buffer
    ensures tmp.Holds(b)
  {
    AppendBytes(tmp, [], chain.buffer[chain.misalign..chain.misalign + chain.off]);
    assert [] + b == b;
  }

  lemma LwdParts(buf: Evbuffer)
    requires buf.Shape() && buf.view.chains != []
    ensures buf.view.lwd < |buf.view.chains| && buf.view.Distinct()
    ensures buf.last == buf.view.chains[buf.view.lwd] <==> buf.view.lwd + 1 == |buf.view.chains|
    ensures buf.lastWithDataPred == buf.view.Pred(buf.view.lwd)
  {
  }

  /** evbuffer_chain_insert_new */
  method ChainInsertNew(buf: Evbuffer, datlen: nat) returns (result: Chain?)
    requires buf.Shape()
    modifies buf`first, buf`last, buf`lastWithDataPred, buf`totalLen, buf`view, buf`foot, buf.foot
    ensures buf.Shape() && fresh(buf.foot - old(buf.foot)) && buf.Contents() == old(buf.Contents())
    ensures result == null <==> datlen > MAX_ALLOC
    ensures result != null ==>
      && 0 < |buf.view.chains| && result == buf.view.chains[|buf.view.chains| - 1] && result.off == 0
      && result.misalign == 0 && datlen <= result.buffer.Length && 0 < result.buffer.Length
  {
    hide Evbuffer.Shape, Evbuffer.ShapeButLast, Evbuffer.Contents, View.Ok, View.Within, View.OnHeap, Chain.Holds;
    hide Prefix, Kept;
    result := ChainNew(datlen);
    if result != null {
      EmptyChain(result);
      ghost var s := buf.Contents();
      ChainInsert(buf, result, []);
      assert s + [] == s;
    }
  }

  lemma EmptyChain(c: Chain)
    requires c.Holds([])
    ensures c.off == 0 && 0 < c.buffer.Length
  {
  }

  /** The chain found by evbuffer_expand_singlechain is one new bytes may be put in, with room for `datlen` bytes. */
  ghost predicate RoomAt(buf: Evbuffer, c: Chain, datlen: nat)
    reads buf, c
  {
    && (exists i :: buf.view.lwd <= i < |buf.view.chains| && buf.view.chains[i] == c)
    && c.misalign + c.off + datlen <= c.buffer.Length
  }

  /** Whether resizing a chain is affordable and worthwhile. */
  predicate WorthResizing(c: Chain, datlen: nat)
    requires c.misalign + c.off <= c.buffer.Length
    reads c`misalign, c`off
  {
    !(c.SpaceLen() < c.buffer.Length / 8 || c.off > MAX_TO_COPY_IN_EXPAND || datlen + c.off >= CHAIN_MAX)
  }

  /** evbuffer_expand_singlechain */
  method ExpandSinglechain(buf: Evbuffer, datlen: nat) returns (result: Chain?)
    requires buf.Shape()
    modifies buf`first, buf`last, buf`lastWithDataPred, buf`totalLen, buf`view, buf`foot, buf.foot
    ensures buf.Shape() && fresh(buf.foot - old(buf.foot)) && buf.Contents() == old(buf.Contents())
    ensures datlen > MAX_ALLOC ==> result == null
    ensures datlen <= MAX_ALLOC - MAX_TO_COPY_IN_EXPAND ==> result != null
    ensures result != null ==> RoomAt(buf, result, datlen)
  {
    hide Evbuffer.Shape, Evbuffer.ShapeButLast, Evbuffer.Contents, View.Ok, View.Within, View.OnHeap, Chain.Holds;
    hide View.Distinct, View.Pred, View.Head;
    ShapeParts(buf);
    var chain := buf.LastWithData();
    ghost var i := buf.view.lwd;
    if chain != null {
      NodeAt(buf, i);
      if chain.SpaceLen() == 0 {
        chain := chain.next;
        i := i + 1;
      }
    }
    if chain == null {
      result := InsertRoom(buf, datlen);
      return;
    }
    NodeAt(buf, i);
    if chain.SpaceLen() >= datlen {
      return chain;
    }
    if chain.off == 0 {
      result := InsertRoom(buf, datlen);
      return;
    }
    HasDataAt(buf, i);
    if ShouldRealign(chain, datlen) {
      Align(buf, chain, i);
      return chain;
    }
    if WorthResizing(chain, datlen) {
      result := Resize(buf, chain, datlen);
      return;
    }
    if chain.next != null {
      NodeAt(buf, i + 1);
      if chain.next.SpaceLen() >= datlen {
        return chain.next;
      }
    }
    result := InsertRoom(buf, datlen);
  }

  lemma HasDataAt(buf: Evbuffer, i: nat)
    requires buf.Shape() && buf.view.lwd <= i < |buf.view.chains| && buf.view.chains[i].off > 0
    ensures i == buf.view.lwd
  {
  }

  method InsertRoom(buf: Evbuffer, datlen: nat) returns (result: Chain?)
    requires buf.Shape()
    modifies buf`first, buf`last, buf`lastWithDataPred, buf`totalLen, buf`view, buf`foot, buf.foot
    ensures buf.Shape() && fresh(buf.foot - old(buf.foot)) && buf.Contents() == old(buf.Contents())
    ensures result == null <==> datlen > MAX_ALLOC
    ensures result != null ==> RoomAt(buf, result, datlen)
  {
    hide Evbuffer.Shape;
    result := ChainInsertNew(buf, datlen);
    ShapeParts(buf);
  }

  /** evbuffer_expand */
  method Expand(buf: Evbuffer, datlen: nat) returns (result: int)
    requires buf.Valid()
    modifies buf, buf.foot
    ensures buf.Valid() && fresh(buf.foot - old(buf.foot)) && buf.Contents() == old(buf.Contents())
    ensures buf.freezeStart == old(buf.freezeStart) && buf.freezeEnd == old(buf.freezeEnd)
    ensures buf.Silent()
    ensures result == 0 || (result == -1 && datlen > MAX_ALLOC - MAX_TO_COPY_IN_EXPAND)
    ensures datlen > MAX_ALLOC ==> result == -1
    ensures result == 0 ==> exists c: Chain :: RoomAt(buf, c, datlen)
  {
    hide Evbuffer.Valid, Evbuffer.Shape, Evbuffer.Contents, Evbuffer.Reported, RoomAt;
    ValidParts(buf);
    var chain := ExpandSinglechain(buf, datlen);
    ShapeParts(buf);
    ValidFrom(buf);
    result := if chain == null then -1 else 0;
  }
}
