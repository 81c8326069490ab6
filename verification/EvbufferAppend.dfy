/**
 Adding bytes at either end of an evbuffer: evbuffer_add and evbuffer_prepend.
 */
module EvbufferAppend {
  import opened Bytes
  import opened EvbufferCore

  const MAX_AUTO_SIZE: nat := 4096            // EVBUFFER_CHAIN_MAX_AUTO_SIZE
  const MAX_TO_REALIGN_IN_EXPAND: nat := 2048

  /** The list after `data` went in at the end of the data of chain number `i`. */
  ghost function Grown(view: View, i: nat, data: seq<byte>): View
    requires i < |view.bytes|
  {
    view.(bytes := view.bytes[i := view.bytes[i] + data],
          lwd := if data != [] && view.lwd < i then i else view.lwd)
  }

  lemma GrownOk(view: View, foot: set<object>, i: nat, data: seq<byte>)
    requires view.Ok() && view.Within(foot) && view.lwd <= i < |view.chains|
    ensures |view.chains| == |view.bytes|
    ensures var g := Grown(view, i, data);
      && g.Ok() && g.Within(foot) && Flatten(g.bytes) == Flatten(view.bytes) + data
      && g.Head() == view.Head() && g.Pred(|g.chains|) == view.Pred(|view.chains|)
      && g.Pred(g.lwd) == view.Pred(if data != [] then i else view.lwd)
  {
    FlattenExtend(view.bytes, i, data);
    hide Flatten;
  }

  /** memcpy to CHAIN_SPACE_PTR, then grow the window. */
  method AppendBytes(c: Chain, ghost b: seq<byte>, data: seq<byte>)
    requires c.Holds(b) && c.misalign + c.off + |data| <= c.buffer.Length
    modifies c`off, c.buffer
    ensures c.Holds(b + data)
  {
    Memcpy(c.buffer, c.misalign + c.off, data);
    c.off := c.off + |data|;
    var w := c.buffer[c.misalign..c.misalign + c.off];
    assert w[..|b|] == b;
    assert w[|b|..] == data;
  }

  method GrowNode(c: Chain, ghost v: View, ghost foot: set<object>, ghost i: nat, data: seq<byte>)
    requires v.Ok() && v.Within(foot) && v.OnHeap(foot)
    requires i < |v.chains| == |v.bytes| && v.chains[i] == c
    requires c.misalign + c.off + |data| <= c.buffer.Length
    requires Grown(v, i, data).Ok()
    modifies c`off, c.buffer
    ensures Grown(v, i, data).OnHeap(foot)
  {
    hide Chain.Holds;
    AppendBytes(c, v.bytes[i], data);
  }

  /** Put `data` after the data of chain number `i`, which is the last one with data or a later one. */
  method Grow(buf: Evbuffer, c: Chain, pred: Chain?, ghost i: nat, data: seq<byte>)
    requires buf.Shape() && buf.view.lwd <= i < |buf.view.chains| == |buf.view.bytes|
    requires c == buf.view.chains[i] && pred == buf.view.Pred(i)
    requires c.misalign + c.off + |data| <= c.buffer.Length
    modifies buf`lastWithDataPred, buf`totalLen, buf`view, buf`last, buf`foot, c`off, c.buffer
    ensures buf.Shape() && buf.view == old(Grown(buf.view, i, data)) && buf.foot == old(buf.foot)
    ensures buf.last == old(buf.last) && buf.totalLen == old(buf.totalLen) + |data|
    ensures buf.Contents() == old(buf.Contents()) + data
  {
    hide *;
    ShapeParts(buf);
    GrownOk(buf.view, buf.foot, i, data);
    ghost var g := Grown(buf.view, i, data);
    GrowNode(c, buf.view, buf.foot, i, data);
    SetHeader(buf, buf.last, if |data| > 0 then pred else buf.lastWithDataPred, buf.totalLen + |data|, g, buf.foot);
    ShapeFrom(buf);
  }

  /** evbuffer_chain_align: move the data to the start of the memory. */
  method AlignChain(c: Chain, ghost b: seq<byte>)
    requires c.Holds(b)
    modifies c`misalign, c.buffer
    ensures c.Holds(b) && c.misalign == 0
  {
    Memcpy(c.buffer, 0, c.buffer[c.misalign..c.misalign + c.off]);
    c.misalign := 0;
  }

  method AlignNode(c: Chain, ghost v: View, ghost foot: set<object>, ghost i: nat)
    requires v.Ok() && v.Within(foot) && v.OnHeap(foot)
    requires i < |v.chains| == |v.bytes| && v.chains[i] == c
    modifies c`misalign, c.buffer
    ensures v.OnHeap(foot) && c.misalign == 0 && c.off == old(c.off)
  {
    hide Chain.Holds;
    AlignChain(c, v.bytes[i]);
  }

  /** Realigning chain number `i` changes neither the list nor what it holds. */
  method Align(buf: Evbuffer, c: Chain, ghost i: nat)
    requires buf.Shape() && i < |buf.view.chains| && c == buf.view.chains[i]
    modifies c`misalign, c.buffer
    ensures buf.Shape() && c.misalign == 0 && c.off == old(c.off)
  {
    hide *;
    ShapeParts(buf);
    AlignNode(c, buf.view, buf.foot, i);
    ShapeFrom(buf);
  }

  /** evbuffer_chain_should_realign */
  predicate ShouldRealign(c: Chain, datlen: nat): (r: bool)
    reads c`off
    ensures r ==> c.off + datlen <= c.buffer.Length
  {
    && c.buffer.Length - c.off >= datlen
    && c.off < c.buffer.Length / 2
    && c.off <= MAX_TO_REALIGN_IN_EXPAND
  }

  /** The size evbuffer_add asks for when it needs another chain. */
  function NewChainSize(chain: Chain, datlen: nat): (size: nat)
    ensures size >= datlen && (chain.buffer.Length <= MAX_ALLOC && datlen <= MAX_ALLOC ==> size <= MAX_ALLOC)
  {
    var toAlloc := if chain.buffer.Length <= MAX_AUTO_SIZE / 2 then chain.buffer.Length * 2 else chain.buffer.Length;
    if datlen > toAlloc then datlen else toAlloc
  }

  /** evbuffer_add, when `chain` has only `remain` bytes of room: fill it, and go on in a new chain. */
  method AddSpill(buf: Evbuffer, chain: Chain, remain: nat, data: seq<byte>)
    requires buf.Shape() && buf.view.lwd < |buf.view.chains| == |buf.view.bytes|
    requires chain == buf.view.chains[buf.view.lwd]
    requires remain < |data| <= MAX_ALLOC && chain.misalign + chain.off + remain == chain.buffer.Length <= MAX_ALLOC
    modifies buf`first, buf`last, buf`lastWithDataPred, buf`totalLen, buf`view, buf`foot, buf.foot
    ensures buf.Shape() && fresh(buf.foot - old(buf.foot))
    ensures buf.Contents() == old(buf.Contents()) + data
  {
    hide Evbuffer.Shape, Evbuffer.ShapeButLast, Evbuffer.Contents, View.Ok, View.Within, View.OnHeap, Chain.Holds;
    hide NewChainSize, Grown, Extended, Prefix, Kept;
    var tmp := ChainNew(NewChainSize(chain, |data|));
    ShapeParts(buf);
    ghost var contents := buf.Contents();
    if remain > 0 {
      Grow(buf, chain, buf.lastWithDataPred, buf.view.lwd, data[..remain]);
    } else {
      assert contents + data[..0] == contents;
    }
    AppendBytes(tmp, [], data[remain..]);
    assert [] + data[remain..] == data[remain..];
    ChainInsert(buf, tmp, data[remain..]);
    AppendInTwo(contents, data, remain);
  }

  /** evbuffer_add, once there is a chain to write to. */
  method AddToLast(buf: Evbuffer, chain: Chain, data: seq<byte>)
    requires buf.Shape() && buf.view.lwd < |buf.view.chains|
    requires chain == buf.view.chains[buf.view.lwd]
    requires |data| <= MAX_ALLOC
    modifies buf`first, buf`last, buf`lastWithDataPred, buf`totalLen, buf`view, buf`foot, buf.foot
    ensures buf.Shape() && fresh(buf.foot - old(buf.foot))
    ensures buf.Contents() == old(buf.Contents()) + data
    ensures old(chain.misalign + chain.off) + |data| <= chain.buffer.Length ==> buf.view.chains == old(buf.view.chains)
  {
    hide *;
    ShapeParts(buf);
    NodeAt(buf, buf.view.lwd);
    GrownChains(buf.view, buf.view.lwd, data);
    var remain := chain.buffer.Length - chain.misalign - chain.off;
    if remain >= |data| {
      Grow(buf, chain, buf.lastWithDataPred, buf.view.lwd, data);
    } else if ShouldRealign(chain, |data|) {
      Align(buf, chain, buf.view.lwd);
      Grow(buf, chain, buf.lastWithDataPred, buf.view.lwd, data);
    } else {
      AddSpill(buf, chain, remain, data);
    }
  }

  lemma GrownChains(v: View, i: nat, data: seq<byte>)
    requires i < |v.bytes|
    ensures Grown(v, i, data).chains == v.chains
  {
  }

  /** Data that no chain can be made for finds room in no chain either. */
  lemma TooMuch(buf: Evbuffer, datlen: nat)
    requires buf.Shape() && datlen > MAX_ALLOC
    ensures forall i :: 0 <= i < |buf.view.chains| ==>
      && buf.view.chains[i].misalign + buf.view.chains[i].off <= buf.view.chains[i].buffer.Length < datlen
      && !ShouldRealign(buf.view.chains[i], datlen)
  {
    hide Flatten;
    forall i | 0 <= i < |buf.view.chains|
      ensures buf.view.chains[i].misalign + buf.view.chains[i].off <= buf.view.chains[i].buffer.Length <= MAX_ALLOC
    {
      NodeAt(buf, i);
    }
  }

  /** Make the first chain of a list that has none. */
  method MakeFirst(buf: Evbuffer, size: nat) returns (chain: Chain?)
    requires buf.Shape() && buf.view.chains == []
    modifies buf`first, buf`last, buf`lastWithDataPred, buf`totalLen, buf`view, buf`foot, buf.foot
    ensures chain == null <==> size > MAX_ALLOC
    ensures buf.Shape() && fresh(buf.foot - old(buf.foot)) && buf.Contents() == old(buf.Contents())
    ensures buf.totalLen == old(buf.totalLen)
    ensures chain != null ==>
      && buf.view.chains == [chain] && buf.view.lwd == 0 && buf.first == chain
      && chain.misalign == chain.off == 0 && chain.buffer.Length == Capacity(size)
    ensures chain == null ==> buf.view == old(buf.view) && buf.foot == old(buf.foot) && buf.first == null
  {
    hide Evbuffer.Shape, Evbuffer.ShapeButLast, Evbuffer.Contents, View.Ok, View.Within, View.OnHeap, Chain.Holds;
    hide Extended, Prefix, Kept, Capacity;
    ShapeParts(buf);
    ghost var contents := buf.Contents();
    chain := ChainNew(size);
    if chain != null {
      HoldsOff(chain, []);
      ChainInsert(buf, chain, []);
      OnlyChain(buf, chain);
      assert contents + [] == contents;
      ShapeParts(buf);
    }
  }

  /**
   evbuffer_add of `datlen` bytes from where `data` is. More than one chain can hold is refused
   before a byte is read, so that only then there may be fewer bytes than are asked for.
   */
  method AddSized(buf: Evbuffer, data: seq<byte>, datlen: nat) returns (result: int)
    requires buf.Valid() && (|data| == datlen || datlen > MAX_ALLOC)
    modifies buf, buf.foot
    ensures buf.Valid() && fresh(buf.foot - old(buf.foot))
    ensures buf.freezeStart == old(buf.freezeStart) && buf.freezeEnd == old(buf.freezeEnd)
    ensures result ==
      if old(!buf.freezeEnd && datlen <= SIZE_MAX - |buf.Contents()|) && datlen <= MAX_ALLOC then 0 else -1
    ensures buf.Contents() == if result == 0 then old(buf.Contents()) + data else old(buf.Contents())
    ensures if result == 0 then buf.Told(|data|, 0) else buf.Silent()
    ensures result == 0 && old(buf.first) == null ==>
      exists c :: buf.view.chains == [c] && c.buffer.Length == Capacity(datlen)
  {
    hide Evbuffer.Valid, Evbuffer.Shape, Evbuffer.ShapeButLast, Evbuffer.Contents, Evbuffer.Reported;
    hide View.Ok, View.Within, View.OnHeap, View.Marked, Chain.Holds, Extended, Prefix, Kept, Capacity, Flatten;
    ValidParts(buf);
    if buf.freezeEnd {
      return -1;
    }
    if buf.totalLen + datlen > SIZE_MAX {
      return -1;
    }
    ShapeParts(buf);
    var chain := buf.LastWithData();
    if chain == null {
      chain := MakeFirst(buf, datlen);
      if chain == null {
        ValidFrom(buf);
        return -1;
      }
    } else if datlen > MAX_ALLOC {
      // neither in place nor realigned, and no chain can be made
      TooMuch(buf, datlen);
      assert chain.buffer.Length - chain.misalign - chain.off < datlen && !ShouldRealign(chain, datlen);
      var tmp := ChainNew(NewChainSize(chain, datlen));
      assert tmp == null;
      return -1;
    }
    AddToLast(buf, chain, data);
    ShapeParts(buf);
    Count(buf, datlen, 0);
    return 0;
  }

  /** evbuffer_add */
  method Add(buf: Evbuffer, data: seq<byte>) returns (result: int)
    requires buf.Valid()
    modifies buf, buf.foot
    ensures buf.Valid() && fresh(buf.foot - old(buf.foot))
    ensures buf.freezeStart == old(buf.freezeStart) && buf.freezeEnd == old(buf.freezeEnd)
    ensures result ==
      if old(!buf.freezeEnd && |data| <= SIZE_MAX - |buf.Contents()|) && |data| <= MAX_ALLOC then 0 else -1
    ensures buf.Contents() == if result == 0 then old(buf.Contents()) + data else old(buf.Contents())
    ensures if result == 0 then buf.Told(|data|, 0) else buf.Silent()
    ensures result == 0 && old(buf.first) == null ==>
      exists c :: buf.view.chains == [c] && c.buffer.Length == Capacity(|data|)
  {
    hide *;
    result := AddSized(buf, data, |data|);
  }

  lemma OnlyChain(buf: Evbuffer, c: Chain)
    requires buf.Shape()
    requires exists v: View :: v.Ok() && v.chains == [] && buf.view == Extended(Prefix(v, Kept(v)), c, [])
    ensures buf.view.chains == [c] && buf.view.lwd == 0
  {
  }
}
