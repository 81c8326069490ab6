/**
 Adding bytes at the front of an evbuffer: evbuffer_prepend.
 */
module EvbufferPrepend {
  import opened Bytes
  import opened EvbufferCore
  import opened EvbufferAppend

  /** The list after `data` went in before the data of the first chain. */
  ghost function Backed(view: View, data: seq<byte>): View
    requires view.bytes != []
  {
    view.(bytes := view.bytes[0 := data + view.bytes[0]])
  }

  lemma BackedOk(view: View, foot: set<object>, data: seq<byte>)
    requires view.Ok() && view.Within(foot) && view.chains != []
    ensures var g := Backed(view, data);
      && g.Ok() && g.Within(foot) && Flatten(g.bytes) == data + Flatten(view.bytes)
      && g.Head() == view.Head() && g.Pred(|g.chains|) == view.Pred(|view.chains|)
      && g.Pred(g.lwd) == view.Pred(view.lwd)
  {
    var g := Backed(view, data);
    assert g.bytes[1..] == view.bytes[1..];
    assert Flatten(g.bytes) == (data + view.bytes[0]) + Flatten(view.bytes[1..]);
  }

  /** An empty chain may as well be empty at its beginning. */
  method ResetChain(c: Chain, ghost b: seq<byte>)
    requires c.Holds(b)
    modifies c`misalign
    ensures c.Holds(b) && (c.off == 0 ==> c.misalign == c.buffer.Length)
    ensures c.off != 0 ==> c.misalign == old(c.misalign)
  {
    if c.off == 0 {
      c.misalign := c.buffer.Length;
    }
  }

  /** memcpy to just before the window, then grow the window. */
  method PrependBytes(c: Chain, ghost b: seq<byte>, data: seq<byte>)
    requires c.Holds(b) && |data| <= c.misalign
    modifies c`off, c`misalign, c.buffer
    ensures c.Holds(data + b)
    ensures c.misalign == old(c.misalign) - |data|
  {
    Memcpy(c.buffer, c.misalign - |data|, data);
    c.misalign := c.misalign - |data|;
    c.off := c.off + |data|;
    var w := c.buffer[c.misalign..c.misalign + c.off];
    assert w[..|data|] == data;
    assert w[|data|..] == b;
  }

  method ResetFirst(buf: Evbuffer, c: Chain)
    requires buf.Shape() && buf.first == c
    modifies c`misalign
    ensures buf.Shape() && (c.off == 0 ==> c.misalign == c.buffer.Length)
    ensures c.off != 0 ==> c.misalign == old(c.misalign)
  {
    hide *;
    ShapeParts(buf);
    ResetNode(c, buf.view, buf.foot);
    ShapeFrom(buf);
  }

  method ResetNode(c: Chain, ghost v: View, ghost foot: set<object>)
    requires v.Ok() && v.Within(foot) && v.OnHeap(foot) && v.Head() == c
    modifies c`misalign
    ensures v.OnHeap(foot) && (c.off == 0 ==> c.misalign == c.buffer.Length)
    ensures c.off != 0 ==> c.misalign == old(c.misalign)
  {
    hide Chain.Holds;
    ResetChain(c, v.bytes[0]);
  }

  method BackNode(c: Chain, ghost v: View, ghost foot: set<object>, data: seq<byte>)
    requires v.Ok() && v.Within(foot) && v.OnHeap(foot) && v.Head() == c
    requires |v.bytes| == |v.chains| && |data| <= c.misalign && v.bytes != [] && Backed(v, data).Ok()
    modifies c`off, c`misalign, c.buffer
    ensures Backed(v, data).OnHeap(foot) && c.misalign == old(c.misalign) - |data|
  {
    hide Chain.Holds;
    PrependBytes(c, v.bytes[0], data);
  }

  /** Put `data` before the data of the first chain. */
  method Back(buf: Evbuffer, c: Chain, data: seq<byte>)
    requires buf.Shape() && buf.first == c && |data| <= c.misalign
    modifies buf`first, buf`last, buf`lastWithDataPred, buf`totalLen, buf`view, buf`foot, buf.foot
    ensures buf.Shape() && buf.foot == old(buf.foot)
    ensures buf.first == c && c.misalign == old(c.misalign) - |data|
    ensures buf.Contents() == data + old(buf.Contents())
    ensures |data| > 0 ==> !FirstEmpty(buf)
  {
    hide *;
    ShapeParts(buf);
    HeadFacts(buf);
    BackedOk(buf.view, buf.foot, data);
    ghost var g := Backed(buf.view, data);
    BackNode(c, buf.view, buf.foot, data);
    SetHeader(buf, buf.last, buf.lastWithDataPred, buf.totalLen + |data|, g, buf.foot);
    ShapeFrom(buf);
    if |data| > 0 {
      BackedFirst(buf, old(buf.view), data);
    }
  }

  ghost predicate FirstEmpty(buf: Evbuffer)
    reads buf`view
  {
    buf.view.bytes != [] && buf.view.bytes[0] == []
  }

  lemma BackedFirst(buf: Evbuffer, v: View, data: seq<byte>)
    requires v.bytes != [] && buf.view == Backed(v, data) && |data| > 0
    ensures !FirstEmpty(buf)
  {
  }

  lemma HeadFacts(buf: Evbuffer)
    requires buf.Shape() && buf.first != null
    ensures buf.view.chains != [] && buf.view.bytes != [] && buf.view.chains[0] == buf.first
    ensures buf.first in buf.foot && buf.first.buffer in buf.foot
    ensures 0 < buf.first.buffer.Length && (FirstEmpty(buf) <==> buf.first.off == 0)
    ensures buf.first.misalign + buf.first.off <= buf.first.buffer.Length
  {
  }

  /** The list with one more chain, holding `b`, before all others. */
  ghost function Fronted(view: View, c: Chain, b: seq<byte>): View {
    View([c] + view.chains, [b] + view.bytes,
         if view.chains == [] || (view.lwd == 0 && view.bytes != [] && view.bytes[0] == []) then 0 else view.lwd + 1)
  }

  lemma FrontedOk(view: View, foot: set<object>, c: Chain, b: seq<byte>)
    requires view.Ok() && view.Within(foot) && c !in foot && c.buffer !in foot && view.chains != []
    ensures |view.bytes| == |view.chains|
    ensures var g := Fronted(view, c, b);
      && g.Ok() && g.Within(foot + {c, c.buffer}) && Flatten(g.bytes) == b + Flatten(view.bytes)
      && g.Head() == c && g.Pred(|g.chains|) == view.Pred(|view.chains|)
      && g.Pred(g.lwd) == if view.lwd == 0 then (if view.bytes[0] == [] then null else c) else view.Pred(view.lwd)
  {
    var g := Fronted(view, c, b);
    assert g.bytes[1..] == view.bytes;
    hide Flatten;
    assert Flatten(g.bytes) == b + Flatten(view.bytes) by {
      FlattenCons(b, view.bytes);
    }
  }

  lemma FrontedOnHeap(view: View, foot: set<object>, c: Chain, b: seq<byte>)
    requires view.Ok() && view.Within(foot) && c !in foot && c.buffer !in foot && view.chains != []
    requires view.OnHeap(foot) && c.next == view.Head() && c.Holds(b)
    requires Fronted(view, c, b).Ok() && Fronted(view, c, b).Within(foot + {c, c.buffer})
    ensures Fronted(view, c, b).OnHeap(foot + {c, c.buffer})
  {
    hide Chain.Holds;
  }

  /** Make `c` the first chain. */
  method LinkAtFront(buf: Evbuffer, c: Chain, ghost b: seq<byte>, firstOff: nat)
    requires buf.Shape() && buf.first != null && c.next == buf.first && c.Holds(b)
    requires firstOff == buf.first.off
    requires c !in buf.foot && c.buffer !in buf.foot
    modifies buf`first, buf`last, buf`lastWithDataPred, buf`totalLen, buf`view, buf`foot
    ensures buf.Shape() && buf.foot == old(buf.foot) + {c, c.buffer}
    ensures buf.Contents() == b + old(buf.Contents())
  {
    hide *;
    ShapeParts(buf);
    HeadFacts(buf);
    HoldsOff(c, b);
    FrontedOk(buf.view, buf.foot, c, b);
    FrontedOnHeap(buf.view, buf.foot, c, b);
    ghost var g := Fronted(buf.view, c, b);
    FirstIsEmpty(buf);
    buf.first := c;
    SetHeader(buf, buf.last, if buf.lastWithDataPred == null && firstOff != 0 then c else buf.lastWithDataPred,
              buf.totalLen + c.off, g, buf.foot + {c, c.buffer});
    ShapeFrom(buf);
  }

  lemma FirstIsEmpty(buf: Evbuffer)
    requires buf.Shape() && buf.first != null
    ensures buf.view.bytes != [] && buf.view.chains != []
    ensures FirstEmpty(buf) <==> buf.view.bytes[0] == []
    ensures buf.lastWithDataPred == null <==> buf.view.lwd == 0
  {
  }

  /** The room before the data of the first chain; an empty chain may as well be empty at its beginning. */
  ghost function FrontRoom(buf: Evbuffer): nat
    reads buf`first, buf.first
  {
    if buf.first == null then 0 else if buf.first.off == 0 then buf.first.buffer.Length else buf.first.misalign
  }

  /**
   evbuffer_prepend. What does not fit before the data of the first chain goes into a new chain. If
   that would be too large, the call fails, but the end of the data is in front already.
   */
  method Prepend(buf: Evbuffer, data: seq<byte>) returns (result: int)
    requires buf.Valid()
    modifies buf, buf.foot
    ensures buf.Valid() && fresh(buf.foot - old(buf.foot))
    ensures buf.freezeStart == old(buf.freezeStart) && buf.freezeEnd == old(buf.freezeEnd)
    ensures result ==
      if data == [] then 0
      else if old(!buf.freezeStart && |data| <= SIZE_MAX - |buf.Contents()|) && |data| <= old(FrontRoom(buf)) + MAX_ALLOC
      then 0 else -1
    ensures buf.Contents() ==
      if result == 0 then data + old(buf.Contents())
      else if old(!buf.freezeStart && |data| <= SIZE_MAX - |buf.Contents()|) && |data| > old(FrontRoom(buf))
      then data[|data| - old(FrontRoom(buf))..] + old(buf.Contents())
      else old(buf.Contents())
    ensures if result == 0 && data != [] then buf.Told(|data|, 0) else buf.Silent(|buf.Contents()| - |old(buf.Contents())|)
  {
    hide Evbuffer.Valid, Evbuffer.Shape, Evbuffer.Contents, FrontRoom, Evbuffer.Told;
    assert data[|data|..] + buf.Contents() == buf.Contents();
    ValidParts(buf);
    if |data| == 0 {
      return 0;
    }
    if buf.freezeStart {
      return -1;
    }
    if buf.totalLen + |data| > SIZE_MAX {
      return -1;
    }
    result := PrependUnfrozen(buf, data);
  }

  method PrependUnfrozen(buf: Evbuffer, data: seq<byte>) returns (result: int)
    requires buf.Valid() && data != []
    modifies buf`first, buf`last, buf`lastWithDataPred, buf`totalLen, buf`view, buf`foot, buf.foot
    modifies buf`nAddForCb, buf`nDelForCb, buf`reports, buf`early, buf`cbBase
    ensures buf.Valid() && fresh(buf.foot - old(buf.foot))
    ensures result == if |data| <= old(FrontRoom(buf)) + MAX_ALLOC then 0 else -1
    ensures |data| > old(FrontRoom(buf)) || result == 0
    ensures buf.Contents() == (if result == 0 then data else data[|data| - old(FrontRoom(buf))..]) + old(buf.Contents())
    ensures if result == 0 then buf.Told(|data|, 0) else buf.Silent(|buf.Contents()| - |old(buf.Contents())|)
  {
    hide Evbuffer.Valid, Evbuffer.Shape, Evbuffer.ShapeButLast, Evbuffer.Contents, Evbuffer.Reported;
    hide View.Ok, View.Within, View.OnHeap, View.Marked, Chain.Holds, FirstEmpty, FrontRoom, Capacity, Flatten;
    RoomInFront(buf);
    ValidParts(buf);
    ShapeParts(buf);
    assert data[|data|..] + buf.Contents() == buf.Contents();
    var chain := buf.first;
    if chain == null {
      chain := MakeFirst(buf, |data|);
      if chain == null {
        ValidFrom(buf);
        return -1;
      }
      RoomInFront(buf);
    }
    var added;
    result, added := PrependToFirst(buf, chain, data);
    ShapeParts(buf);
    if result == 0 {
      Count(buf, added, 0);
    } else {
      CountQuietly(buf, added);
    }
  }

  /** Account for bytes added without telling the callbacks. */
  method CountQuietly(buf: Evbuffer, added: nat)
    requires buf.Shape() && buf.Reported() && buf.Uncounted() == added
    modifies buf`nAddForCb
    ensures buf.Valid() && buf.nAddForCb == old(buf.nAddForCb) + added
  {
    hide Evbuffer.Shape, Evbuffer.Reported;
    buf.nAddForCb := buf.nAddForCb + added;
  }

  lemma RoomInFront(buf: Evbuffer)
    ensures buf.first == null ==> FrontRoom(buf) == 0
    ensures buf.first != null ==>
      FrontRoom(buf) == if buf.first.off == 0 then buf.first.buffer.Length else buf.first.misalign
  {
  }

  /** Put `data` before the data of the first chain, or what fits there if the rest is too large for a chain. */
  method PrependToFirst(buf: Evbuffer, chain: Chain, data: seq<byte>) returns (result: int, added: nat)
    requires buf.Shape() && buf.first == chain && 0 < |data|
    modifies buf`first, buf`last, buf`lastWithDataPred, buf`totalLen, buf`view, buf`foot, buf.foot
    ensures buf.Shape() && fresh(buf.foot - old(buf.foot))
    ensures result == if |data| <= old(FrontRoom(buf)) + MAX_ALLOC then 0 else -1
    ensures |data| > old(FrontRoom(buf)) || result == 0
    ensures added == if result == 0 then |data| else old(FrontRoom(buf))
    ensures buf.Contents() == (if result == 0 then data else data[|data| - old(FrontRoom(buf))..]) + old(buf.Contents())
  {
    hide Evbuffer.Shape, Evbuffer.ShapeButLast, Evbuffer.Contents, View.Ok, View.Within, View.OnHeap, Chain.Holds;
    hide FirstEmpty, FrontRoom;
    RoomInFront(buf);
    HeadFacts(buf);
    ResetFirst(buf, chain);
    if chain.misalign >= |data| {
      Back(buf, chain, data);
      return 0, |data|;
    }
    var room := chain.misalign;
    var rest := data[..|data| - room];
    ghost var contents := buf.Contents();
    Back(buf, chain, data[|data| - room..]);
    HeadFacts(buf);
    var tmp := ChainNew(|rest|);
    if tmp == null {
      return -1, room;
    }
    tmp.misalign := tmp.buffer.Length;
    TmpEmpty(tmp);
    PrependBytes(tmp, [], rest);
    tmp.next := chain;
    assert rest + [] == rest;
    LinkAtFront(buf, tmp, rest, chain.off);
    PrependInTwo(contents, data, |rest|);
    return 0, |data|;
  }

  lemma TmpEmpty(c: Chain)
    requires 0 < c.buffer.Length <= MAX_ALLOC && c.off == 0 && c.misalign == c.buffer.Length
    ensures c.Holds([])
  {
  }
}
