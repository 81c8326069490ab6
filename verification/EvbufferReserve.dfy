/**
 Writing into an evbuffer's own memory: evbuffer_expand_fast_, evbuffer_reserve_space with
 two or more vectors, and evbuffer_commit_space.
 */
module EvbufferReserve {
  import opened Bytes
  import opened EvbufferCore
  import opened EvbufferAppend

  /** struct evbuffer_iovec */
  datatype Iovec = Iovec(memory: array<byte>, at: nat, len: nat)

  ghost function Sum(lens: seq<nat>): nat {
    if lens == [] then 0 else Sum(lens[..|lens| - 1]) + lens[|lens| - 1]
  }

  lemma SumStep(lens: seq<nat>, n: nat)
    ensures Sum(lens + [n]) == Sum(lens) + n
  {
    assert (lens + [n])[..|lens|] == lens;
  }

  /** The number of the first chain with room, at or after the last one with data. */
  ghost function FirstRoom(chains: seq<Chain>, lwd: nat): nat
    requires lwd < |chains|
    reads chains`misalign, chains`off
  {
    if chains[lwd].misalign + chains[lwd].off == chains[lwd].buffer.Length then lwd + 1 else lwd
  }

  /** The room of the chains before number `k`, from the first one with room on. */
  ghost predicate Rooms(chains: seq<Chain>, lwd: nat, k: nat, rooms: seq<nat>)
    requires lwd < |chains|
    reads chains`misalign, chains`off
  {
    && k <= |chains|
    && if k <= lwd then rooms == [] else
         && FirstRoom(chains, lwd) + |rooms| == k
         && forall j {:trigger rooms[j]} :: 0 <= j < |rooms| ==>
              var c := chains[FirstRoom(chains, lwd) + j];
              rooms[j] == c.buffer.Length - (c.misalign + c.off)
  }

  method ResetMisalign(buf: Evbuffer, chain: Chain, ghost k: nat)
    requires buf.Shape() && k < |buf.view.chains| && chain == buf.view.chains[k] && chain.off == 0
    modifies chain`misalign
    ensures buf.Shape() && chain.misalign == 0
  {
    hide *;
    ShapeParts(buf);
    ResetNode0(chain, buf.view, buf.foot, k);
    ShapeFrom(buf);
  }

  method ResetNode0(c: Chain, ghost v: View, ghost foot: set<object>, ghost k: nat)
    requires |v.bytes| == |v.chains| && v.Distinct() && v.Within(foot) && v.OnHeap(foot)
    requires k < |v.chains| && v.chains[k] == c && c.off == 0
    modifies c`misalign
    ensures v.OnHeap(foot) && c.misalign == 0
  {
    hide Chain.Holds;
    ResetEmpty(c, v.bytes[k]);
  }

  method ResetEmpty(c: Chain, ghost b: seq<byte>)
    requires c.Holds(b) && c.off == 0
    modifies c`misalign
    ensures c.Holds(b) && c.misalign == 0
  {
    c.misalign := 0;
  }

  /** One step of the loop of evbuffer_expand_fast_: realign an empty chain, and say how much room there is. */
  method CountStep(buf: Evbuffer, chain: Chain, ghost k: nat, ghost rooms: seq<nat>) returns (space: nat)
    requires buf.Shape() && buf.view.lwd <= k < |buf.view.chains| && chain == buf.view.chains[k]
    requires Rooms(buf.view.chains, buf.view.lwd, k, rooms)
    modifies chain`misalign
    ensures buf.Shape()
    ensures Rooms(buf.view.chains, buf.view.lwd, k + 1, if space > 0 then rooms + [space] else rooms)
    ensures chain.next == buf.view.Next(k) && chain.misalign == if chain.off == 0 then 0 else old(chain.misalign)
  {
    hide View.OnHeap, View.Within, View.Ok, Chain.Holds, Flatten;
    ShapeParts(buf);
    NodeAt(buf, k);
    if chain.off != 0 {
      HasDataIsLwd(buf, k);
      space := chain.SpaceLen();
    } else {
      ResetMisalign(buf, chain, k);
      NodeAt(buf, k);
      EmptyHasRoom(buf, k);
      space := chain.buffer.Length;
    }
    OtherChains(buf);
  }

  lemma HasDataIsLwd(buf: Evbuffer, k: nat)
    requires buf.Shape() && buf.view.lwd <= k < |buf.view.chains| && buf.view.chains[k].off != 0
    ensures k == buf.view.lwd
  {
  }

  lemma EmptyHasRoom(buf: Evbuffer, k: nat)
    requires buf.Shape() && k < |buf.view.chains|
    ensures 0 < buf.view.chains[k].buffer.Length
  {
  }

  lemma OtherChains(buf: Evbuffer)
    requires buf.Shape()
    ensures forall i, j :: 0 <= i < j < |buf.view.chains| ==> buf.view.chains[i] != buf.view.chains[j]
  {
  }

  /**
   The loop of evbuffer_expand_fast_: how much room the first chains with room have, until
   that is enough, or `n` chains are used, or the list ends.
   */
  method CountRoom(buf: Evbuffer, datlen: nat, n: nat) returns (avail: nat, used: nat, ghost rooms: seq<nat>, ghost k: nat)
    requires buf.Shape() && buf.view.chains != [] && n >= 2
    modifies buf.foot
    ensures buf.Shape()
    ensures buf.view.lwd < k <= |buf.view.chains| && Rooms(buf.view.chains, buf.view.lwd, k, rooms)
    ensures |rooms| == used <= n && Sum(rooms) == avail
    ensures avail < datlen ==> used == n || k == |buf.view.chains|
    ensures var c := buf.view.chains[buf.view.lwd];
      c.off == old(c.off) && c.misalign == if c.off == 0 then 0 else old(c.misalign)
  {
    hide *;
    ShapeParts(buf);
    CountStart(buf);
    avail, used, rooms, k := 0, 0, [], buf.view.lwd;
    var chain := buf.LastWithData();
    ghost var c := buf.view.chains[k];
    while chain != null
      invariant buf.Shape() && buf.ShapeButLast() && buf !in buf.foot
      invariant buf.view.lwd <= k <= |buf.view.chains|
      invariant chain == if k < |buf.view.chains| then buf.view.chains[k] else null
      invariant |rooms| == used < n && Sum(rooms) == avail
      invariant buf.view.lwd < |buf.view.chains| && Rooms(buf.view.chains, buf.view.lwd, k, rooms)
      invariant c == buf.view.chains[buf.view.lwd] && c.off == old(c.off)
      invariant c.misalign == if k == buf.view.lwd || c.off != 0 then old(c.misalign) else 0
      decreases |buf.view.chains| - k
    {
      ShapeParts(buf);
      OtherChains(buf);
      var space := CountStep(buf, chain, k, rooms);
      NextIs(buf, k);
      if space > 0 {
        SumStep(rooms, space);
        rooms := rooms + [space];
        avail := avail + space;
        used := used + 1;
      }
      k := k + 1;
      if avail >= datlen || used == n {
        return;
      }
      chain := chain.next;
      ShapeParts(buf);
    }
  }

  lemma CountStart(buf: Evbuffer)
    requires buf.Shape() && buf.view.chains != []
    ensures buf.view.lwd < |buf.view.chains| && Rooms(buf.view.chains, buf.view.lwd, buf.view.lwd, []) && Sum([]) == 0
  {
  }

  lemma NextIs(buf: Evbuffer, k: nat)
    requires buf.Shape() && k < |buf.view.chains|
    ensures buf.view.Next(k) == if k + 1 < |buf.view.chains| then buf.view.chains[k + 1] else null
  {
  }

  lemma ExtendedEmptyOk(view: View, foot: set<object>, c: Chain)
    requires view.Ok() && view.Within(foot) && view.chains != [] && c !in foot && c.buffer !in foot
    ensures var e := Extended(view, c, []);
      && e.Ok() && e.Within(foot + {c, c.buffer}) && Flatten(e.bytes) == Flatten(view.bytes)
      && e.Head() == view.Head() && e.Pred(|e.chains|) == c && e.Pred(e.lwd) == view.Pred(view.lwd)
  {
    FlattenAppend(view.bytes, [[]]);
    FlattenOne<byte>([]);
  }

  /** Link an empty chain after the last one, keeping the empty chains there are. */
  method AppendEmpty(buf: Evbuffer, tmp: Chain)
    requires buf.Shape() && buf.view.chains != [] && tmp !in buf.foot && tmp.buffer !in buf.foot
    requires tmp.Holds([]) && tmp.next == null
    modifies buf`first, buf`last, buf`lastWithDataPred, buf`totalLen, buf`view, buf`foot, buf.view.chains`next
    ensures buf.Shape() && buf.foot == old(buf.foot) + {tmp, tmp.buffer} && buf.Contents() == old(buf.Contents())
    ensures buf.view.chains == old(buf.view.chains) + [tmp] && buf.view.lwd == old(buf.view.lwd)
  {
    hide Evbuffer.Shape, Evbuffer.ShapeButLast, Evbuffer.Contents, View.Ok, View.Within, View.OnHeap, Chain.Holds;
    hide View.Pred, View.Head;
    ShapeParts(buf);
    ghost var v, foot := buf.view, buf.foot;
    ExtendedEmptyOk(v, foot, tmp);
    LinkNode(buf, buf.last, tmp, v, foot, []);
    SetHeader(buf, tmp, buf.lastWithDataPred, buf.totalLen, Extended(v, tmp, []), foot + {tmp, tmp.buffer});
    ShapeFrom(buf);
  }

  /** What evbuffer_expand_fast_ promises: few enough chains have room enough. */
  ghost predicate Ready(buf: Evbuffer, datlen: nat, n: nat)
    reads buf, buf.view.chains
  {
    && buf.view.lwd < |buf.view.chains| && Aligned(buf.view.chains[buf.view.lwd])
    && exists k, rooms: seq<nat> :: |rooms| <= n && Sum(rooms) >= datlen && buf.view.lwd < k
         && Rooms(buf.view.chains, buf.view.lwd, k, rooms)
  }

  /** An empty chain is empty at its end. */
  ghost predicate Aligned(c: Chain)
    reads c`misalign, c`off
  {
    c.off == 0 ==> c.misalign == 0
  }

  lemma ReadyNow(buf: Evbuffer, datlen: nat, n: nat, k: nat, rooms: seq<nat>)
    requires buf.view.lwd < |buf.view.chains| && |rooms| <= n && Sum(rooms) >= datlen && buf.view.lwd < k
    requires Rooms(buf.view.chains, buf.view.lwd, k, rooms) && Aligned(buf.view.chains[buf.view.lwd])
    ensures Ready(buf, datlen, n)
  {
  }

  /** The last chain of the list is the last one with data, and it is full. */
  ghost predicate NoRoomLeft(buf: Evbuffer)
    reads buf, buf.view.chains
  {
    && buf.view.chains != [] && buf.view.lwd == |buf.view.chains| - 1
    && var c := buf.view.chains[buf.view.lwd];
       c.off != 0 && c.misalign + c.off == c.buffer.Length
  }

  lemma OneMore(chains: seq<Chain>, lwd: nat, k: nat, rooms: seq<nat>, tmp: Chain)
    requires lwd < |chains| == k && Rooms(chains, lwd, k, rooms) && tmp.misalign == 0 && tmp.off == 0
    ensures Rooms(chains + [tmp], lwd, k + 1, rooms + [tmp.buffer.Length])
    ensures Sum(rooms + [tmp.buffer.Length]) == Sum(rooms) + tmp.buffer.Length
  {
    SumStep(rooms, tmp.buffer.Length);
  }

  /** The branch of evbuffer_expand_fast_ that adds a chain behind the empty ones. */
  method AddRoom(buf: Evbuffer, datlen: nat, n: nat, avail: nat, ghost rooms: seq<nat>) returns (result: int)
    requires buf.Shape() && buf.view.chains != [] && avail < datlen && |rooms| < n && Sum(rooms) == avail
    requires buf.view.lwd < |buf.view.chains| && Rooms(buf.view.chains, buf.view.lwd, |buf.view.chains|, rooms)
    requires Aligned(buf.view.chains[buf.view.lwd])
    modifies buf`first, buf`last, buf`lastWithDataPred, buf`totalLen, buf`view, buf`foot, buf.foot
    ensures buf.Shape() && fresh(buf.foot - old(buf.foot)) && buf.Contents() == old(buf.Contents())
    ensures result == if datlen - avail > MAX_ALLOC then -1 else 0
    ensures result == 0 ==> Ready(buf, datlen, n)
  {
    hide Evbuffer.Shape, Evbuffer.ShapeButLast, Evbuffer.Contents, View.Ok, View.Within, View.OnHeap, Chain.Holds;
    hide Rooms, FirstRoom, Ready, Sum;
    var tmp := ChainNew(datlen - avail);
    if tmp == null {
      return -1;
    }
    ShapeParts(buf);
    HoldsOff(tmp, []);
    ghost var chains, lwd := buf.view.chains, buf.view.lwd;
    AppendEmpty(buf, tmp);
    OneMore(chains, lwd, |chains|, rooms, tmp);
    ReadyNow(buf, datlen, n, |chains| + 1, rooms + [tmp.buffer.Length]);
    return 0;
  }

  lemma TrimmedParts(buf: Evbuffer)
    requires buf.ShapeButLast() && Trimmed(buf.view)
    ensures buf.view.chains != [] ==>
      && buf.view.lwd == |buf.view.chains| - 1
      && buf.view.chains[buf.view.lwd].off != 0
      && buf.view.chains[buf.view.lwd].misalign + buf.view.chains[buf.view.lwd].off
         <= buf.view.chains[buf.view.lwd].buffer.Length
    ensures buf.view.chains == [] ==> buf.view.lwd == 0
  {
  }

  /** The room in a trimmed list, with one empty chain added. */
  lemma TrimmedRooms(chains: seq<Chain>, lwd: nat, tmp: Chain) returns (rooms: seq<nat>)
    requires tmp.misalign == 0 && tmp.off == 0 && 0 < tmp.buffer.Length
    requires chains == [] ==> lwd == 0
    requires chains != [] ==> lwd == |chains| - 1 && chains[lwd].misalign + chains[lwd].off <= chains[lwd].buffer.Length
    ensures Rooms(chains + [tmp], lwd, |chains| + 1, rooms) && |rooms| <= 2
    ensures Sum(rooms) == tmp.buffer.Length +
      if chains == [] then 0 else chains[lwd].buffer.Length - (chains[lwd].misalign + chains[lwd].off)
  {
    if chains == [] || chains[lwd].misalign + chains[lwd].off == chains[lwd].buffer.Length {
      rooms := [tmp.buffer.Length];
    } else {
      rooms := [chains[lwd].buffer.Length - (chains[lwd].misalign + chains[lwd].off), tmp.buffer.Length];
      assert rooms[..1] == [rooms[0]];
    }
  }

  lemma PrefixTrimmed(buf: Evbuffer)
    requires buf.Shape()
    ensures buf.ShapeButLast() && Trimmed(Prefix(buf.view, Kept(buf.view)))
    ensures var p := Prefix(buf.view, Kept(buf.view));
      p.chains != [] ==> |p.chains| == buf.view.lwd + 1 && p.chains[|p.chains| - 1] == buf.view.chains[buf.view.lwd]
  {
    PrefixOk(buf.view, buf.foot);
  }

  lemma ExtendedIs(v: View, c: Chain)
    ensures Extended(v, c, []).chains == v.chains + [c]
    ensures Extended(v, c, []).lwd == if v.chains == [] then 0 else v.lwd
  {
  }

  /** The branch of evbuffer_expand_fast_ that replaces all empty chains by one. */
  method ReplaceRoom(buf: Evbuffer, datlen: nat, n: nat) returns (result: int)
    requires buf.Shape() && buf.view.lwd < |buf.view.chains| && n >= 2
    requires var c := buf.view.chains[buf.view.lwd]; c.buffer.Length - (c.misalign + c.off) <= datlen
    modifies buf`first, buf`last, buf`lastWithDataPred, buf`totalLen, buf`view, buf`foot, buf.foot
    ensures buf.Shape() && fresh(buf.foot - old(buf.foot)) && buf.Contents() == old(buf.Contents())
    ensures result == 0 || (result == -1 && datlen > MAX_ALLOC)
    ensures result == 0 ==> Ready(buf, datlen, n)
  {
    hide Evbuffer.Shape, Evbuffer.ShapeButLast, Evbuffer.Contents, View.Ok, View.Within, View.OnHeap, Chain.Holds;
    hide Rooms, FirstRoom, Ready, Sum, Prefix, Kept, Extended, Trimmed;
    ShapeParts(buf);
    PrefixTrimmed(buf);
    var pred := FreeTrailingEmptyChains(buf);
    result := RoomAfter(buf, pred, datlen, n);
  }

  /** Put a new chain behind the last with data, for what does not fit into that. */
  method RoomAfter(buf: Evbuffer, pred: Chain?, datlen: nat, n: nat) returns (result: int)
    requires buf.ShapeButLast() && Trimmed(buf.view) && pred == buf.view.Pred(|buf.view.chains|) && n >= 2
    requires pred != null ==> pred.buffer.Length - (pred.misalign + pred.off) <= datlen
    modifies buf`first, buf`last, buf`lastWithDataPred, buf`totalLen, buf`view, buf`foot, buf.foot
    ensures buf.Shape() && fresh(buf.foot - old(buf.foot)) && buf.Contents() == old(buf.Contents())
    ensures result == 0 || (result == -1 && datlen > MAX_ALLOC)
    ensures result == 0 ==> Ready(buf, datlen, n)
  {
    hide Evbuffer.Shape, Evbuffer.ShapeButLast, Evbuffer.Contents, View.Ok, View.Within, View.OnHeap, Chain.Holds;
    hide Rooms, FirstRoom, Ready, Sum, Prefix, Kept, Extended, Trimmed;
    ShapeParts(buf);
    TrimmedParts(buf);
    var avail := if pred == null then 0 else pred.buffer.Length - (pred.misalign + pred.off);
    ghost var v := buf.view;
    var tmp := ChainNew(datlen - avail);
    if tmp == null {
      buf.last := pred;
      ShapeFrom(buf);
      return -1;
    }
    HoldsOff(tmp, []);
    EmptyRoomy(tmp);
    ghost var s := buf.Contents();
    LinkAtEnd(buf, pred, tmp, []);
    assert s + [] == s;
    ExtendedIs(v, tmp);
    ghost var rooms := TrimmedRooms(v.chains, v.lwd, tmp);
    ReadyNow(buf, datlen, n, |v.chains| + 1, rooms);
    return 0;
  }

  lemma RoomBound(chains: seq<Chain>, lwd: nat, k: nat, rooms: seq<nat>)
    requires lwd < |chains| && lwd < k && Rooms(chains, lwd, k, rooms)
    requires chains[lwd].misalign + chains[lwd].off <= chains[lwd].buffer.Length
    ensures chains[lwd].buffer.Length - (chains[lwd].misalign + chains[lwd].off) <= Sum(rooms)
  {
    if rooms != [] {
      SumFirst(rooms);
    }
  }

  lemma {:induction false} SumFirst(rooms: seq<nat>)
    requires rooms != []
    ensures rooms[0] <= Sum(rooms)
  {
    if |rooms| > 1 {
      SumFirst(rooms[..|rooms| - 1]);
    }
  }

  lemma EmptyRoomy(c: Chain)
    requires c.Holds([])
    ensures 0 < c.buffer.Length
  {
  }

  /** evbuffer_expand_fast_ */
  method ExpandFast(buf: Evbuffer, datlen: nat, n: nat) returns (result: int)
    requires buf.Shape() && n >= 2
    modifies buf`first, buf`last, buf`lastWithDataPred, buf`totalLen, buf`view, buf`foot, buf.foot
    ensures buf.Shape() && fresh(buf.foot - old(buf.foot)) && buf.Contents() == old(buf.Contents())
    ensures result == 0 || (result == -1 && datlen > MAX_ALLOC)
    ensures result == 0 ==> Ready(buf, datlen, n)
    ensures datlen == 0 ==> (NoRoomLeft(buf) <==> old(NoRoomLeft(buf)))
  {
    hide Evbuffer.Shape, Evbuffer.ShapeButLast, Evbuffer.Contents, View.Ok, View.Within, View.OnHeap, Chain.Holds;
    hide Rooms, FirstRoom, Ready, Sum, Prefix, Kept, Extended, Trimmed, View.Pred;
    LastParts(buf);
    if buf.last == null {
      result := FirstChain(buf, datlen, n);
      return;
    }
    ShapeParts(buf);
    var avail, used, rooms, k := CountRoom(buf, datlen, n);
    ShapeParts(buf);
    if avail >= datlen {
      ReadyNow(buf, datlen, n, k, rooms);
      return 0;
    }
    if used < n {
      result := AddRoom(buf, datlen, n, avail, rooms);
    } else {
      NodeAt(buf, buf.view.lwd);
      RoomBound(buf.view.chains, buf.view.lwd, k, rooms);
      result := ReplaceRoom(buf, datlen, n);
    }
  }

  lemma LastParts(buf: Evbuffer)
    requires buf.Shape()
    ensures buf.last == null <==> buf.view.chains == []
  {
  }

  method FirstChain(buf: Evbuffer, datlen: nat, n: nat) returns (result: int)
    requires buf.Shape() && buf.view.chains == [] && n >= 2
    modifies buf`first, buf`last, buf`lastWithDataPred, buf`totalLen, buf`view, buf`foot, buf.foot
    ensures buf.Shape() && fresh(buf.foot - old(buf.foot)) && buf.Contents() == old(buf.Contents())
    ensures result == if datlen > MAX_ALLOC then -1 else 0
    ensures result == 0 ==> Ready(buf, datlen, n) && !NoRoomLeft(buf)
  {
    hide Evbuffer.Shape, Evbuffer.ShapeButLast, Evbuffer.Contents, View.Ok, View.Within, View.OnHeap, Chain.Holds;
    hide Rooms, FirstRoom, Ready, Sum, Prefix, Kept, Extended;
    var tmp := ChainNew(datlen);
    if tmp == null {
      return -1;
    }
    HoldsOff(tmp, []);
    EmptyRoomy(tmp);
    ghost var s, v := buf.Contents(), buf.view;
    ShapeParts(buf);
    ChainInsert(buf, tmp, []);
    assert s + [] == s;
    OnlyChain(buf, tmp);
    ghost var rooms := TrimmedRooms([], 0, tmp);
    assert [] + [tmp] == [tmp];
    ReadyNow(buf, datlen, n, 1, rooms);
    return 0;
  }
}
