/**
 evbuffer_reserve_space and evbuffer_commit_space: lend out the memory behind the data, and
 turn what was written there into data.
 */
module EvbufferCommit {
  import opened Bytes
  import opened EvbufferCore
  import opened EvbufferAppend
  import opened EvbufferSplit
  import opened EvbufferExpand
  import opened EvbufferReserve

  /** `v` lies in the free memory right behind the data of `c`. */
  ghost predicate InSpace(c: Chain, v: Iovec)
    reads c`misalign, c`off
  {
    v.memory == c.buffer && v.at == c.misalign + c.off && v.at + v.len <= c.buffer.Length
  }

  /** The vectors lie in the free memory of consecutive chains, from number `f` on. */
  ghost predicate FitFrom(chains: seq<Chain>, f: nat, vecs: seq<Iovec>)
    reads chains`misalign, chains`off
  {
    && f + |vecs| <= |chains|
    && forall j {:trigger vecs[j]} :: 0 <= j < |vecs| ==> InSpace(chains[f + j], vecs[j])
  }

  /** What evbuffer_commit_space accepts. */
  ghost predicate Accepted(buf: Evbuffer, vecs: seq<Iovec>)
    reads buf, buf.view.chains
  {
    || vecs == []
    || (|vecs| == 1 && buf.view.chains != [] && InSpace(buf.view.chains[|buf.view.chains| - 1], vecs[0]))
    || (buf.view.lwd < |buf.view.chains| && FitFrom(buf.view.chains, FirstRoom(buf.view.chains, buf.view.lwd), vecs))
  }

  /** The bytes that are now where the vector points. */
  ghost function Piece(v: Iovec): seq<byte>
    reads v.memory
  {
    if v.at + v.len <= v.memory.Length then v.memory[v.at..v.at + v.len] else []
  }

  ghost function Written(vecs: seq<Iovec>): seq<byte>
    reads set j | 0 <= j < |vecs| :: vecs[j].memory
  {
    if vecs == [] then [] else Written(vecs[..|vecs| - 1]) + Piece(vecs[|vecs| - 1])
  }

  ghost function Total(vecs: seq<Iovec>): nat {
    if vecs == [] then 0 else Total(vecs[..|vecs| - 1]) + vecs[|vecs| - 1].len
  }

  /** Take the next `len` bytes of the memory of `c` into its data. */
  method ClaimBytes(c: Chain, ghost b: seq<byte>, len: nat)
    requires c.Holds(b) && c.misalign + c.off + len <= c.buffer.Length
    modifies c`off
    ensures c.off == old(c.off) + len
    ensures c.Holds(b + c.buffer[c.misalign + old(c.off)..c.misalign + c.off])
  {
    c.off := c.off + len;
    var w := c.buffer[c.misalign..c.misalign + c.off];
    assert w[..|b|] == b;
    assert w[|b|..] == c.buffer[c.misalign + |b|..c.misalign + c.off];
  }

  method ClaimNode(c: Chain, ghost v: View, ghost foot: set<object>, ghost i: nat, len: nat, ghost data: seq<byte>)
    requires |v.bytes| == |v.chains| && v.Distinct() && v.Within(foot) && v.OnHeap(foot)
    requires i < |v.chains| && v.chains[i] == c && c.misalign + c.off + len <= c.buffer.Length
    requires data == c.buffer[c.misalign + c.off..c.misalign + c.off + len]
    requires var g := Grown(v, i, data); |g.bytes| == |g.chains| && g.Within(foot)
    modifies c`off
    ensures Grown(v, i, data).OnHeap(foot) && c.off == old(c.off) + len
  {
    hide Chain.Holds;
    ClaimBytes(c, v.bytes[i], len);
  }

  method Claim(buf: Evbuffer, c: Chain, pred: Chain?, ghost i: nat, len: nat)
    requires buf.Shape() && buf.view.lwd <= i < |buf.view.chains|
    requires c == buf.view.chains[i] && pred == buf.view.Pred(i)
    requires c.misalign + c.off + len <= c.buffer.Length
    modifies buf`lastWithDataPred, buf`totalLen, buf`view, buf`last, buf`foot, c`off
    ensures buf.Shape() && buf.foot == old(buf.foot) && buf.last == old(buf.last)
    ensures buf.view.chains == old(buf.view.chains) && buf.view.lwd == if len > 0 then i else old(buf.view.lwd)
    ensures buf.totalLen == old(buf.totalLen) + len && c.off == old(c.off) + len
    ensures buf.Contents() == old(buf.Contents()) + c.buffer[c.misalign + old(c.off)..c.misalign + c.off]
  {
    hide *;
    ShapeParts(buf);
    NodeAt(buf, i);
    ghost var data := c.buffer[c.misalign + c.off..c.misalign + c.off + len];
    GrownOk(buf.view, buf.foot, i, data);
    GrownParts(buf.view, i, data);
    ghost var g := Grown(buf.view, i, data);
    ClaimNode(c, buf.view, buf.foot, i, len, data);
    SetHeader(buf, buf.last, if len > 0 then pred else buf.lastWithDataPred, buf.totalLen + len, g, buf.foot);
    ShapeFrom(buf);
  }

  lemma GrownParts(v: View, i: nat, data: seq<byte>)
    requires v.Ok() && v.lwd <= i < |v.chains| == |v.bytes|
    ensures v.Distinct()
    ensures Grown(v, i, data).chains == v.chains && Grown(v, i, data).lwd == if data != [] then i else v.lwd
    ensures |Grown(v, i, data).bytes| == |v.bytes|
  {
  }

  /** The first pass of evbuffer_commit_space: are the vectors where they should be? */
  method CheckVecs(buf: Evbuffer, first: Chain?, vecs: seq<Iovec>, ghost f: nat) returns (ok: bool)
    requires buf.Shape() && f <= |buf.view.chains|
    requires first == if f < |buf.view.chains| then buf.view.chains[f] else null
    ensures ok <==> FitFrom(buf.view.chains, f, vecs)
  {
    hide Chain.Holds, Flatten;
    var chain := first;
    for i := 0 to |vecs|
      invariant f + i <= |buf.view.chains|
      invariant chain == if f + i < |buf.view.chains| then buf.view.chains[f + i] else null
      invariant forall j {:trigger vecs[j]} :: 0 <= j < i ==> InSpace(buf.view.chains[f + j], vecs[j])
    {
      if chain == null {
        return false;
      }
      if vecs[i].memory != chain.buffer || vecs[i].at != chain.misalign + chain.off {
        return false;
      }
      if vecs[i].at + vecs[i].len > chain.buffer.Length {
        return false;
      }
      chain := chain.next;
    }
    return true;
  }

  /** One step of the second pass. */
  method ClaimVec(buf: Evbuffer, chain: Chain, pred: Chain?, vecs: seq<Iovec>, i: nat, ghost f: nat)
    requires buf.Shape() && i < |vecs| && f + |vecs| <= |buf.view.chains| && buf.view.lwd <= f + i
    requires chain == buf.view.chains[f + i] && pred == buf.view.Pred(f + i)
    requires forall j {:trigger vecs[j]} :: i <= j < |vecs| ==> InSpace(buf.view.chains[f + j], vecs[j])
    modifies buf`lastWithDataPred, buf`totalLen, buf`view, buf`last, buf`foot, chain`off
    ensures buf.Shape() && buf.foot == old(buf.foot) && buf.last == old(buf.last)
    ensures buf.view.chains == old(buf.view.chains) && buf.view.lwd <= f + i
    ensures buf.totalLen == old(buf.totalLen) + vecs[i].len
    ensures forall j {:trigger vecs[j]} :: i < j < |vecs| ==> InSpace(buf.view.chains[f + j], vecs[j])
    ensures buf.Contents() == old(buf.Contents()) + Piece(vecs[i])
    ensures chain.next == if f + i + 1 < |buf.view.chains| then buf.view.chains[f + i + 1] else null
  {
    hide Evbuffer.Shape, Evbuffer.ShapeButLast, Evbuffer.Contents, View.Ok, View.Within, View.OnHeap, View.Pred;
    OtherChains(buf);
    assert InSpace(chain, vecs[i]);
    Claim(buf, chain, pred, f + i, vecs[i].len);
    ShapeParts(buf);
    NodeAt(buf, f + i);
    NextIs(buf, f + i);
  }

  /** The second pass of evbuffer_commit_space: adjust all the chains. */
  method ClaimVecs(buf: Evbuffer, first: Chain?, firstPred: Chain?, vecs: seq<Iovec>, ghost f: nat) returns (added: nat)
    requires buf.Shape() && buf.view.lwd <= f && FitFrom(buf.view.chains, f, vecs)
    requires first == if f < |buf.view.chains| then buf.view.chains[f] else null
    requires firstPred == buf.view.Pred(f)
    modifies buf`lastWithDataPred, buf`totalLen, buf`view, buf`last, buf`foot, buf.view.chains`off
    ensures buf.Shape() && buf.foot == old(buf.foot) && added == Total(vecs)
    ensures buf.totalLen == old(buf.totalLen) + added
    ensures buf.Contents() == old(buf.Contents()) + old(Written(vecs))
  {
    hide Evbuffer.Shape, Evbuffer.Contents, View.Pred, InSpace, FitFrom, Total, Written, Piece;
    var chain, pred := first, firstPred;
    added := 0;
    ghost var s, chains, parts := buf.Contents(), buf.view.chains, Parts(vecs);
    PartsAre(vecs);
    assert s + [] == s && vecs[..0] == [];
    NothingYet(chains, f, vecs);
    for i := 0 to |vecs|
      invariant buf.Shape() && buf.foot == old(buf.foot) && buf.view.chains == chains && buf.view.lwd <= f + i
      invariant f + |vecs| <= |chains| && chain == if f + i < |chains| then chains[f + i] else null
      invariant f + i <= |chains| && pred == buf.view.Pred(f + i)
      invariant forall j {:trigger vecs[j]} :: i <= j < |vecs| ==> InSpace(chains[f + j], vecs[j])
      invariant added == Total(vecs[..i]) && buf.totalLen == old(buf.totalLen) + added
      invariant buf.Contents() == s + parts[i]
    {
      TotalFurther(vecs, i);
      assert s + parts[i] + Piece(vecs[i]) == s + parts[i + 1];
      ClaimVec(buf, chain, pred, vecs, i, f);
      PredOf(buf.view, f + i + 1);
      added := added + vecs[i].len;
      pred := chain;
      chain := chain.next;
    }
    assert vecs[..|vecs|] == vecs;
  }

  /** What is written by the first vectors, for any number of them. */
  ghost function Parts(vecs: seq<Iovec>): (parts: seq<seq<byte>>)
    reads set j | 0 <= j < |vecs| :: vecs[j].memory
    ensures |parts| == |vecs| + 1 && parts[|vecs|] == Written(vecs)
  {
    (if vecs == [] then [] else Parts(vecs[..|vecs| - 1])) + [Written(vecs)]
  }

  lemma {:induction false} PartsAre(vecs: seq<Iovec>)
    ensures Parts(vecs)[0] == []
    ensures forall i :: 0 <= i < |vecs| ==> Parts(vecs)[i + 1] == Parts(vecs)[i] + Piece(vecs[i])
  {
    hide Piece;
    if vecs != [] {
      PartsAre(vecs[..|vecs| - 1]);
    }
  }

  lemma NothingYet(chains: seq<Chain>, f: nat, vecs: seq<Iovec>)
    requires FitFrom(chains, f, vecs)
    ensures f + |vecs| <= |chains| && Total([]) == 0 && Written([]) == []
    ensures forall j {:trigger vecs[j]} :: 0 <= j < |vecs| ==> InSpace(chains[f + j], vecs[j])
  {
  }

  lemma TotalFurther(vecs: seq<Iovec>, i: nat)
    requires i < |vecs|
    ensures Total(vecs[..i + 1]) == Total(vecs[..i]) + vecs[i].len
  {
    assert vecs[..i + 1][..i] == vecs[..i];
  }

  lemma PredOf(v: View, i: nat)
    requires 0 < i <= |v.chains|
    ensures v.Pred(i) == v.chains[i - 1]
  {
  }

  /** The list after `data` went in at the end of chain number `i`, the mark not moved yet. */
  ghost function Unmarked(v: View, i: nat, data: seq<byte>): View
    requires i < |v.bytes|
  {
    v.(bytes := v.bytes[i := v.bytes[i] + data])
  }

  lemma UnmarkedOk(v: View, foot: set<object>, data: seq<byte>)
    requires v.Ok() && v.Within(foot) && v.chains != []
    ensures |v.bytes| == |v.chains| && v.Distinct() && v.lwd < |v.chains|
    ensures var i := |v.chains| - 1; var u := Unmarked(v, i, data);
      && u.Within(foot) && u.Distinct() && |u.bytes| == |u.chains| && u.lwd == v.lwd && u.chains == v.chains
      && (u.lwd > 0 ==> u.bytes[u.lwd] != []) && Flatten(u.bytes) == Flatten(v.bytes) + data
      && u.Head() == v.Head() && u.Pred(u.lwd) == v.Pred(v.lwd) && u.Pred(|u.chains|) == v.chains[i]
      && Grown(v, i, data).chains == u.chains && Grown(v, i, data).bytes == u.bytes && Grown(v, i, data).Within(foot)
  {
    FlattenExtend(v.bytes, |v.chains| - 1, data);
    hide Flatten;
  }

  /** evbuffer_commit_space for a single vector behind the data of the last chain. */
  method ClaimLast(buf: Evbuffer, len: nat)
    requires buf.Shape() && buf.view.chains != [] && buf.last != null
    requires buf.last.misalign + buf.last.off + len <= buf.last.buffer.Length
    modifies buf`lastWithDataPred, buf`totalLen, buf`view, buf`last, buf`foot, buf.view.chains`off
    ensures buf.Shape() && buf.foot == old(buf.foot) && buf.totalLen == old(buf.totalLen) + len
    ensures buf.Contents() == old(buf.Contents()) + old(Piece(Iovec(buf.last.buffer, buf.last.misalign + buf.last.off, len)))
  {
    hide Evbuffer.Shape, Evbuffer.ShapeButLast, Evbuffer.Contents, View.Ok, View.Within, View.OnHeap, Chain.Holds;
    hide Flatten, Grown, Unmarked, View.Head, View.Distinct;
    ShapeParts(buf);
    ghost var v, foot, i := buf.view, buf.foot, |buf.view.chains| - 1;
    NodeAt(buf, i);
    var c := buf.last;
    ghost var data := c.buffer[c.misalign + c.off..c.misalign + c.off + len];
    UnmarkedOk(v, foot, data);
    ClaimNode(c, v, foot, i, len, data);
    ghost var u, lwd := Unmarked(v, i, data), v.lwd;
    var n;
    SameOnHeap(Grown(v, i, data), foot, u, foot);
    if len > 0 {
      n, lwd := AdvanceLastWithData(buf, u, foot);
    } else {
      assert data == [];
      UnmarkedSame(v, i);
    }
    MarkedIs(u, foot, lwd);
    SetHeader(buf, buf.last, buf.lastWithDataPred, buf.totalLen + len, u.(lwd := lwd), foot);
    ShapeFrom(buf);
  }

  lemma UnmarkedSame(v: View, i: nat)
    requires i < |v.bytes| && v.Ok()
    ensures Unmarked(v, i, []) == v && v.Marked() && v.(lwd := v.lwd) == v
  {
    assert v.bytes[i] + [] == v.bytes[i];
  }

  lemma MarkedIs(u: View, foot: set<object>, lwd: nat)
    requires |u.bytes| == |u.chains| && u.Within(foot) && u.Distinct() && u.OnHeap(foot) && u.(lwd := lwd).Marked()
    ensures var m := u.(lwd := lwd);
      && m.Ok() && m.Within(foot) && m.OnHeap(foot) && m.Head() == u.Head() && lwd <= |u.chains|
      && m.Pred(lwd) == u.Pred(lwd) && m.Pred(|m.chains|) == u.Pred(|u.chains|)
  {
    hide Chain.Holds;
  }

  /** evbuffer_commit_space */
  method CommitSpace(buf: Evbuffer, vecs: seq<Iovec>) returns (result: int)
    requires buf.Valid()
    modifies buf, buf.foot
    ensures buf.Valid() && buf.foot == old(buf.foot)
    ensures buf.freezeStart == old(buf.freezeStart) && buf.freezeEnd == old(buf.freezeEnd)
    ensures result == if old(!buf.freezeEnd && Accepted(buf, vecs)) then 0 else -1
    ensures buf.Contents() == if result == 0 then old(buf.Contents()) + old(Written(vecs)) else old(buf.Contents())
    ensures if result == 0 && vecs != [] then buf.Told(|old(Written(vecs))|, 0) else buf.Silent()
  {
    hide Evbuffer.Valid, Evbuffer.Shape, Evbuffer.ShapeButLast, Evbuffer.Contents, Evbuffer.Reported;
    hide View.Ok, View.Within, View.OnHeap, Chain.Holds, View.Pred, FirstRoom, Piece, Flatten;
    if buf.freezeEnd {
      return -1;
    }
    if |vecs| == 0 {
      ghost var s := buf.Contents();
      assert s + [] == s;
      return 0;
    }
    ValidParts(buf);
    ShapeParts(buf);
    LastIs(buf);
    if |vecs| == 1 && buf.last != null && vecs[0].memory == buf.last.buffer && vecs[0].at == buf.last.misalign + buf.last.off {
      if vecs[0].at + vecs[0].len > buf.last.buffer.Length {
        NotAccepted(buf, vecs);
        return -1;
      }
      ghost var s := buf.Contents();
      OnePiece(vecs);
      ClaimLast(buf, vecs[0].len);
      ShapeParts(buf);
      Count(buf, vecs[0].len, 0);
      return 0;
    }
    result := CommitGeneral(buf, vecs);
  }

  twostate lemma {:induction false} WrittenSame(vecs: seq<Iovec>)
    requires forall j :: 0 <= j < |vecs| ==> unchanged(vecs[j].memory)
    ensures Written(vecs) == old(Written(vecs))
  {
    if vecs != [] {
      WrittenSame(vecs[..|vecs| - 1]);
    }
  }

  lemma LastIs(buf: Evbuffer)
    requires buf.Shape()
    ensures buf.view.chains != [] ==> buf.last == buf.view.chains[|buf.view.chains| - 1]
    ensures buf.view.chains == [] ==> buf.last == null
  {
  }

  lemma OnePiece(vecs: seq<Iovec>)
    requires |vecs| == 1
    ensures Written(vecs) == Piece(vecs[0])
  {
    assert vecs[..0] == [];
    assert Written(vecs) == [] + Piece(vecs[0]);
  }

  /** A vector behind the data of the last chain that is too long fits nowhere. */
  lemma NotAccepted(buf: Evbuffer, vecs: seq<Iovec>)
    requires buf.Shape() && |vecs| == 1 && buf.view.chains != []
    requires vecs[0].memory == buf.view.chains[|buf.view.chains| - 1].buffer
    requires vecs[0].at + vecs[0].len > vecs[0].memory.Length
    ensures !Accepted(buf, vecs)
  {
  }

  method CommitGeneral(buf: Evbuffer, vecs: seq<Iovec>) returns (result: int)
    requires buf.Valid() && vecs != []
    requires !(|vecs| == 1 && buf.view.chains != [] && InSpace(buf.view.chains[|buf.view.chains| - 1], vecs[0]))
    modifies buf, buf.foot
    ensures buf.Valid() && buf.foot == old(buf.foot)
    ensures buf.freezeStart == old(buf.freezeStart) && buf.freezeEnd == old(buf.freezeEnd)
    ensures result == if old(Accepted(buf, vecs)) then 0 else -1
    ensures buf.Contents() == if result == 0 then old(buf.Contents()) + old(Written(vecs)) else old(buf.Contents())
    ensures if result == 0 then buf.Told(|old(Written(vecs))|, 0) else buf.Silent()
  {
    hide Evbuffer.Valid, Evbuffer.Shape, Evbuffer.ShapeButLast, Evbuffer.Contents, Evbuffer.Reported;
    hide View.Ok, View.Within, View.OnHeap, Chain.Holds, View.Pred, FirstRoom, Written, InSpace, FitFrom, Flatten;
    ValidParts(buf);
    ShapeParts(buf);
    var first, pred := buf.LastWithData(), buf.lastWithDataPred;
    if first == null {
      return -1;
    }
    ghost var f := FirstRoom(buf.view.chains, buf.view.lwd);
    NodeAt(buf, buf.view.lwd);
    RoomIs(buf);
    if first.SpaceLen() == 0 {
      pred := first;
      first := first.next;
    }
    var ok := CheckVecs(buf, first, vecs, f);
    if !ok {
      return -1;
    }
    WrittenSame(vecs);
    ClaimAll(buf, first, pred, vecs, f);
    return 0;
  }

  /** Claim all vectors, and tell the callbacks. */
  method ClaimAll(buf: Evbuffer, first: Chain?, firstPred: Chain?, vecs: seq<Iovec>, ghost f: nat)
    requires buf.Valid() && buf.view.lwd <= f && FitFrom(buf.view.chains, f, vecs)
    requires first == if f < |buf.view.chains| then buf.view.chains[f] else null
    requires firstPred == buf.view.Pred(f)
    modifies buf`lastWithDataPred, buf`totalLen, buf`view, buf`last, buf`foot, buf.view.chains`off
    modifies buf`nAddForCb, buf`nDelForCb, buf`reports, buf`early, buf`cbBase
    ensures buf.Valid() && buf.foot == old(buf.foot) && buf.Told(|old(Written(vecs))|, 0)
    ensures buf.Contents() == old(buf.Contents()) + old(Written(vecs))
  {
    hide Evbuffer.Valid, Evbuffer.Shape, Evbuffer.Contents, Evbuffer.Reported, View.Pred, FitFrom, Written, Total;
    ValidParts(buf);
    var added := ClaimVecs(buf, first, firstPred, vecs, f);
    ShapeParts(buf);
    Count(buf, added, 0);
  }

  lemma RoomIs(buf: Evbuffer)
    requires buf.Shape() && buf.view.chains != []
    ensures buf.view.lwd < |buf.view.chains|
    ensures var f := FirstRoom(buf.view.chains, buf.view.lwd); var c := buf.view.chains[buf.view.lwd];
      && c.misalign + c.off <= c.buffer.Length
      && f == (if c.SpaceLen() == 0 then buf.view.lwd + 1 else buf.view.lwd) && f <= |buf.view.chains|
      && buf.view.Pred(f) == (if c.SpaceLen() == 0 then c else buf.lastWithDataPred)
      && (if f < |buf.view.chains| then buf.view.chains[f] else null) == if c.SpaceLen() == 0 then c.next else c
  {
  }

  /** What evbuffer_reserve_space answers; a failed EVUTIL_ASSERT ends the program. */
  datatype Reservation = Refused | Aborted | Offered(vecs: seq<Iovec>)

  /** The vectors are all the free memory of consecutive chains, from the first one with room on. */
  ghost predicate Offers(buf: Evbuffer, vecs: seq<Iovec>)
    reads buf, buf.view.chains
  {
    && buf.view.lwd < |buf.view.chains|
    && FitFrom(buf.view.chains, FirstRoom(buf.view.chains, buf.view.lwd), vecs)
    && forall j {:trigger vecs[j]} :: 0 <= j < |vecs| ==> vecs[j].at + vecs[j].len == vecs[j].memory.Length
  }

  /** The vectors lie in the free memory of consecutive chains, and all but the last take all of it. */
  ghost predicate Exactly(buf: Evbuffer, vecs: seq<Iovec>)
    reads buf, buf.view.chains
  {
    && buf.view.lwd < |buf.view.chains|
    && ExactlyFrom(buf.view.chains, FirstRoom(buf.view.chains, buf.view.lwd), vecs)
  }

  ghost predicate ExactlyFrom(chains: seq<Chain>, f: nat, vecs: seq<Iovec>)
    reads chains`misalign, chains`off
  {
    && FitFrom(chains, f, vecs)
    && forall j {:trigger vecs[j]} :: 0 <= j < |vecs| - 1 ==> vecs[j].at + vecs[j].len == vecs[j].memory.Length
  }

  /**
   evbuffer_read_setup_vecs_: all the free memory of the chains up to the one where there is as
   much as asked for, or, if `exact`, of that one only what is missing. A negative size is refused.
   */
  method ReadSetupVecs(buf: Evbuffer, howmuch: int, n: nat, exact: bool) returns (result: Reservation)
    requires buf.Shape() && (howmuch >= 0 ==> Ready(buf, howmuch, n))
    ensures result.Refused? <==> howmuch < 0
    ensures result.Aborted? <==> howmuch >= 0 && NoRoomLeft(buf)
    ensures result.Offered? ==> |result.vecs| <= n && Total(result.vecs) >= howmuch
    ensures result.Offered? && exact ==> Exactly(buf, result.vecs) && Total(result.vecs) == howmuch
    ensures result.Offered? && !exact ==> Offers(buf, result.vecs)
  {
    hide *;
    if howmuch < 0 {
      return Refused;
    }
    ghost var chains, lwd, k, rooms := SetupFacts(buf, howmuch, n);
    var chain := buf.LastWithData();
    RoomIs(buf);
    NodeAt(buf, lwd);
    ghost var f := FirstRoom(chains, lwd);
    if chain.SpaceLen() == 0 {
      chain := chain.next;
    }
    if chain == null {
      FullHasData(buf);
      return Aborted;
    }
    RoomLeft(buf);
    var vecs, soFar, i := [], 0, 0;
    NoVecs(chains, f, rooms);
    while i < n && soFar < howmuch
      invariant |vecs| == i <= n && i <= |rooms| && soFar == Total(vecs)
      invariant if soFar < howmuch || !exact then soFar == Sum(rooms[..i]) else soFar == howmuch
      invariant f + i <= |chains| && chain == if f + i < |chains| then chains[f + i] else null
      invariant if soFar < howmuch || !exact then OfferedFrom(chains, f, vecs) else ExactlyFrom(chains, f, vecs)
    {
      WholeSlice(rooms, i);
      RoomHere(chains, lwd, k, rooms, i);
      NodeAt(buf, f + i);
      NextIs(buf, f + i);
      var avail := chain.buffer.Length - (chain.misalign + chain.off);
      var v := Iovec(chain.buffer, chain.misalign + chain.off, if avail > howmuch - soFar && exact then howmuch - soFar else avail);
      SpaceOf(chain, v);
      OneMoreVec(chains, f, vecs, v);
      assert rooms[..i + 1] == rooms[..i] + [rooms[i]];
      SumStep(rooms[..i], rooms[i]);
      vecs := vecs + [v];
      soFar := soFar + v.len;
      chain := chain.next;
      i := i + 1;
    }
    WholeSlice(rooms, i);
    OffersNow(buf, vecs);
    result := Offered(vecs);
  }

  ghost predicate OfferedFrom(chains: seq<Chain>, f: nat, vecs: seq<Iovec>)
    reads chains`misalign, chains`off
  {
    && FitFrom(chains, f, vecs)
    && forall j {:trigger vecs[j]} :: 0 <= j < |vecs| ==> vecs[j].at + vecs[j].len == vecs[j].memory.Length
  }

  lemma SetupFacts(buf: Evbuffer, howmuch: nat, n: nat)
      returns (chains: seq<Chain>, lwd: nat, k: nat, rooms: seq<nat>)
    requires buf.Shape() && Ready(buf, howmuch, n)
    ensures buf.ShapeButLast() && chains == buf.view.chains && lwd == buf.view.lwd < |chains|
    ensures |rooms| <= n && Sum(rooms) >= howmuch && lwd < k && Rooms(chains, lwd, k, rooms) && Aligned(chains[lwd])
  {
    chains, lwd := buf.view.chains, buf.view.lwd;
    k, rooms :| |rooms| <= n && Sum(rooms) >= howmuch && lwd < k && Rooms(chains, lwd, k, rooms);
  }

  lemma NoVecs(chains: seq<Chain>, f: nat, rooms: seq<nat>)
    requires f <= |chains|
    ensures OfferedFrom(chains, f, []) && ExactlyFrom(chains, f, []) && Total([]) == 0 && Sum(rooms[..0]) == 0
  {
  }

  lemma SpaceOf(c: Chain, v: Iovec)
    requires v.memory == c.buffer && v.at == c.misalign + c.off && v.at + v.len <= c.buffer.Length
    ensures InSpace(c, v)
  {
  }

  lemma WholeSlice(rooms: seq<nat>, i: nat)
    requires i <= |rooms|
    ensures i == |rooms| ==> Sum(rooms[..i]) == Sum(rooms)
  {
    assert i == |rooms| ==> rooms[..i] == rooms;
  }

  lemma OneMoreVec(chains: seq<Chain>, f: nat, vecs: seq<Iovec>, v: Iovec)
    requires OfferedFrom(chains, f, vecs) && f + |vecs| < |chains| && InSpace(chains[f + |vecs|], v)
    ensures ExactlyFrom(chains, f, vecs + [v]) && Total(vecs + [v]) == Total(vecs) + v.len
    ensures v.at + v.len == v.memory.Length ==> OfferedFrom(chains, f, vecs + [v])
  {
    hide InSpace, Total;
    TotalStep(vecs, v);
    forall j | 0 <= j < |vecs| + 1
      ensures InSpace(chains[f + j], (vecs + [v])[j])
      ensures j < |vecs| ==> (vecs + [v])[j].at + (vecs + [v])[j].len == (vecs + [v])[j].memory.Length
    {
      if j < |vecs| {
        assert (vecs + [v])[j] == vecs[j];
      }
    }
  }

  lemma OffersNow(buf: Evbuffer, vecs: seq<Iovec>)
    requires buf.view.lwd < |buf.view.chains|
    ensures OfferedFrom(buf.view.chains, FirstRoom(buf.view.chains, buf.view.lwd), vecs) ==> Offers(buf, vecs) && Exactly(buf, vecs)
    ensures ExactlyFrom(buf.view.chains, FirstRoom(buf.view.chains, buf.view.lwd), vecs) ==> Exactly(buf, vecs)
  {
  }

  lemma TotalStep(vecs: seq<Iovec>, v: Iovec)
    ensures Total(vecs + [v]) == Total(vecs) + v.len
  {
    assert (vecs + [v])[..|vecs|] == vecs;
  }

  lemma RoomHere(chains: seq<Chain>, lwd: nat, k: nat, rooms: seq<nat>, i: nat)
    requires lwd < |chains| && lwd < k && Rooms(chains, lwd, k, rooms) && i < |rooms|
    ensures var f := FirstRoom(chains, lwd);
      f + i < |chains| && rooms[i] == chains[f + i].buffer.Length - (chains[f + i].misalign + chains[f + i].off)
  {
  }

  /** A full chain has data. */
  lemma FullHasData(buf: Evbuffer)
    requires buf.Shape() && buf.view.chains != []
    requires FirstRoom(buf.view.chains, buf.view.lwd) == |buf.view.chains|
    requires buf.view.lwd < |buf.view.chains| && Aligned(buf.view.chains[buf.view.lwd])
    ensures NoRoomLeft(buf)
  {
  }

  lemma RoomLeft(buf: Evbuffer)
    requires buf.Shape() && buf.view.chains != []
    requires FirstRoom(buf.view.chains, buf.view.lwd) < |buf.view.chains|
    ensures !NoRoomLeft(buf)
  {
  }

  /** A signed size, passed on as a size_t. */
  function ToSize(n: int): (r: nat)
    requires n >= SSIZE_MIN
    ensures n >= 0 ==> r == n
    ensures n < 0 ==> r > MAX_ALLOC
  {
    if n < 0 then n + SIZE_MAX + 1 else n
  }

  /** evbuffer_reserve_space */
  method ReserveSpace(buf: Evbuffer, size: int, n: int) returns (result: Reservation)
    requires buf.Valid() && SSIZE_MIN <= size <= SSIZE_MAX
    modifies buf, buf.foot
    ensures buf.Valid() && fresh(buf.foot - old(buf.foot)) && buf.Contents() == old(buf.Contents()) && buf.Silent()
    ensures buf.freezeStart == old(buf.freezeStart) && buf.freezeEnd == old(buf.freezeEnd)
    ensures buf.freezeEnd || n < 1 || size < 0 ==> !result.Offered?
    ensures !buf.freezeEnd && n >= 1 && 0 <= size <= MAX_ALLOC - MAX_TO_COPY_IN_EXPAND ==> !result.Refused?
    ensures result.Aborted? <==> !buf.freezeEnd && n >= 2 && size == 0 && old(NoRoomLeft(buf))
    ensures result.Offered? ==> |result.vecs| <= n && Total(result.vecs) >= size
    ensures result.Offered? && n >= 2 ==> Offers(buf, result.vecs)
    ensures result.Offered? && n == 1 ==> |result.vecs| == 1
    ensures result.Offered? && n == 1 ==> exists i :: buf.view.lwd <= i < |buf.view.chains| && InSpace(buf.view.chains[i], result.vecs[0])
  {
    hide Evbuffer.Valid, Evbuffer.Shape, Evbuffer.Contents, Evbuffer.Reported, Chain.Holds;
    hide Ready, NoRoomLeft, FirstRoom, FitFrom;
    if buf.freezeEnd || n < 1 {
      return Refused;
    }
    ValidParts(buf);
    if n == 1 {
      result := ReserveOne(buf, size);
      return;
    }
    var r := ExpandFast(buf, ToSize(size), n);
    ShapeParts(buf);
    ValidFrom(buf);
    if r < 0 || size < 0 {
      return Refused;
    }
    if size > 0 {
      ReadyHasRoom(buf, size, n);
    }
    result := ReadSetupVecs(buf, size, n, false);
  }

  lemma ReadyHasRoom(buf: Evbuffer, howmuch: nat, n: nat)
    requires buf.Shape() && Ready(buf, howmuch, n) && howmuch > 0
    ensures !NoRoomLeft(buf)
  {
    var chains, lwd, k, rooms := SetupFacts(buf, howmuch, n);
    assert Sum([]) == 0;
    assert rooms != [];
  }

  method ReserveOne(buf: Evbuffer, size: int) returns (result: Reservation)
    requires buf.Valid() && SSIZE_MIN <= size <= SSIZE_MAX
    modifies buf`first, buf`last, buf`lastWithDataPred, buf`totalLen, buf`view, buf`foot, buf.foot
    ensures buf.Valid() && fresh(buf.foot - old(buf.foot)) && buf.Contents() == old(buf.Contents())
    ensures !result.Aborted?
    ensures size < 0 || size > MAX_ALLOC ==> result.Refused?
    ensures 0 <= size <= MAX_ALLOC - MAX_TO_COPY_IN_EXPAND ==> result.Offered?
    ensures result.Offered? ==> |result.vecs| == 1 && Total(result.vecs) >= size
    ensures result.Offered? ==> exists i :: buf.view.lwd <= i < |buf.view.chains| && InSpace(buf.view.chains[i], result.vecs[0])
  {
    hide Evbuffer.Valid, Evbuffer.Shape, Evbuffer.Contents, Evbuffer.Reported, Chain.Holds;
    ValidParts(buf);
    var chain := ExpandSinglechain(buf, ToSize(size));
    ShapeParts(buf);
    ValidFrom(buf);
    if chain == null {
      return Refused;
    }
    var v := Iovec(chain.buffer, chain.misalign + chain.off, chain.SpaceLen());
    TotalStep([], v);
    assert [] + [v] == [v];
    result := Offered([v]);
  }

  /** Store `data` where the vector points, as a caller of evbuffer_reserve_space does. */
  method Store(buf: Evbuffer, vecs: seq<Iovec>, i: nat, data: seq<byte>)
    requires buf.Valid() && Offers(buf, vecs) && i < |vecs| && |data| <= vecs[i].len
    modifies vecs[i].memory
    ensures buf.Valid() && Offers(buf, vecs) && vecs[i].at + |data| <= vecs[i].memory.Length
    ensures vecs[i].memory[vecs[i].at..vecs[i].at + |data|] == data
    ensures forall j {:trigger vecs[j]} :: 0 <= j < |vecs| && j != i ==> vecs[j].memory != vecs[i].memory
  {
    hide Evbuffer.Valid, Evbuffer.Shape, Evbuffer.Reported, Chain.Holds, FirstRoom, Flatten;
    ValidParts(buf);
    ShapeParts(buf);
    ghost var k := FirstRoom(buf.view.chains, buf.view.lwd) + i;
    assert InSpace(buf.view.chains[k], vecs[i]);
    MemoriesDiffer(buf);
    StoreBehind(buf, buf.view.chains[k], k, vecs[i].memory, vecs[i].at, data);
    ValidFrom(buf);
  }

  lemma MemoriesDiffer(buf: Evbuffer)
    requires buf.Shape()
    ensures forall i, j :: 0 <= i < j < |buf.view.chains| ==> buf.view.chains[i].buffer != buf.view.chains[j].buffer
  {
  }

  /** Writing behind the data of a chain changes nothing that the buffer holds. */
  method StoreBehind(buf: Evbuffer, ghost c: Chain, ghost k: nat, memory: array<byte>, at: nat, data: seq<byte>)
    requires buf.Shape() && k < |buf.view.chains| && c == buf.view.chains[k] && memory == c.buffer
    requires at == c.misalign + c.off && at + |data| <= memory.Length
    modifies memory
    ensures buf.Shape() && memory[at..at + |data|] == data
  {
    hide *;
    ShapeParts(buf);
    NodeAt(buf, k);
    StoreNode(c, buf.view, buf.foot, k, memory, at, data);
    ShapeFrom(buf);
  }

  method StoreNode(ghost c: Chain, ghost v: View, ghost foot: set<object>, ghost k: nat, memory: array<byte>, at: nat, data: seq<byte>)
    requires |v.bytes| == |v.chains| && v.Distinct() && v.Within(foot) && v.OnHeap(foot)
    requires k < |v.chains| && v.chains[k] == c && memory == c.buffer
    requires at == c.misalign + c.off && at + |data| <= memory.Length
    modifies memory
    ensures v.OnHeap(foot) && memory[at..at + |data|] == data
  {
    hide Chain.Holds;
    StoreFree(c, v.bytes[k], memory, at, data);
  }

  method StoreFree(ghost c: Chain, ghost b: seq<byte>, memory: array<byte>, at: nat, data: seq<byte>)
    requires c.Holds(b) && memory == c.buffer && at == c.misalign + c.off && at + |data| <= memory.Length
    modifies memory
    ensures c.Holds(b) && memory[at..at + |data|] == data
  {
    Memcpy(memory, at, data);
  }

  /** The first vectors, cut down to the lengths of `data`. */
  function Cut(vecs: seq<Iovec>, data: seq<seq<byte>>): (r: seq<Iovec>)
    requires |data| <= |vecs|
  {
    seq(|data|, j requires 0 <= j < |data| => vecs[j].(len := |data[j]|))
  }

  lemma {:induction false} CutWritten(vecs: seq<Iovec>, data: seq<seq<byte>>)
    requires |data| <= |vecs|
    requires forall j :: 0 <= j < |data| ==>
      vecs[j].at + |data[j]| <= vecs[j].memory.Length && vecs[j].memory[vecs[j].at..vecs[j].at + |data[j]|] == data[j]
    ensures Written(Cut(vecs, data)) == Flatten(data)
  {
    if data != [] {
      var n := |data| - 1;
      CutWritten(vecs, data[..n]);
      assert Cut(vecs, data)[..n] == Cut(vecs, data[..n]);
      assert data == data[..n] + [data[n]];
      FlattenAppend(data[..n], [data[n]]);
      FlattenOne(data[n]);
    }
  }

  lemma CutAccepted(buf: Evbuffer, vecs: seq<Iovec>, data: seq<seq<byte>>)
    requires Offers(buf, vecs) && |data| <= |vecs| && forall j :: 0 <= j < |data| ==> |data[j]| <= vecs[j].len
    ensures Accepted(buf, Cut(vecs, data))
  {
    var f := FirstRoom(buf.view.chains, buf.view.lwd);
    forall j | 0 <= j < |data|
      ensures InSpace(buf.view.chains[f + j], Cut(vecs, data)[j])
    {
      assert InSpace(buf.view.chains[f + j], vecs[j]);
    }
  }

  /** What is written into offered vectors and committed is appended, whatever is left unused. */
  method StoreAndCommit(buf: Evbuffer, vecs: seq<Iovec>, data: seq<seq<byte>>) returns (result: int)
    requires buf.Valid() && !buf.freezeEnd && Offers(buf, vecs)
    requires |data| <= |vecs| && forall j :: 0 <= j < |data| ==> |data[j]| <= vecs[j].len
    modifies buf, buf.foot
    ensures buf.Valid() && buf.foot == old(buf.foot)
    ensures result == 0 && buf.Contents() == old(buf.Contents()) + Flatten(data)
    ensures if data == [] then buf.Silent() else buf.Told(|Flatten(data)|, 0)
  {
    hide Evbuffer.Valid, Offers, Evbuffer.Contents, Accepted, Written, Flatten;
    VecsDiffer(buf, vecs);
    for i := 0 to |data|
      invariant buf.Valid() && Offers(buf, vecs) && buf.foot == old(buf.foot) && buf.view == old(buf.view)
      invariant !buf.freezeEnd && buf !in buf.foot && buf.Silent()
      invariant forall j {:trigger vecs[j]} :: 0 <= j < |vecs| ==> vecs[j].memory in buf.foot
      invariant forall j :: 0 <= j < i ==> vecs[j].at + |data[j]| <= vecs[j].memory.Length
      invariant forall j :: 0 <= j < i ==> vecs[j].memory[vecs[j].at..vecs[j].at + |data[j]|] == data[j]
    {
      Store(buf, vecs, i, data[i]);
    }
    CutWritten(vecs, data);
    CutAccepted(buf, vecs, data);
    result := CommitSpace(buf, Cut(vecs, data));
  }

  lemma VecsDiffer(buf: Evbuffer, vecs: seq<Iovec>)
    requires buf.Valid() && Offers(buf, vecs)
    ensures buf !in buf.foot
    ensures forall j {:trigger vecs[j]} :: 0 <= j < |vecs| ==> vecs[j].memory in buf.foot
  {
    var f := FirstRoom(buf.view.chains, buf.view.lwd);
    forall j {:trigger vecs[j]} | 0 <= j < |vecs|
      ensures vecs[j].memory in buf.foot
    {
      NodeAt(buf, f + j);
      assert InSpace(buf.view.chains[f + j], vecs[j]);
    }
  }

  /**
   For one: 976 bytes fill the first chain of a new buffer, and reserving nothing in two vectors
   then runs into the assertion.
   */
  method ReserveNothing(data: seq<byte>) returns (buf: Evbuffer, result: Reservation)
    requires |data| == MIN_BUFFER_SIZE - CHAIN_SIZE
    ensures fresh(buf) && buf.Valid() && buf.Contents() == data && result == Aborted
  {
    hide Evbuffer.Valid, Evbuffer.Contents, NoRoomLeft;
    buf := new Evbuffer(NoCallbacks);
    var added := Add(buf, data);
    assert [] + data == data;
    OnlyChainFull(buf);
    result := ReserveSpace(buf, 0, 2);
  }

  lemma OnlyChainFull(buf: Evbuffer)
    requires buf.Valid() && |buf.view.chains| == 1 && buf.view.chains[0].buffer.Length == |buf.Contents()| > 0
    ensures NoRoomLeft(buf)
  {
    ValidParts(buf);
    ShapeParts(buf);
    NodeAt(buf, 0);
    FlattenOne(buf.view.bytes[0]);
    assert buf.view.bytes == [buf.view.bytes[0]];
  }
}
