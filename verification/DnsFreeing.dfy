/**
 Freeing the nameservers one by one, and cancelling their probes on the way, as
 evdns_base_clear_nameservers_and_suspend does: when a server is used that is freed already.
 */
module DnsFreeing {
  import opened Bytes
  import opened DnsRing
  import opened DnsServers
  import opened DnsResolver
  import opened DnsTraffic
  import opened DnsSending
  import opened DnsPump
  import opened DnsRequests

  ghost function Turns(s: seq<Nameserver>): (turns: seq<Turn>)
    reads s`probe, set n | n in s && n.probe != null :: n.probe
    reads (set n | n in s && n.probe != null && n.probe.current != null :: n.probe.current)`ns
    ensures |turns| == |s| && forall i :: 0 <= i < |s| ==> turns[i] == TurnOf(s[i])
  {
    if s == [] then [] else [TurnOf(s[0])] + Turns(s[1..])
  }

  /** How many probes are cancelled before turn number `i`. */
  ghost function Cancelled(turns: seq<Turn>, i: nat): (n: nat)
    requires i <= |turns|
    ensures n <= i
  {
    if i == 0 then 0 else Cancelled(turns, i - 1) + if turns[i - 1].Probe? then 1 else 0
  }

  /** Their requests. */
  ghost function Gone(turns: seq<Turn>, i: nat): set<Request>
    requires i <= |turns|
  {
    if i == 0 then {} else Gone(turns, i - 1) + if turns[i - 1].Probe? then {turns[i - 1].req} else {}
  }

  /** If the queue was not pumped before, it is at this turn: there is room, and a request to fill it. */
  ghost predicate PumpsAt(turns: seq<Turn>, i: nat, inflight: int, max: int, waits: bool)
    requires i < |turns|
  {
    turns[i].Probe? && waits && inflight - Cancelled(turns, i) - 1 < max
  }

  /** The first turn from number `i` on at which the queue is pumped, or their number if there is none. */
  ghost function FirstPump(turns: seq<Turn>, i: nat, inflight: int, max: int, waits: bool): (k: nat)
    requires i <= |turns|
    ensures i <= k <= |turns|
    decreases |turns| - i
  {
    if i == |turns| || PumpsAt(turns, i, inflight, max, waits) then i else FirstPump(turns, i + 1, inflight, max, waits)
  }

  /** The request of the probe is at a server that is freed before its turn. */
  ghost predicate Dangles(turns: seq<Turn>, s: seq<Nameserver>, i: nat)
    requires i < |turns| == |s|
  {
    turns[i].Probe? && turns[i].ns in s[..i]
  }

  lemma {:induction false} CancelledGrows(turns: seq<Turn>, i: nat, j: nat)
    requires i <= j <= |turns|
    ensures Cancelled(turns, i) <= Cancelled(turns, j)
  {
    if i < j {
      CancelledGrows(turns, i, j - 1);
    }
  }

  lemma {:induction false} GoneHas(turns: seq<Turn>, i: nat, r: Request)
    requires i <= |turns|
    ensures r in Gone(turns, i) <==> exists j :: 0 <= j < i && turns[j].Probe? && turns[j].req == r
  {
    if i > 0 {
      GoneHas(turns, i - 1, r);
    }
  }

  /** The probe's request is in flight, and no other server's probe stands for it. */
  lemma ProbeTurn(b: Base, s: seq<Nameserver>, i: nat)
    requires b.Valid() && Same(s, b.servers) && i < |s| && Distinct(s)
    ensures TurnOf(s[i]).Probe? ==>
      && TurnOf(s[i]).req in b.flying && TurnOf(s[i]).ns != null && s[i].probe in b.handles
      && s[i].probe.current == TurnOf(s[i]).req && !s[i].probe.pendingCb
      && TurnOf(s[i]).req.handle == s[i].probe
    ensures s[i].probe != null ==> s[i].probe in b.handles
    ensures s[i] in b.servers
    ensures forall j :: 0 <= j < |s| && j != i ==> s[j] != s[i] && (s[i].probe != null ==> s[j].probe != s[i].probe)
    ensures forall j :: 0 <= j < |s| && j != i && s[j].probe != null && s[j].probe.current != null ==>
      CurrentOf(s[i].probe) != {s[j].probe.current}
  {
    hide Base.Linked, Base.Counts;
    ValidIs(b);
    assert forall h :: h in b.handles ==> Standing(h, b.flying, b.queue);
    if TurnOf(s[i]).Probe? {
      WhereIs(b, TurnOf(s[i]).req);
    }
  }

  ghost function Listed(s: seq<Nameserver>): set<Nameserver> {
    set n | n in s
  }

  /**
   The turn of a server: its probe is cancelled, and it is freed. `ok` says that no server was used
   that was freed before.
   */
  method FreeServer(b: Base, ghost s: seq<Nameserver>, ghost i: nat, n: Nameserver, freed: set<Nameserver>)
      returns (ok: bool)
    requires b.Valid() && Same(s, b.servers) && Distinct(s) && i < |s| && s[i] == n && freed == Listed(s[..i])
    modifies b`waitingHead, b`queue, b`waitingCount, b`inflight, b`rings, b`flying, b`servers, b`good, b`touched, b.heads
    modifies b.queue`next, b.queue`prev, b.queue`ns, b.queue`transId, b.queue`transmitMe, b.queue`txCount
    modifies b.flying`next, b.flying`prev, b.flying`ns, b.flying`transId, b.flying`transmitMe, b.flying`txCount
    modifies b.servers`requestsInflight, b.servers`choked, b.servers`up, b.servers`failedTimes, b`handles
    modifies n`probe, n.probe, CurrentOf(n.probe)`handle
    ensures b.Valid() && Same(s, b.servers) && n.probe == null && b.handles == old(b.handles)
    ensures forall j :: 0 <= j < |s| && j != i ==> s[j].probe == old(s[j].probe) && UnchangedHandle(s[j].probe)
    ensures var t := old(TurnOf(n));
      && Outstanding(b) == old(Outstanding(b)) - (if t.Probe? then {t.req} else {})
      && (if t.Probe? then Dropped(old(n.probe)) else UnchangedHandle(old(n.probe)))
      && old(b.flying) - (if t.Probe? then {t.req} else {}) <= b.flying
      && (t.NoProbe? ==> ok)
      && (t.NoProbe? || old(b.inflight) - 1 >= b.maxInflight || old(b.queue) == [] ==>
          Quiet(b, t) && (ok <==> t.NoProbe? || t.ns !in s[..i]))
      && (t.Probe? && old(b.inflight) - 1 < b.maxInflight && old(b.queue) != [] && old(b.servers) != [] ==>
          old(b.servers)[0] in freed ==> !ok)
      && (i == 0 ==> ok)
  {
    hide Base.Valid, Same, UpSet, Flatten, Without, Outstanding, Tracked, NoneCancelled, Dropped, Distinct, TurnOf;
    ghost var t := TurnOf(n);
    ProbeTurn(b, s, i);
    NothingGone(b);
    b.touched := {};
    if n.probe != null {
      CancelProbe(b, n);
      SameThrough(s, old(b.servers), b.servers);
    }
    ok := b.touched !! freed;
  }

  lemma SameThrough(a: seq<Nameserver>, b: seq<Nameserver>, c: seq<Nameserver>)
    requires Same(a, b) && Same(b, c)
    ensures Same(a, c)
  {
    SameAgain(a, b, c);
  }

  /** What a server's probe is. */
  datatype ProbeState = ProbeState(handle: Handle?, current: Request?, pendingCb: bool, cancelled: bool)

  ghost function ProbeStateOf(n: Nameserver): ProbeState
    reads n`probe, n.probe
  {
    if n.probe == null then ProbeState(null, null, false, false)
    else ProbeState(n.probe, n.probe.current, n.probe.pendingCb, n.probe.cancelled)
  }

  /** The resolver at the beginning of the loop. */
  datatype Start = Start(
    servers: seq<Nameserver>, turns: seq<Turn>, probes: seq<ProbeState>, inflight: int, max: int,
    queue: seq<Request>, flying: set<Request>, order: seq<Request>, servedBy: map<Request, Nameserver?>)

  ghost function StartOf(b: Base): (t: Start)
    reads b, b.servers`probe, set n | n in b.servers && n.probe != null :: n.probe
    reads (set n | n in b.servers && n.probe != null && n.probe.current != null :: n.probe.current)`ns, b.flying`ns
    ensures |t.turns| == |t.probes| == |t.servers|
  {
    Start(b.servers, Turns(b.servers), ProbeStates(b.servers), b.inflight, b.maxInflight, b.queue, b.flying,
          Flatten(b.rings), ServedBy(b.flying))
  }

  ghost function ProbeStates(s: seq<Nameserver>): (p: seq<ProbeState>)
    reads s`probe, set n | n in s && n.probe != null :: n.probe
    ensures |p| == |s| && forall i :: 0 <= i < |s| ==> p[i] == ProbeStateOf(s[i])
  {
    if s == [] then [] else [ProbeStateOf(s[0])] + ProbeStates(s[1..])
  }

  ghost function ServedBy(f: set<Request>): map<Request, Nameserver?>
    reads f`ns
  {
    map r | r in f :: r.ns
  }

  /** What holds of every such beginning. */
  ghost predicate Coherent(t: Start) {
    && |t.turns| == |t.probes| == |t.servers| && Distinct(t.servers)
    && (forall i :: 0 <= i < |t.turns| ==> TurnFits(t, i))
    && (forall i, j :: 0 <= i < |t.probes| && 0 <= j < |t.probes| && i != j && t.probes[i].handle != null ==>
          t.probes[i].handle != t.probes[j].handle)
  }

  ghost predicate TurnFits(t: Start, i: nat)
    requires i < |t.turns| == |t.probes|
  {
    var p := t.probes[i];
    if p.handle == null || p.current == null || p.pendingCb then t.turns[i] == NoProbe
    else p.current in t.servedBy && t.turns[i] == Probe(p.current, t.servedBy[p.current])
  }

  ghost predicate PumpsAtStart(t: Start, i: nat)
    requires i < |t.turns|
  {
    PumpsAt(t.turns, i, t.inflight, t.max, t.queue != [])
  }

  /** Before turn number `i`, if the queue was not pumped yet: just the requests of the probes so far are gone. */
  ghost predicate Unpumped(b: Base, t: Start, i: nat)
    requires i <= |t.turns|
    reads b, b.flying`ns
  {
    && b.servers == t.servers && b.queue == t.queue && b.flying == t.flying - Gone(t.turns, i)
    && b.inflight == t.inflight - Cancelled(t.turns, i) && b.maxInflight == t.max
    && Flatten(b.rings) == Without(t.order, Gone(t.turns, i))
    && forall r :: r in b.flying ==> r in t.servedBy && r.ns == t.servedBy[r]
  }

  /** Before turn number `i`: the probes so far are cancelled, the others are as they were. */
  ghost predicate Midway(b: Base, t: Start, i: nat)
    requires i <= |t.turns|
    reads b`flying, b`queue, t.servers`probe, set p | p in t.probes && p.handle != null :: p.handle
  {
    && |t.turns| == |t.probes| == |t.servers|
    && (forall j :: i <= j < |t.servers| ==> Intact(t.servers[j], t.probes[j]))
    && (forall j :: 0 <= j < i ==> t.servers[j].probe == null && Settled(t.turns[j], t.probes[j]))
    && Outstanding(b) == t.flying + ToSet(t.queue) - Gone(t.turns, i) && t.flying - Gone(t.turns, i) <= b.flying
  }

  ghost predicate Intact(n: Nameserver, p: ProbeState)
    reads n`probe, p.handle
  {
    n.probe == p.handle && AsAtStart(p)
  }

  ghost predicate AsAtStart(p: ProbeState)
    reads p.handle
  {
    p.handle != null ==>
      p.handle.current == p.current && p.handle.pendingCb == p.pendingCb && p.handle.cancelled == p.cancelled
  }

  /** What is left of a server's probe after its turn. */
  ghost predicate Settled(turn: Turn, p: ProbeState)
    reads p.handle
  {
    if turn.Probe? then Dropped(p.handle) else AsAtStart(p)
  }

  /** The turn is what it was at the beginning, but for the server of the request once the queue was pumped. */
  lemma SameTurn(b: Base, t: Start, i: nat)
    requires b.Valid() && Same(t.servers, b.servers) && Coherent(t) && i < |t.turns| && Midway(b, t, i)
    ensures var now := TurnOf(t.servers[i]);
      && (now.Probe? <==> t.turns[i].Probe?) && (now.Probe? ==> now.req == t.turns[i].req)
      && (Unpumped(b, t, i) ==> now == t.turns[i])
    ensures t.servers[i].probe == t.probes[i].handle && Distinct(t.servers)
    ensures forall j :: 0 <= j < |t.servers| && j != i ==>
      t.servers[j] != t.servers[i] && (t.probes[i].handle != null ==> t.probes[j].handle != t.probes[i].handle)
  {
    hide Flatten, Without, Gone, Cancelled, Outstanding, Base.Linked, Base.Counts;
    assert TurnFits(t, i) && Intact(t.servers[i], t.probes[i]);
    if TurnOf(t.servers[i]).Probe? {
      ProbeTurn(b, t.servers, i);
    }
  }

  /** One turn of the loop. */
  method TakeTurn(b: Base, ghost t: Start, ghost i: nat, n: Nameserver, freed: set<Nameserver>, ghost quiet: bool) returns (ok: bool)
    requires b.Valid() && Same(t.servers, b.servers) && Coherent(t) && i < |t.turns| && n == t.servers[i]
    requires freed == Listed(t.servers[..i]) && Midway(b, t, i) && (quiet ==> Unpumped(b, t, i))
    modifies b`waitingHead, b`queue, b`waitingCount, b`inflight, b`rings, b`flying, b`servers, b`good, b`touched, b.heads
    modifies b.queue`next, b.queue`prev, b.queue`ns, b.queue`transId, b.queue`transmitMe, b.queue`txCount
    modifies b.flying`next, b.flying`prev, b.flying`ns, b.flying`transId, b.flying`transmitMe, b.flying`txCount
    modifies b.servers`requestsInflight, b.servers`choked, b.servers`up, b.servers`failedTimes, b`handles
    modifies n`probe, n.probe, CurrentOf(n.probe)`handle
    ensures b.Valid() && Same(t.servers, b.servers) && b.handles == old(b.handles) && Midway(b, t, i + 1)
    ensures quiet && !PumpsAtStart(t, i) ==> Unpumped(b, t, i + 1) && (ok <==> !Dangles(t.turns, t.servers, i))
    ensures quiet && PumpsAtStart(t, i) && i > 0 ==> !ok
    ensures i == 0 || t.turns[i].NoProbe? ==> ok
  {
    hide Base.Valid, Same, Flatten, Without, Outstanding, Tracked, TurnOf, ToSet, UpSet, Listed, Distinct;
    hide Dropped, Gone, Cancelled, Coherent, Unpumped, Midway, FirstPump, CurrentOf;
    SameTurn(b, t, i);
    MidwayIs(b, t, i);
    OneTurnMore(t, i);
    if quiet {
      UnpumpedIs(b, t, i);
    }
    ok := FreeServer(b, t.servers, i, n, freed);
    MidwayNext(b, t, i);
    if quiet && !PumpsAtStart(t, i) {
      UnpumpedNext(b, t, i);
    }
  }

  lemma MidwayIs(b: Base, t: Start, i: nat)
    requires i <= |t.turns| && Midway(b, t, i)
    ensures |t.turns| == |t.probes| == |t.servers|
    ensures forall j :: i <= j < |t.servers| ==> Intact(t.servers[j], t.probes[j])
    ensures forall j :: 0 <= j < i ==> t.servers[j].probe == null && Settled(t.turns[j], t.probes[j])
    ensures Outstanding(b) == t.flying + ToSet(t.queue) - Gone(t.turns, i) && t.flying - Gone(t.turns, i) <= b.flying
  {
  }

  lemma MidwayNext(b: Base, t: Start, i: nat)
    requires i < |t.turns| == |t.probes| == |t.servers|
    requires forall j :: i < j < |t.servers| ==> Intact(t.servers[j], t.probes[j])
    requires forall j :: 0 <= j < i ==> t.servers[j].probe == null && Settled(t.turns[j], t.probes[j])
    requires t.servers[i].probe == null && Settled(t.turns[i], t.probes[i])
    requires var gone := if t.turns[i].Probe? then {t.turns[i].req} else {};
      && Outstanding(b) == t.flying + ToSet(t.queue) - Gone(t.turns, i) - gone
      && t.flying - Gone(t.turns, i) - gone <= b.flying
    ensures Midway(b, t, i + 1)
  {
    hide Outstanding, ToSet, Gone, Intact, Settled;
    OneTurnMore(t, i);
    var gone := if t.turns[i].Probe? then {t.turns[i].req} else {};
    InTwo(t.flying + ToSet(t.queue), Gone(t.turns, i), gone);
    InTwo(t.flying, Gone(t.turns, i), gone);
  }

  lemma InTwo(all: set<Request>, a: set<Request>, b: set<Request>)
    ensures all - a - b == all - (a + b)
  {
  }

  lemma OneTurnMore(t: Start, i: nat)
    requires i < |t.turns| == |t.servers|
    ensures Gone(t.turns, i + 1) == Gone(t.turns, i) + if t.turns[i].Probe? then {t.turns[i].req} else {}
    ensures i > 0 ==> t.servers[0] in Listed(t.servers[..i])
  {
  }

  lemma UnpumpedIs(b: Base, t: Start, i: nat)
    requires i < |t.turns| && Unpumped(b, t, i)
    ensures b.servers == t.servers && b.queue == t.queue && b.maxInflight == t.max
    ensures b.inflight == t.inflight - Cancelled(t.turns, i) && b.flying == t.flying - Gone(t.turns, i)
    ensures Flatten(b.rings) == Without(t.order, Gone(t.turns, i))
    ensures forall r :: r in b.flying ==> r in t.servedBy && r.ns == t.servedBy[r]
    ensures PumpsAtStart(t, i) <==> t.turns[i].Probe? && b.queue != [] && b.inflight - 1 < b.maxInflight
  {
  }

  lemma UnpumpedNext(b: Base, t: Start, i: nat)
    requires i < |t.turns|
    requires b.servers == t.servers && b.queue == t.queue && b.maxInflight == t.max
    requires var gone := if t.turns[i].Probe? then {t.turns[i].req} else {};
      && b.inflight == t.inflight - Cancelled(t.turns, i) - (if t.turns[i].Probe? then 1 else 0)
      && b.flying == t.flying - Gone(t.turns, i) - gone
      && Flatten(b.rings) == Without(Without(t.order, Gone(t.turns, i)), gone)
    requires forall r :: r in b.flying ==> r in t.servedBy && r.ns == t.servedBy[r]
    ensures Unpumped(b, t, i + 1)
  {
    hide Flatten, Without;
    WithoutMore(t.order, Gone(t.turns, i), if t.turns[i].Probe? then {t.turns[i].req} else {});
  }

  /** The first turn at which the queue is pumped. */
  ghost function First(t: Start): (k: nat)
    ensures k <= |t.turns|
  {
    FirstPump(t.turns, 0, t.inflight, t.max, t.queue != [])
  }

  /** Of the first `i` probes, no request is at a server that is freed before. */
  ghost predicate NoneDangles(t: Start, i: nat)
    requires i <= |t.turns| == |t.servers|
  {
    forall j :: 0 <= j < i ==> !Dangles(t.turns, t.servers, j)
  }

  lemma DangleStep(t: Start, i: nat)
    requires i < |t.turns| == |t.servers|
    ensures NoneDangles(t, i + 1) <==> NoneDangles(t, i) && !Dangles(t.turns, t.servers, i)
    ensures NoneDangles(t, 0) && (NoneDangles(t, |t.turns|) ==> NoneDangles(t, i + 1))
  {
  }

  ghost function HandlesIn(t: Start): set<Handle> {
    set p | p in t.probes && p.handle != null :: p.handle
  }

  ghost function RequestsIn(t: Start): set<Request> {
    set p | p in t.probes && p.current != null :: p.current
  }

  lemma BegunWell(b: Base, t: Start)
    requires b.Valid() && t == StartOf(b)
    ensures Coherent(t) && Midway(b, t, 0) && Unpumped(b, t, 0)
  {
    hide *;
    BegunCoherent(b, t);
    BegunMidway(b, t);
    BegunUnpumped(b, t);
  }

  lemma BegunCoherent(b: Base, t: Start)
    requires b.Valid() && t == StartOf(b)
    ensures Coherent(t)
  {
    hide Base.Linked, Loads, Served, Idle, Flatten, TurnOf;
    assert forall h :: h in b.handles ==> Standing(h, b.flying, b.queue);
    forall i | 0 <= i < |t.turns|
      ensures TurnFits(t, i)
    {
      BegunTurn(b, t, i);
    }
  }

  lemma BegunTurn(b: Base, t: Start, i: nat)
    requires b.Valid() && t == StartOf(b) && i < |t.turns|
    ensures TurnFits(t, i)
  {
    hide Base.Linked, Base.Counts, Flatten;
    assert t.turns[i] == TurnOf(t.servers[i]) && t.probes[i] == ProbeStateOf(t.servers[i]);
  }

  lemma BegunMidway(b: Base, t: Start)
    requires b.Valid() && t == StartOf(b)
    ensures Midway(b, t, 0)
  {
    hide Base.Balanced, Flatten, TurnOf;
    assert forall i :: 0 <= i < |t.servers| ==> t.probes[i] == ProbeStateOf(t.servers[i]);
  }

  lemma BegunUnpumped(b: Base, t: Start)
    requires b.Valid() && t == StartOf(b)
    ensures Unpumped(b, t, 0)
  {
    hide Base.Balanced, Flatten, TurnOf;
    WithoutNone(t.order, {});
  }

  /**
   The loop over the servers that frees them; `ok` says that none was used that was freed already.
   Unless the queue is first pumped at the turn of the first server, `ok` tells exactly that it is
   never pumped, and that no probe's request is at a server that is freed before its turn.
   */
  method CancelProbes(b: Base, ghost t: Start) returns (ok: bool)
    requires b.Valid() && t == StartOf(b)
    modifies b`waitingHead, b`queue, b`waitingCount, b`inflight, b`rings, b`flying, b`servers, b`good, b`touched, b.heads
    modifies b.queue`next, b.queue`prev, b.queue`ns, b.queue`transId, b.queue`transmitMe, b.queue`txCount
    modifies b.flying`next, b.flying`prev, b.flying`ns, b.flying`transId, b.flying`transmitMe, b.flying`txCount
    modifies b.servers`requestsInflight, b.servers`choked, b.servers`up, b.servers`failedTimes, b`handles
    modifies b.servers`probe, HandlesIn(t), RequestsIn(t)`handle
    ensures |t.turns| == |t.servers|
    ensures ok ==>
      b.Valid() && Same(t.servers, b.servers) && b.handles == old(b.handles) && Midway(b, t, |t.turns|)
    ensures ok && First(t) == |t.turns| ==> Unpumped(b, t, |t.turns|)
    ensures First(t) > 0 ==> (ok <==> First(t) == |t.turns| && NoneDangles(t, |t.turns|))
    ensures First(t) == 0 && Cancelled(t.turns, |t.turns|) <= 1 ==> ok
  {
    hide Base.Valid, Same, Coherent, Midway, Unpumped, Dangles, Cancelled, Outstanding, ToSet, Listed, FirstPump;
    hide StartOf, HandlesIn, RequestsIn, CurrentOf;
    hide PumpsAt, PumpsAtStart, NoneDangles, Intact;
    BegunWell(b, t);
    SameItself(b.servers);
    var s := b.servers;
    var freed: set<Nameserver> := {};
    ghost var quiet := true;
    ListedNone(s);
    BegunServers(b, t);
    for i := 0 to |s|
      invariant b.Valid() && Same(s, b.servers) && b.handles == old(b.handles) && freed == Listed(s[..i])
      invariant Midway(b, t, i)
      invariant quiet ==> Unpumped(b, t, i) && First(t) == FirstPump(t.turns, i, t.inflight, t.max, t.queue != [])
      invariant quiet ==> NoneDangles(t, i)
      invariant !quiet ==> i > 0 && First(t) == 0 && Cancelled(t.turns, i) >= 1
    {
      MayModify(b, t, i);
      TurnsOn(t, i);
      DangleStep(t, i);
      SameMembers(s, b.servers);
      CancelledGrows(t.turns, i + 1, |t.turns|);
      ok := TakeTurn(b, t, i, s[i], freed, quiet);
      if !ok {
        return;
      }
      ListedMore(s, i);
      freed := freed + {s[i]};
      quiet := quiet && !PumpsAtStart(t, i);
    }
    return true;
  }

  lemma ListedMore(s: seq<Nameserver>, i: nat)
    requires i < |s|
    ensures Listed(s[..i + 1]) == Listed(s[..i]) + {s[i]}
  {
    assert s[..i + 1] == s[..i] + [s[i]];
  }

  lemma TurnsOn(t: Start, i: nat)
    requires i < |t.turns|
    ensures Cancelled(t.turns, i + 1) == Cancelled(t.turns, i) + if t.turns[i].Probe? then 1 else 0
    ensures PumpsAtStart(t, i) ==> t.turns[i].Probe?
    ensures FirstPump(t.turns, i, t.inflight, t.max, t.queue != []) ==
      if PumpsAtStart(t, i) then i else FirstPump(t.turns, i + 1, t.inflight, t.max, t.queue != [])
  {
  }

  lemma BegunServers(b: Base, t: Start)
    requires t == StartOf(b)
    ensures t.servers == b.servers && |t.turns| == |t.probes| == |t.servers| && t.queue == b.queue && t.flying == b.flying
    ensures NoneDangles(t, 0)
  {
  }

  lemma ListedNone(s: seq<Nameserver>)
    ensures Listed(s[..0]) == {}
  {
  }

  /** The requests and handles are those of the beginning. */
  lemma MayModify(b: Base, t: Start, i: nat)
    requires i < |t.turns| && Midway(b, t, i)
    ensures |t.turns| == |t.probes| == |t.servers|
    ensures t.servers[i].probe == null || t.servers[i].probe in HandlesIn(t)
    ensures CurrentOf(t.servers[i].probe) <= RequestsIn(t)
    ensures forall r :: r in b.flying || r in b.queue ==> r in t.flying || r in t.queue
  {
    assert Intact(t.servers[i], t.probes[i]) && t.probes[i] in t.probes;
    OutstandingIs(b);
    assert forall r :: r in Outstanding(b) ==> r in t.flying + ToSet(t.queue);
  }
}
