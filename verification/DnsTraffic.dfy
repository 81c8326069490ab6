/**
 Which server requests are at: picking one, changing it, and moving requests from a server that
 fails.
 */
module DnsTraffic {
  import opened DnsRing
  import opened DnsServers
  import opened DnsResolver

  /** nameserver_pick on the resolver */
  method PickFor(b: Base, ghost f: set<Request>, ghost q: seq<Request>) returns (ns: Nameserver?)
    requires b.Counts(f, q)
    modifies b`servers, b`touched
    ensures b.Counts(f, q) && Same(old(b.servers), b.servers) && UpSet(b.servers) == old(UpSet(b.servers))
    ensures b.touched == old(b.touched) + old(LookedAt(b.servers, b.good)) && b.servers == old(Next(b.servers, b.good))
    ensures if b.servers == [] then ns == null else ns != null && ns in b.servers && (b.good > 0 ==> ns.up)
    ensures ns == old(Picked(b.servers, b.good))
  {
    hide *;
    CountsParts(b, f, q);
    ghost var before := b.servers;
    var ring, seen;
    ns, ring, seen := Pick(b.servers, b.good);
    PickedUp(b.servers);
    SameMembers(b.servers, ring);
    SameUp(b.servers, ring);
    b.servers := ring;
    b.touched := b.touched + seen;
    CountsTurned(b, f, q, before);
  }

  lemma CountsParts(b: Base, f: set<Request>, q: seq<Request>)
    requires b.Counts(f, q)
    ensures Served(f, b.servers) && Idle(q) && Loads(f, b.servers)
    ensures b.inflight == |f| && b.waitingCount == |q| && Distinct(b.servers) && b.good == |GoodOnes(b.servers)|
  {
  }

  lemma SameUp(a: seq<Nameserver>, b: seq<Nameserver>)
    requires Same(a, b)
    ensures UpSet(a) == UpSet(b)
  {
  }

  lemma PickedUp(ring: seq<Nameserver>)
    ensures FirstUp(ring) < |ring| ==> ring[FirstUp(ring)].up
  {
  }

  lemma CountsTurned(b: Base, f: set<Request>, q: seq<Request>, before: seq<Nameserver>)
    requires Served(f, before) && Idle(q) && Loads(f, before) && Distinct(before) && Same(before, b.servers)
    requires b.inflight == |f| && b.waitingCount == |q| && b.good == |GoodOnes(b.servers)|
    ensures b.Counts(f, q) && (b.servers == [] <==> before == [])
  {
    hide Load, GoodOnes;
    assert forall i :: 0 <= i < |b.servers| ==> b.servers[i] in before;
  }

  /** request_swap_ns */
  method SwapNs(b: Base, req: Request, ns: Nameserver?)
    requires b.Counts(b.flying, b.queue) && req in b.flying && (ns != null ==> ns in b.servers)
    modifies req`ns, b`touched, b.servers`requestsInflight
    ensures b.Counts(b.flying, b.queue) && req.ns == if ns == null then old(req.ns) else ns
    ensures old(b.touched) <= b.touched
  {
    hide *;
    if ns != null && req.ns != ns {
      b.touched := b.touched + {ns};
      if req.ns != null {
        b.touched := b.touched + {req.ns};
      }
      ghost var f := b.flying - {req};
      CountsParts(b, b.flying, b.queue);
      NotWaiting(b.flying, b.queue, b.servers, req);
      TakeLoad(b.flying, req, b.servers);
      GiveLoad(f, req, ns, b.servers);
      assert f + {req} == b.flying;
      CountsAgain(b, b.flying, b.queue);
    }
  }

  method TakeLoad(ghost f: set<Request>, req: Request, ghost servers: seq<Nameserver>)
    requires Loads(f, servers) && Distinct(servers) && req in f && req.ns != null && req.ns in servers
    modifies req.ns`requestsInflight
    ensures Loads(f - {req}, servers)
  {
    hide Load;
    req.ns.requestsInflight := req.ns.requestsInflight - 1;
    LoadsWithout(f, req, servers);
  }

  method GiveLoad(ghost f: set<Request>, req: Request, ns: Nameserver, ghost servers: seq<Nameserver>)
    requires Loads(f, servers) && Distinct(servers) && req !in f && ns in servers && Served(f, servers)
    modifies req`ns, ns`requestsInflight
    ensures Loads(f + {req}, servers) && req.ns == ns && Served(f + {req}, servers)
  {
    hide Load;
    ns.requestsInflight := ns.requestsInflight + 1;
    req.ns := ns;
    LoadsWith(f, req, servers);
  }

  lemma NotWaiting(f: set<Request>, q: seq<Request>, servers: seq<Nameserver>, req: Request)
    requires Served(f, servers) && Idle(q) && req in f
    ensures forall i :: 0 <= i < |q| ==> q[i] != req
    ensures req.ns != null && req.ns in servers && Served(f - {req}, servers)
  {
  }

  /** A request keeps its server, unless it was not sent and is moved from the failed one to one that is up. */
  ghost predicate MovedUp(r: Request, was: Nameserver?, failed: Nameserver?, up: set<Nameserver>)
    reads r`ns, r`txCount
  {
    r.ns == was || (was == failed && r.txCount == 0 && r.ns in up)
  }

  ghost function UsedBy(r: Request): set<Nameserver>
    reads r`ns
  {
    if r.ns == null then {} else {r.ns}
  }

  /** nameserver_failed: requests that were not sent yet go to other servers, if any is good. */
  method NameserverFailed(b: Base, ns: Nameserver)
    requires b.Balanced() && ns in b.servers
    modifies b`servers, b`good, b`touched, ns`up, ns`failedTimes, b.flying`ns, b.servers`requestsInflight
    ensures b.Balanced() && Same(old(b.servers), b.servers) && !ns.up
    ensures UpSet(b.servers) == old(UpSet(b.servers)) - {ns} && old(b.touched) <= b.touched
    ensures b.good == old(b.good) - if old(ns.up) then 1 else 0
    ensures b.flying == {} ==> b.servers == old(b.servers)
    ensures old(ns.up) && b.good > 0 ==> forall r :: r in b.flying && r.txCount == 0 ==> r.ns != ns
    ensures forall r :: r in b.flying ==> MovedUp(r, old(r.ns), ns, UpSet(b.servers))
    ensures !old(ns.up) || b.good == 0 ==> b.servers == old(b.servers) && forall r :: r in b.flying ==> r.ns == old(r.ns)
  {
    hide *;
    SameItself(b.servers);
    UpIs(b.servers, ns);
    b.touched := b.touched + {ns};
    if !ns.up {
      NoneMoved(b, ns);
      return;
    }
    BalancedParts(b);
    MarkDown(b, ns);
    CountsParts(b, b.flying, b.queue);
    if b.good != 0 {
      ghost var before := b.servers;
      MoveAll(b, ns);
      SameUp(before, b.servers);
    } else {
      NoneMoved(b, ns);
    }
    BalancedFrom(b);
  }

  lemma NoneMoved(b: Base, ns: Nameserver)
    ensures forall r :: r in b.flying ==> MovedUp(r, r.ns, ns, UpSet(b.servers))
  {
  }

  lemma UpIs(s: seq<Nameserver>, ns: Nameserver?)
    ensures ns in UpSet(s) <==> ns in s && ns != null && ns.up
  {
  }

  method MarkDown(b: Base, ns: Nameserver)
    requires b.Counts(b.flying, b.queue) && ns in b.servers && ns.up
    modifies b`good, ns`up, ns`failedTimes
    ensures b.Counts(b.flying, b.queue) && b.good == old(b.good) - 1 && !ns.up
    ensures UpSet(b.servers) == old(UpSet(b.servers)) - {ns}
  {
    hide Loads, GoodOnes, Served, Idle;
    ghost var up := UpSet(b.servers);
    GoodIsUpSet(b.servers);
    b.good := b.good - 1;
    ns.up := false;
    ns.failedTimes := 1;
    assert UpSet(b.servers) == up - {ns};
    GoodIsUpSet(b.servers) by { assert Distinct(b.servers); }
  }

  lemma SameItself(s: seq<Nameserver>)
    ensures Same(s, s)
  {
  }

  lemma CountsAgain(b: Base, f: set<Request>, q: seq<Request>)
    requires Served(f, b.servers) && Idle(q) && Loads(f, b.servers)
    requires b.inflight == |f| && b.waitingCount == |q| && Distinct(b.servers) && b.good == |GoodOnes(b.servers)|
    ensures b.Counts(f, q)
  {
  }

  ghost function UpSet(s: seq<Nameserver>): set<Nameserver>
    reads s`up
  {
    set n | n in s && n.up
  }

  lemma {:induction false} GoodIsUpSet(s: seq<Nameserver>)
    requires Distinct(s)
    ensures |GoodOnes(s)| == |UpSet(s)|
  {
    if s != [] {
      GoodIsUpSet(s[1..]);
      assert UpSet(s) == UpSet(s[1..]) + if s[0].up then {s[0]} else {};
    }
  }

  /** The walk over all requests in flight that moves the unsent ones of a failed server. */
  method MoveAll(b: Base, ns: Nameserver)
    requires b.Linked() && b.Counts(b.flying, b.queue) && !ns.up && b.good > 0
    modifies b`servers, b`touched, b.flying`ns, b.servers`requestsInflight
    ensures old(b.touched) <= b.touched
    ensures b.Linked() && b.Counts(b.flying, b.queue) && Same(old(b.servers), b.servers)
    ensures UpSet(b.servers) == old(UpSet(b.servers))
    ensures forall r :: r in b.flying && r.txCount == 0 ==> r.ns != ns
    ensures forall r :: r in b.flying ==> MovedUp(r, old(r.ns), ns, UpSet(b.servers))
    ensures b.flying == {} ==> b.servers == old(b.servers)
  {
    hide Base.Linked, Base.Counts, Same, UpSet, MovedFrom;
    LinkedParts(b);
    AllInFlight(b);
    NoneMoved(b, ns);
    SameItself(b.servers);
    for i := 0 to b.heads.Length
      invariant b.Linked() && b.Counts(b.flying, b.queue) && Same(old(b.servers), b.servers)
      invariant UpSet(b.servers) == old(UpSet(b.servers))
      invariant old(b.touched) <= b.touched
      invariant forall j :: 0 <= j < i ==> MovedFrom(b.rings[j], ns)
      invariant forall r :: r in b.flying ==> MovedUp(r, old(r.ns), ns, UpSet(b.servers))
      invariant b.flying == {} ==> b.servers == old(b.servers)
    {
      SameMembers(old(b.servers), b.servers);
      ghost var before := b.servers;
      MoveNext(b, ns, i);
      SameAgain(old(b.servers), before, b.servers);
    }
    AllMoved(b, ns);
  }

  /** One more bucket. */
  method MoveNext(b: Base, ns: Nameserver, i: nat)
    requires b.Linked() && b.Counts(b.flying, b.queue) && !ns.up && b.good > 0 && i < b.heads.Length == |b.rings|
    requires forall j :: 0 <= j < i ==> MovedFrom(b.rings[j], ns)
    modifies b`servers, b`touched, b.flying`ns, b.servers`requestsInflight
    ensures old(b.touched) <= b.touched && (b.flying == {} ==> b.servers == old(b.servers))
    ensures b.Linked() && b.Counts(b.flying, b.queue) && Same(old(b.servers), b.servers)
    ensures UpSet(b.servers) == old(UpSet(b.servers))
    ensures forall r :: r in b.flying ==> MovedUp(r, old(r.ns), ns, UpSet(b.servers))
    ensures forall j :: 0 <= j < i + 1 ==> MovedFrom(b.rings[j], ns)
  {
    hide Base.Linked, Base.Counts, Same, UpSet;
    AllInFlight(b);
    UpIs(b.servers, ns);
    assert b.rings[i] != [] ==> b.rings[i][0] in b.flying;
    MoveBucket(b, ns, i);
  }

  lemma AllInFlight(b: Base)
    requires b.Linked()
    ensures |b.rings| == b.heads.Length
    ensures forall j, k :: 0 <= j < |b.rings| && 0 <= k < |b.rings[j]| ==> b.rings[j][k] in b.flying
  {
    hide Ring;
  }

  lemma SameAgain(a: seq<Nameserver>, b: seq<Nameserver>, c: seq<Nameserver>)
    requires Same(a, b) && Same(b, c)
    ensures Same(a, c)
  {
  }

  /** One lap around bucket number `i`. */
  method MoveBucket(b: Base, ns: Nameserver, i: nat)
    requires b.Linked() && b.Counts(b.flying, b.queue) && !ns.up && b.good > 0 && i < b.heads.Length == |b.rings|
    modifies b`servers, b`touched, b.flying`ns, b.servers`requestsInflight
    ensures old(b.touched) <= b.touched
    ensures b.Linked() && b.Counts(b.flying, b.queue) && Same(old(b.servers), b.servers)
    ensures UpSet(b.servers) == old(UpSet(b.servers))
    ensures MovedFrom(b.rings[i], ns) && (b.rings[i] == [] ==> b.servers == old(b.servers))
    ensures forall r :: r in b.flying ==> MovedUp(r, old(r.ns), ns, UpSet(b.servers))
  {
    hide Base.Linked, Base.Counts, Same, Ring, UpSet;
    SameItself(b.servers);
    RingOf(b, i);
    NoneMoved(b, ns);
    var req := b.heads[i];
    if req == null {
      return;
    }
    var startedAt := req;
    ghost var s, k := b.rings[i], 0;
    while true
      invariant b.Linked() && b.Counts(b.flying, b.queue) && Same(old(b.servers), b.servers)
      invariant UpSet(b.servers) == old(UpSet(b.servers))
      invariant old(b.touched) <= b.touched
      invariant k < |s| && req == s[k] && MovedFrom(s[..k], ns)
      invariant forall r :: r in b.flying ==> MovedUp(r, old(r.ns), ns, UpSet(b.servers))
      decreases |s| - k
    {
      SameMembers(old(b.servers), b.servers);
      MoveIfUnsent(b, ns, req, old(b.servers));
      NextInRing(s, b.heads[i], k);
      req := req.next;
      assert s[..k + 1] == s[..k] + [s[k]];
      k := k + 1;
      if req == startedAt {
        assert s[..k] == s;
        return;
      }
    }
  }

  /** A request that is not sent yet, and at the failed server, is moved. */
  method MoveIfUnsent(b: Base, ns: Nameserver, req: Request, ghost before: seq<Nameserver>)
    requires b.Counts(b.flying, b.queue) && req in b.flying && !ns.up && b.good > 0 && Same(before, b.servers)
    modifies b`servers, b`touched, req`ns, b.servers`requestsInflight
    ensures old(b.touched) <= b.touched && UpSet(b.servers) == old(UpSet(b.servers))
    ensures b.Counts(b.flying, b.queue) && Same(before, b.servers)
    ensures MovedUp(req, old(req.ns), ns, UpSet(b.servers)) && (req.txCount == 0 ==> req.ns != ns)
  {
    hide Base.Counts, Same, UpSet;
    if req.txCount == 0 && req.ns == ns {
      MoveOne(b, ns, req, before);
    }
  }

  method MoveOne(b: Base, ns: Nameserver, req: Request, ghost before: seq<Nameserver>)
    requires b.Counts(b.flying, b.queue) && req in b.flying && !ns.up && b.good > 0 && Same(before, b.servers)
    modifies b`servers, b`touched, req`ns, b.servers`requestsInflight
    ensures old(b.touched) <= b.touched
    ensures b.Counts(b.flying, b.queue) && Same(before, b.servers) && req.ns != ns && req.ns != null
    ensures UpSet(b.servers) == old(UpSet(b.servers)) && req.ns in UpSet(b.servers)
  {
    hide *;
    ghost var mid := b.servers;
    var picked := PickFor(b, b.flying, b.queue);
    SameMembers(mid, b.servers);
    SomeServer(b);
    UpIs(b.servers, picked);
    SwapNs(b, req, picked);
    SameAgain(before, mid, b.servers);
  }

  lemma SameMembers(a: seq<Nameserver>, b: seq<Nameserver>)
    requires Same(a, b)
    ensures forall i :: 0 <= i < |b| ==> b[i] in a
    ensures forall i :: 0 <= i < |a| ==> a[i] in b
    ensures a == [] <==> b == []
  {
  }

  lemma SomeServer(b: Base)
    requires b.Counts(b.flying, b.queue) && b.good > 0
    ensures b.servers != []
  {
  }

  lemma RingOf(b: Base, i: nat)
    requires b.Linked() && i < b.heads.Length == |b.rings|
    ensures Ring(b.rings[i], b.heads[i]) && forall k :: 0 <= k < |b.rings[i]| ==> b.rings[i][k] in b.flying
    ensures b.heads[i] == if b.rings[i] == [] then null else b.rings[i][0]
  {
  }

  lemma NextInRing(s: seq<Request>, head: Request?, k: nat)
    requires Ring(s, head) && k < |s|
    ensures s[k].next == if k + 1 < |s| then s[k + 1] else head
    ensures s[k].next == head <==> k + 1 == |s|
  {
  }

  ghost predicate MovedFrom(s: seq<Request>, ns: Nameserver)
    reads s`ns, s`txCount
  {
    forall k {:trigger s[k]} :: 0 <= k < |s| && s[k].txCount == 0 ==> s[k].ns != ns
  }

  lemma AllMoved(b: Base, ns: Nameserver)
    requires b.Linked() && forall j :: 0 <= j < b.heads.Length ==> MovedFrom(b.rings[j], ns)
    ensures forall r :: r in b.flying && r.txCount == 0 ==> r.ns != ns
  {
    hide Ring;
  }
}
