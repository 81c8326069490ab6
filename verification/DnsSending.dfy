/**
 Sending requests: one attempt, and a lap over all that are marked.
 */
module DnsSending {
  import opened DnsRing
  import opened DnsServers
  import opened DnsResolver
  import opened DnsTraffic

  /** What sendto on a server's socket comes to; on a choked one it is not tried. */
  datatype Sending = Untried | Sent | Retriable | Broken

  ghost predicate Steady(b: Base, before: seq<Nameserver>)
    reads b`heads, b`rings, b`flying, b`queue, b`waitingHead, b`servers, b`inflight, b`waitingCount, b`good
    reads b.heads, b.flying`next, b.flying`prev, b.flying`transId, b.flying`ns
    reads b.queue`next, b.queue`prev, b.queue`ns, b.servers`requestsInflight, b.servers`up
  {
    b.Balanced() && Same(before, b.servers)
  }

  /** A request stays marked to be sent until an attempt counts. */
  twostate predicate Attempted(req: Request)
    reads req`transmitMe, req`txCount
  {
    if req.transmitMe then req.txCount == old(req.txCount) else req.txCount == old(req.txCount) + 1
  }

  /** The servers whose socket takes nothing for now. */
  ghost function Choked(b: Base): set<Nameserver>
    reads b`servers, b.servers`choked
  {
    ChokedOf(b.servers)
  }

  ghost function ChokedOf(s: seq<Nameserver>): set<Nameserver>
    reads s`choked
  {
    set n | n in s && n.choked
  }

  lemma SameChoked(a: seq<Nameserver>, b: seq<Nameserver>)
    requires Same(a, b)
    ensures ChokedOf(a) == ChokedOf(b) && (a == [] <==> b == [])
  {
  }

  /**
   evdns_request_transmit: a packet that is sent counts, and one that a socket takes nothing of chokes it;
   a server with a broken socket is down, and its unsent requests go to servers that are up.
   */
  method Transmit(b: Base, req: Request) returns (result: int, outcome: Sending)
    requires b.Balanced() && req in b.flying
    modifies b`servers, b`good, b`touched, b.flying`ns, req`transmitMe, req`txCount
    modifies b.servers`choked, b.servers`up, b.servers`failedTimes, b.servers`requestsInflight
    ensures Steady(b, old(b.servers)) && b.good <= old(b.good)
    ensures old(req.ns) in old(b.servers) && (outcome.Untried? <==> old(req.ns) in old(Choked(b)))
    ensures Attempted(req) && (req.transmitMe <==> outcome.Untried? || outcome.Retriable?)
    ensures req.txCount == old(req.txCount) + if req.transmitMe then 0 else 1
    ensures req.transmitMe ==> req.ns in Choked(b)
    ensures result == if outcome.Sent? then 0 else 1
    ensures Choked(b) == old(Choked(b)) + if outcome.Retriable? then {old(req.ns)} else {}
    ensures UpSet(b.servers) == old(UpSet(b.servers)) - if outcome.Broken? then {old(req.ns)} else {}
    ensures forall r :: r in b.flying && r != req ==> MovedUp(r, old(r.ns), old(req.ns), UpSet(b.servers))
    ensures req.ns == old(req.ns) || (outcome.Broken? && req.ns in UpSet(b.servers) && old(req.ns) !in UpSet(b.servers))
    ensures UpSet(b.servers) == old(UpSet(b.servers)) ==> b.servers == old(b.servers) && req.ns == old(req.ns)
    ensures Orderly(old(LayoutOf(b)), LayoutOf(b))
    ensures old(req.ns != null && !req.ns.up) ==> b.servers == old(b.servers)
    ensures old(b.touched) <= b.touched
    ensures forall r :: r in b.flying && old(r.ns) in old(Choked(b)) ==> r.ns == old(r.ns)
  {
    hide Steady, Base.Balanced, Same, LayoutOf, Orderly, UpSet;
    Begin(b);
    ServerOf(b, req);
    LayoutIs(b);
    req.transmitMe := true;
    b.touched := b.touched + {req.ns};
    if req.ns.choked {
      return 1, Untried;
    }
    outcome := *;
    if outcome == Untried || outcome == Retriable {
      req.ns.choked := true;
      return 1, Retriable;
    }
    if outcome == Broken {
      SendToBroken(b, req);
      return 1, Broken;
    }
    req.txCount := req.txCount + 1;
    req.transmitMe := false;
    return 0, Sent;
  }

  /** An attempt that finds the socket broken: the server is down, and the attempt counts. */
  method SendToBroken(b: Base, req: Request)
    requires b.Balanced() && req in b.flying && req.ns != null && !req.ns.choked
    modifies b`servers, b`good, b`touched, b.flying`ns, req`transmitMe, req`txCount
    modifies b.servers`up, b.servers`failedTimes, b.servers`requestsInflight
    ensures Steady(b, old(b.servers)) && b.good <= old(b.good) && old(b.touched) <= b.touched
    ensures !req.transmitMe && req.txCount == old(req.txCount) + 1
    ensures Choked(b) == old(Choked(b)) && UpSet(b.servers) == old(UpSet(b.servers)) - {old(req.ns)}
    ensures forall r :: r in b.flying && r != req ==> MovedUp(r, old(r.ns), old(req.ns), UpSet(b.servers))
    ensures req.ns == old(req.ns) || req.ns in UpSet(b.servers)
    ensures UpSet(b.servers) == old(UpSet(b.servers)) ==> b.servers == old(b.servers) && req.ns == old(req.ns)
    ensures Orderly(old(LayoutOf(b)), LayoutOf(b))
    ensures old(req.ns != null && !req.ns.up) ==> b.servers == old(b.servers)
    ensures forall r :: r in b.flying && old(r.ns) in old(Choked(b)) ==> r.ns == old(r.ns)
  {
    hide Steady, Base.Balanced, Same, LayoutOf, Orderly, UpSet, ChokedOf;
    ServerOf(b, req);
    ChokedIn(b.servers, req.ns);
    BreakServer(b, req);
    SameChoked(old(b.servers), b.servers) by { SteadyParts(b, old(b.servers)); }
    req.txCount := req.txCount + 1;
    req.transmitMe := false;
  }

  lemma ChokedIn(s: seq<Nameserver>, n: Nameserver)
    ensures n in ChokedOf(s) <==> n in s && n.choked
  {
  }

  /** The socket of the request's server is broken. */
  method BreakServer(b: Base, req: Request)
    requires b.Balanced() && req in b.flying
    modifies b`servers, b`good, b`touched, b.flying`ns, b.servers`up, b.servers`failedTimes, b.servers`requestsInflight
    ensures Steady(b, old(b.servers)) && b.good <= old(b.good) && old(b.touched) <= b.touched
    ensures UpSet(b.servers) == old(UpSet(b.servers)) - {old(req.ns)}
    ensures forall r :: r in b.flying ==> MovedUp(r, old(r.ns), old(req.ns), UpSet(b.servers))
    ensures Orderly(old(LayoutOf(b)), LayoutOf(b))
    ensures old(req.ns != null && !req.ns.up) ==> b.servers == old(b.servers)
    ensures UpSet(b.servers) == old(UpSet(b.servers)) ==> b.servers == old(b.servers) && req.ns == old(req.ns)
  {
    hide Steady, Base.Balanced, Same;
    ServerOf(b, req);
    NameserverFailed(b, req.ns);
    SameMembers(old(b.servers), b.servers);
    BeginAgain(b, old(b.servers));
  }

  lemma Begin(b: Base)
    requires b.Balanced()
    ensures Steady(b, b.servers)
  {
  }

  lemma BeginAgain(b: Base, before: seq<Nameserver>)
    requires b.Balanced() && Same(before, b.servers)
    ensures Steady(b, before)
  {
  }

  lemma ServerOf(b: Base, req: Request)
    requires b.Balanced() && req in b.flying
    ensures req.ns != null && req.ns in b.servers && req !in b.queue
  {
  }

  /** Which servers are up, in what order they stand, and where the requests in flight are. */
  datatype Layout = Layout(up: set<Nameserver>, ring: seq<Nameserver>, at: map<Request, Nameserver?>)

  ghost function LayoutOf(b: Base): Layout
    reads b`servers, b.servers`up, b`flying, b.flying`ns
  {
    Layout(UpSet(b.servers), b.servers, map r | r in b.flying :: r.ns)
  }

  /**
   No server comes up; a request leaves its server only if that is not up; and as long as no server
   goes down, the ring and the servers of all requests stay.
   */
  ghost predicate Orderly(was: Layout, now: Layout) {
    && now.up <= was.up
    && (forall r :: r in was.at && r in now.at ==> now.at[r] == was.at[r] || was.at[r] !in now.up)
    && (now.up == was.up ==>
        now.ring == was.ring && forall r :: r in was.at && r in now.at ==> now.at[r] == was.at[r])
  }

  lemma OrderlyThrough(a: Layout, b: Layout, c: Layout)
    requires Orderly(a, b) && Orderly(b, c) && a.at.Keys <= b.at.Keys
    ensures Orderly(a, c)
  {
    assert forall r :: r in a.at ==> r in b.at;
  }

  lemma LayoutIs(b: Base)
    ensures var l := LayoutOf(b); l.up == UpSet(b.servers) && l.ring == b.servers && l.at.Keys == b.flying
    ensures forall r :: r in b.flying ==> LayoutOf(b).at[r] == r.ns
    ensures Orderly(LayoutOf(b), LayoutOf(b))
  {
  }

  /** How often each request was sent, and whether it is marked to be sent. */
  ghost function Marks(f: set<Request>): map<Request, (nat, bool)>
    reads f`txCount, f`transmitMe
  {
    map r | r in f :: (r.txCount, r.transmitMe)
  }

  /**
   Of the requests in `done`, the marked ones were tried once: they are sent, or still marked, and
   that only at a choked server. All others are as before.
   */
  ghost predicate Tried(b: Base, was: map<Request, (nat, bool)>, done: set<Request>)
    reads b`flying, b.flying`txCount, b.flying`transmitMe, b.flying`ns, b`servers, b.servers`choked
  {
    forall r :: r in b.flying ==> r in was && TriedOne(r, was[r].0, was[r].1, r in done, Choked(b))
  }

  /** A request that was sent `n` times and maybe marked, after it had its turn or not. */
  ghost predicate TriedOne(r: Request, n: nat, marked: bool, hadTurn: bool, choked: set<Nameserver>)
    reads r`txCount, r`transmitMe, r`ns
  {
    if hadTurn && marked then
      if r.transmitMe then r.txCount == n && r.ns in choked else r.txCount == n + 1
    else r.txCount == n && r.transmitMe == marked
  }

  /** A request's count and mark before and after it had its turn, if it was marked. */
  ghost predicate TriedTo(was: (nat, bool), now: (nat, bool), choked: bool) {
    if was.1 then if now.1 then now.0 == was.0 && choked else now.0 == was.0 + 1 else now == was
  }

  /** Every request had its turn. */
  ghost predicate AllTried(was: map<Request, (nat, bool)>, now: map<Request, (nat, bool)>,
                           at: map<Request, Nameserver?>, choked: set<Nameserver>)
  {
    forall r :: r in now ==> r in was && r in at && TriedTo(was[r], now[r], at[r] in choked)
  }

  lemma TriedAll(b: Base, was: map<Request, (nat, bool)>)
    requires Tried(b, was, b.flying)
    ensures AllTried(was, Marks(b.flying), LayoutOf(b).at, Choked(b))
  {
    hide Choked;
  }

  /** One request had its turn, and then all. */
  lemma TriedFirst(was: map<Request, (nat, bool)>, mid: map<Request, (nat, bool)>, now: map<Request, (nat, bool)>,
                   at: map<Request, Nameserver?>, choked: set<Nameserver>, req: Request, first: bool)
    requires req in was && req in mid && was[req].1 && TriedTo(was[req], mid[req], first)
    requires forall r :: r in mid && r != req ==> r in was && mid[r] == was[r]
    requires AllTried(mid, now, at, choked)
    ensures AllTried(was, now, at, choked)
  {
  }

  /** All had a turn, and then all and some more. */
  lemma TriedAgain(was: map<Request, (nat, bool)>, mid: map<Request, (nat, bool)>, atMid: map<Request, Nameserver?>,
                   chokedMid: set<Nameserver>, more: map<Request, (nat, bool)>, now: map<Request, (nat, bool)>,
                   at: map<Request, Nameserver?>, choked: set<Nameserver>)
    requires AllTried(was, mid, atMid, chokedMid) && AllTried(more, now, at, choked)
    requires forall r :: r in more ==> if r in mid then more[r] == mid[r] else r in was && was[r] == more[r]
    ensures AllTried(was, now, at, choked)
  {
  }

  ghost predicate AnyMarked(was: map<Request, (nat, bool)>, done: set<Request>) {
    exists r :: r in done && r in was && was[r].1
  }

  /** The requests of the first `i` buckets. */
  ghost function FirstBuckets(rings: seq<seq<Request>>, i: nat): set<Request>
    requires i <= |rings|
  {
    set j, k | 0 <= j < i && 0 <= k < |rings[j]| :: rings[j][k]
  }

  /**
   evdns_transmit: one lap around every bucket. Every marked request is tried, others are left
   alone, and the answer is whether there was a marked one. None stays marked unless its server is choked.
   */
  method TransmitAll(b: Base) returns (tried: bool)
    requires b.Balanced()
    modifies b`servers, b`good, b`touched, b.servers`requestsInflight, b.servers`choked, b.servers`up
    modifies b.servers`failedTimes, b.flying`ns, b.flying`transmitMe, b.flying`txCount
    ensures Steady(b, old(b.servers)) && Orderly(old(LayoutOf(b)), LayoutOf(b)) && old(b.touched) <= b.touched
    ensures Tried(b, old(Marks(b.flying)), b.flying) && (tried <==> AnyMarked(old(Marks(b.flying)), b.flying))
    ensures !tried ==> Choked(b) == old(Choked(b))
  {
    hide *;
    Begin(b);
    LayoutIs(b);
    tried := false;
    HeadsOf(b);
    ghost var was, done: set<Request> := Marks(b.flying), {};
    NoneTried(b);
    for i := 0 to b.heads.Length
      invariant Steady(b, old(b.servers)) && Orderly(old(LayoutOf(b)), LayoutOf(b)) && old(b.touched) <= b.touched
      invariant Tried(b, was, done) && (tried <==> AnyMarked(was, done)) && done == FirstBuckets(b.rings, i)
      invariant !tried ==> Choked(b) == old(Choked(b))
    {
      SteadyParts(b, old(b.servers));
      ghost var before, layout := b.servers, LayoutOf(b);
      LayoutIs(b);
      BucketFresh(b, i);
      var t := TransmitBucket(b, i, was, done);
      MarkedMore(was, done, ToSet(b.rings[i]));
      done := done + ToSet(b.rings[i]);
      tried := tried || t;
      SteadyAgain(b, old(b.servers), before);
      OrderlyThrough(old(LayoutOf(b)), layout, LayoutOf(b));
    }
    SteadyParts(b, old(b.servers));
    AllBuckets(b);
  }

  lemma NoneTried(b: Base)
    ensures Tried(b, Marks(b.flying), {}) && !AnyMarked(Marks(b.flying), {}) && FirstBuckets(b.rings, 0) == {}
  {
  }

  lemma MarkedMore(was: map<Request, (nat, bool)>, done: set<Request>, more: set<Request>)
    ensures AnyMarked(was, done + more) <==> AnyMarked(was, done) || AnyMarked(was, more)
  {
  }

  /** The next bucket has requests that are not among those of the buckets before. */
  lemma BucketFresh(b: Base, i: nat)
    requires b.Linked() && i < b.heads.Length == |b.rings|
    ensures forall k :: 0 <= k < |b.rings[i]| ==> b.rings[i][k] !in FirstBuckets(b.rings, i)
    ensures FirstBuckets(b.rings, i + 1) == FirstBuckets(b.rings, i) + ToSet(b.rings[i])
  {
    hide Ring;
  }

  lemma AllBuckets(b: Base)
    requires b.Linked()
    ensures |b.rings| == b.heads.Length && FirstBuckets(b.rings, |b.rings|) == b.flying
  {
    hide Ring;
    forall r | r in b.flying
      ensures r in FirstBuckets(b.rings, |b.rings|)
    {
      var j := r.transId % |b.rings|;
      var k :| 0 <= k < |b.rings[j]| && b.rings[j][k] == r;
    }
  }

  lemma HeadsOf(b: Base)
    requires b.Balanced()
    ensures |b.rings| == b.heads.Length
  {
  }

  lemma SteadyParts(b: Base, before: seq<Nameserver>)
    requires Steady(b, before)
    ensures b.Balanced() && b.Linked() && Same(before, b.servers) && forall i :: 0 <= i < |b.servers| ==> b.servers[i] in before
    ensures forall i :: 0 <= i < |before| ==> before[i] in b.servers
    ensures before == [] <==> b.servers == []
  {
  }

  lemma SteadyAgain(b: Base, a: seq<Nameserver>, before: seq<Nameserver>)
    requires Same(a, before) && Steady(b, before)
    ensures Steady(b, a)
  {
    SameAgain(a, before, b.servers);
  }

  method TransmitBucket(b: Base, i: nat, ghost was: map<Request, (nat, bool)>, ghost done0: set<Request>) returns (tried: bool)
    requires b.Balanced() && i < b.heads.Length == |b.rings|
    requires Tried(b, was, done0) && forall k :: 0 <= k < |b.rings[i]| ==> b.rings[i][k] !in done0
    modifies b`servers, b`good, b`touched, b.servers`requestsInflight, b.servers`choked, b.servers`up
    modifies b.servers`failedTimes, b.flying`ns, b.flying`transmitMe, b.flying`txCount
    ensures Steady(b, old(b.servers)) && Orderly(old(LayoutOf(b)), LayoutOf(b)) && old(b.touched) <= b.touched
    ensures Tried(b, was, done0 + ToSet(b.rings[i])) && (tried <==> AnyMarked(was, ToSet(b.rings[i])))
    ensures !tried ==> Choked(b) == old(Choked(b))
  {
    hide *;
    tried := false;
    Begin(b);
    LayoutIs(b);
    SteadyParts(b, b.servers);
    RingOf(b, i);
    var req := b.heads[i];
    ghost var s, k := b.rings[i], 0;
    NothingDone(was, done0);
    if req == null {
      return;
    }
    var startedAt := req;
    assert s[..0] == [];
    while true
      invariant Steady(b, old(b.servers)) && Orderly(old(LayoutOf(b)), LayoutOf(b)) && old(b.touched) <= b.touched
      invariant k < |s| && req == s[k]
      invariant Tried(b, was, done0 + ToSet(s[..k])) && (tried <==> AnyMarked(was, ToSet(s[..k])))
      invariant !tried ==> Choked(b) == old(Choked(b))
      decreases |s| - k
    {
      SteadyParts(b, old(b.servers));
      DoneMore(s, k, done0);
      MarkedMore(was, ToSet(s[..k]), {req});
      RingOf(b, i);
      RingDistinct(s, b.heads[i]);
      ghost var before, layout := b.servers, LayoutOf(b);
      LayoutIs(b);
      var t := TransmitMarked(b, req, was, done0 + ToSet(s[..k]));
      tried := tried || t;
      SteadyAgain(b, old(b.servers), before);
      OrderlyThrough(old(LayoutOf(b)), layout, LayoutOf(b));
      SteadyParts(b, old(b.servers));
      RingOf(b, i);
      NextInRing(s, b.heads[i], k);
      req := req.next;
      k := k + 1;
      if req == startedAt {
        assert s[..k] == s;
        return;
      }
    }
  }

  /** Try a request if it is marked. */
  method TransmitMarked(b: Base, req: Request, ghost was: map<Request, (nat, bool)>, ghost done: set<Request>) returns (tried: bool)
    requires b.Balanced() && req in b.flying && req !in done && Tried(b, was, done)
    modifies b`servers, b`good, b`touched, b.servers`requestsInflight, b.servers`choked, b.servers`up
    modifies b.servers`failedTimes, b.flying`ns, req`transmitMe, req`txCount
    ensures Steady(b, old(b.servers)) && Orderly(old(LayoutOf(b)), LayoutOf(b)) && old(b.touched) <= b.touched
    ensures Tried(b, was, done + {req}) && (tried <==> AnyMarked(was, {req}))
    ensures !tried ==> Choked(b) == old(Choked(b))
  {
    hide Steady, Base.Balanced, Choked, LayoutOf, Orderly;
    Begin(b);
    LayoutIs(b);
    tried := req.transmitMe;
    if req.transmitMe {
      var _, _ := Transmit(b, req);
    }
  }

  lemma NothingDone(was: map<Request, (nat, bool)>, done: set<Request>)
    ensures ToSet([]) == {} && done + {} == done && !AnyMarked(was, {})
  {
  }

  /** The requests of a list up to number `k`, and that one. */
  lemma DoneMore(s: seq<Request>, k: nat, done: set<Request>)
    requires k < |s| && Distinct(s) && s[k] !in done
    ensures ToSet(s[..k + 1]) == ToSet(s[..k]) + {s[k]} && done + ToSet(s[..k]) + {s[k]} == done + ToSet(s[..k + 1])
    ensures s[k] !in done + ToSet(s[..k])
  {
    assert s[..k + 1] == s[..k] + [s[k]];
  }

  ghost function ToSet(s: seq<Request>): set<Request> {
    set r | r in s
  }
}
