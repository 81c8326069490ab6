/**
 The pump: waiting requests go into flight as long as there is room.
 */
module DnsPump {
  import opened Bytes
  import opened DnsRing
  import opened DnsServers
  import opened DnsResolver
  import opened DnsTraffic
  import opened DnsSending

  /** Move the first waiting request into flight at this server. */
  method Promote(b: Base, ns: Nameserver, transId: nat)
    requires b.Balanced() && b.queue != [] && ns in b.servers
    modifies b`waitingHead, b`queue, b`waitingCount, b`inflight, b`rings, b`flying, b`touched, b.heads
    modifies ns`requestsInflight
    modifies b.queue`ns, b.queue`transId, b.queue`next, b.queue`prev, b.flying`next, b.flying`prev
    ensures b.Balanced() && b.queue == old(b.queue)[1..] && b.flying == old(b.flying) + {old(b.queue)[0]}
    ensures b.inflight == old(b.inflight) + 1 && b.touched == old(b.touched) + {ns}
    ensures old(b.queue)[0].ns == ns && old(b.queue)[0] !in old(b.flying)
    ensures forall r :: r in old(b.flying) ==> r.ns == old(r.ns)
  {
    hide *;
    BalancedParts(b);
    FirstWaits(b);
    var req := b.waitingHead;
    Account(b, req, ns);
    Relist(b, req, transId);
    BalancedFrom(b);
  }

  /** Count the first waiting request as one of this server's. */
  method Account(b: Base, req: Request, ns: Nameserver)
    requires b.Counts(b.flying, b.queue) && b.queue != [] && b.queue[0] == req && req !in b.flying && ns in b.servers
    requires req !in b.queue[1..] && Idle(b.queue[1..])
    modifies b`waitingCount, b`inflight, b`touched, req`ns, ns`requestsInflight
    ensures b.Counts(b.flying + {req}, b.queue[1..]) && b.inflight == old(b.inflight) + 1
    ensures b.touched == old(b.touched) + {ns} && req.ns == ns
  {
    hide *;
    ghost var rest := b.queue[1..];
    CountsParts(b, b.flying, b.queue);
    IdleEach(rest);
    GiveLoad(b.flying, req, ns, b.servers);
    IdleFrom(rest);
    b.touched := b.touched + {ns};
    b.waitingCount := b.waitingCount - 1;
    b.inflight := b.inflight + 1;
    CountsAgain(b, b.flying + {req}, rest);
  }

  lemma IdleEach(q: seq<Request>)
    requires Idle(q)
    ensures forall i {:trigger q[i]} :: 0 <= i < |q| ==> q[i].ns == null
  {
  }

  lemma IdleFrom(q: seq<Request>)
    requires forall i {:trigger q[i]} :: 0 <= i < |q| ==> q[i].ns == null
    ensures Idle(q)
  {
  }

  /** Move the first waiting request into the bucket of its new transaction id. */
  method Relist(b: Base, req: Request, transId: nat)
    requires b.Linked() && b.queue != [] && b.queue[0] == req && req !in b.flying
    modifies b`waitingHead, b`queue, b`rings, b`flying, b.heads, req`transId
    modifies b.queue`next, b.queue`prev, b.flying`next, b.flying`prev
    ensures b.Linked() && b.queue == old(b.queue)[1..] && b.flying == old(b.flying) + {req}
  {
    hide *;
    ghost var q := b.queue;
    b.RemoveWaiting(req, 0);
    req.transId := transId;
    b.InsertFlying(req);
    assert q[..0] + q[1..] == q[1..];
  }

  lemma FirstWaits(b: Base)
    requires b.Balanced() && b.queue != []
    ensures b.waitingHead == b.queue[0] && b.queue[0] !in b.flying && b.queue[0].ns == null
    ensures b.queue[0] !in b.queue[1..] && Idle(b.queue[1..])
  {
  }

  /** How many waiting requests there are room and servers for. */
  function Promotable(servers: seq<Nameserver>, max: int, inflight: int, waiting: nat): nat {
    if servers == [] || max <= inflight then 0 else Min(max - inflight, waiting)
  }

  /** The first `k` waiting requests went into flight, in order; the others wait as before. */
  ghost predicate Promoted(b: Base, f: set<Request>, q: seq<Request>, k: nat)
    reads b`flying, b`queue
  {
    k <= |q| && b.queue == q[k..] && b.flying == f + ToSet(q[..k])
  }

  /**
   What the pump works on: the servers and requests in flight, how often they were sent, and the waiting
   requests.
   */
  datatype Scene = Scene(layout: Layout, choked: set<Nameserver>, marks: map<Request, (nat, bool)>,
                         queue: seq<Request>, counts: map<Request, nat>)

  ghost function SceneOf(b: Base): (s: Scene)
    reads b`servers, b`good, b`flying, b`queue, b.servers`up, b.servers`choked
    reads b.flying`ns, b.flying`txCount, b.flying`transmitMe, b.queue`txCount
  {
    Scene(LayoutOf(b), Choked(b), Marks(b.flying), b.queue, Counts(b.queue))
  }

  ghost function Counts(q: seq<Request>): map<Request, nat>
    reads q`txCount
  {
    map r | r in q :: r.txCount
  }

  lemma SceneIs(b: Base)
    ensures var s := SceneOf(b);
      && s.layout == LayoutOf(b) && s.choked == Choked(b) == ChokedOf(b.servers) && s.marks == Marks(b.flying)
      && s.queue == b.queue && s.counts == Counts(b.queue)
      && s.layout.up == UpSet(b.servers) && s.layout.ring == b.servers
      && s.layout.at.Keys == s.marks.Keys == b.flying
      && (forall r :: r in b.flying ==> s.layout.at[r] == r.ns && s.marks[r] == (r.txCount, r.transmitMe))
      && (forall r :: r in s.counts.Keys <==> r in b.queue) && (forall r :: r in b.queue ==> s.counts[r] == r.txCount)
  {
    hide UpSet, ChokedOf;
  }

  /** The requests in flight and waiting are apart. */
  ghost predicate Divided(s: Scene) {
    && s.marks.Keys == s.layout.at.Keys
    && (forall i :: 0 <= i < |s.queue| ==> s.queue[i] !in s.marks && s.queue[i] in s.counts)
    && (forall r :: r in s.counts ==> r in s.queue)
  }

  lemma ApartIs(b: Base)
    requires b.Balanced()
    ensures forall r :: r in b.queue ==> r !in b.flying
    ensures Divided(SceneOf(b))
  {
    SceneIs(b);
  }

  /** The first waiting request went into flight at this server, and everything else is as before. */
  ghost predicate WentOut(was: Scene, now: Scene, ns: Nameserver)
    requires was.queue != [] && was.queue[0] in was.counts
  {
    var req := was.queue[0];
    && now.layout == was.layout.(at := was.layout.at[req := ns]) && now.choked == was.choked
    && req in now.marks && now.marks == was.marks[req := now.marks[req]] && now.marks[req].0 == was.counts[req]
    && now.queue == was.queue[1..]
    && (forall r :: r in now.counts ==> r in was.counts && now.counts[r] == was.counts[r])
  }

  /** A request in flight was sent, and all others that are marked. */
  ghost predicate SentOn(was: Scene, now: Scene, req: Request)
  {
    && Orderly(was.layout, now.layout) && now.queue == was.queue && now.counts == was.counts
    && now.layout.at.Keys == was.layout.at.Keys && req in was.marks
    && AllTried(was.marks[req := (was.marks[req].0, true)], now.marks, now.layout.at, now.choked)
  }

  /**
   A round: the first waiting request goes into flight, at the server unless that failed, and every request
   in flight has its turn.
   */
  ghost predicate OneMore(was: Scene, now: Scene, ns: Nameserver)
    requires was.queue != []
  {
    var req := was.queue[0];
    && req in was.counts && req !in was.marks && was.marks.Keys == was.layout.at.Keys
    && now.queue == was.queue[1..] && now.layout.at.Keys == was.layout.at.Keys + {req}
    && now.layout.up <= was.layout.up && (now.layout.at[req] == ns || ns !in now.layout.up)
    && (now.layout.up == was.layout.up ==>
        now.layout.ring == was.layout.ring && now.layout.at[req] == ns
        && forall r :: r in was.layout.at ==> now.layout.at[r] == was.layout.at[r])
    && AllTried(was.marks[req := (was.counts[req], true)], now.marks, now.layout.at, now.choked)
    && (forall r :: r in now.counts ==> r in was.counts && now.counts[r] == was.counts[r])
  }

  lemma OutAndSent(was: Scene, mid: Scene, now: Scene, ns: Nameserver)
    requires Divided(was) && was.queue != [] && WentOut(was, mid, ns) && SentOn(mid, now, was.queue[0])
    ensures OneMore(was, now, ns)
  {
    var req := was.queue[0];
    assert mid.marks[req := (mid.marks[req].0, true)] == was.marks[req := (was.counts[req], true)];
    assert forall r :: r in was.layout.at ==> mid.layout.at[r] == was.layout.at[r];
  }

  /** One round of the pump; transaction_id_pick gives any id but 0xffff. */
  method PumpOne(b: Base, ns: Nameserver)
    requires b.Balanced() && b.queue != [] && ns in b.servers
    modifies b`waitingHead, b`queue, b`waitingCount, b`inflight, b`rings, b`flying, b`servers, b`good, b`touched, b.heads
    modifies b.queue`next, b.queue`prev, b.queue`ns, b.queue`transId, b.queue`transmitMe, b.queue`txCount
    modifies b.flying`next, b.flying`prev, b.flying`ns, b.flying`transId, b.flying`transmitMe, b.flying`txCount
    modifies b.servers`requestsInflight, b.servers`choked, b.servers`up, b.servers`failedTimes
    ensures Steady(b, old(b.servers)) && b.inflight == old(b.inflight) + 1 && old(b.touched) <= b.touched
    ensures b.queue == old(b.queue)[1..] && b.flying == old(b.flying) + {old(b.queue)[0]}
    ensures old(SceneOf(b)).queue != [] && OneMore(old(SceneOf(b)), SceneOf(b), ns)
  {
    hide *;
    ghost var was := SceneOf(b);
    SceneIs(b);
    ApartIs(b);
    var req := PromoteFirst(b, ns);
    ghost var mid := SceneOf(b);
    SendPromoted(b, req);
    OutAndSent(was, mid, SceneOf(b), ns);
  }

  /** The first waiting request goes into flight. */
  method PromoteFirst(b: Base, ns: Nameserver) returns (req: Request)
    requires b.Balanced() && b.queue != [] && ns in b.servers
    modifies b`waitingHead, b`queue, b`waitingCount, b`inflight, b`rings, b`flying, b`touched, b.heads
    modifies ns`requestsInflight
    modifies b.queue`ns, b.queue`transId, b.queue`next, b.queue`prev, b.flying`next, b.flying`prev
    ensures b.Balanced() && b.inflight == old(b.inflight) + 1 && old(b.touched) <= b.touched
    ensures req == old(b.queue)[0] && req in b.flying
    ensures b.queue == old(b.queue)[1..] && b.flying == old(b.flying) + {req}
    ensures old(SceneOf(b)).queue != [] && req in old(SceneOf(b)).counts && old(SceneOf(b)).queue[0] == req
    ensures WentOut(old(SceneOf(b)), SceneOf(b), ns)
  {
    hide *;
    ghost var was := SceneOf(b);
    SceneIs(b);
    BalancedParts(b);
    FirstWaits(b);
    req := b.waitingHead;
    var id: nat := *;
    Promote(b, ns, id % 0xffff);
    WentOutIs(b, was, ns);
  }

  /** Nothing but the servers and the sending has changed. */
  ghost predicate Staying(was: Scene, now: Scene) {
    && Orderly(was.layout, now.layout) && now.queue == was.queue && now.counts == was.counts
    && now.layout.at.Keys == was.layout.at.Keys == now.marks.Keys == was.marks.Keys
  }

  lemma StayingIs(b: Base, was: Scene)
    requires Orderly(was.layout, LayoutOf(b)) && b.queue == was.queue && b.flying == was.layout.at.Keys == was.marks.Keys
    requires (forall r :: r in was.counts.Keys <==> r in b.queue) && forall r :: r in b.queue ==> r.txCount == was.counts[r]
    ensures Staying(was, SceneOf(b))
  {
    hide Orderly, UpSet, Choked;
    SceneIs(b);
    assert SceneOf(b).counts == was.counts;
  }

  /** The promoted request had its turn. */
  ghost predicate FirstSent(was: Scene, now: Scene, req: Request) {
    && Staying(was, now) && req in was.marks
    && (forall r :: r in was.marks && r != req ==> now.marks[r] == was.marks[r])
    && TriedTo((was.marks[req].0, true), now.marks[req], now.layout.at[req] in now.choked)
  }

  method SendFirst(b: Base, req: Request)
    requires b.Balanced() && req in b.flying
    modifies b`servers, b`good, b`touched, b.flying`ns, b.flying`transmitMe, b.flying`txCount
    modifies b.servers`requestsInflight, b.servers`choked, b.servers`up, b.servers`failedTimes
    ensures Steady(b, old(b.servers)) && old(b.touched) <= b.touched && FirstSent(old(SceneOf(b)), SceneOf(b), req)
  {
    hide *;
    SceneIs(b);
    ApartIs(b);
    ghost var was := SceneOf(b);
    var _, _ := Transmit(b, req);
    SceneIs(b);
    StayingIs(b, was);
    FirstSentIs(b, was, req);
  }

  lemma FirstSentIs(b: Base, was: Scene, req: Request)
    requires Staying(was, SceneOf(b)) && req in b.flying && b.flying == was.marks.Keys
    requires forall r :: r in b.flying && r != req ==> (r.txCount, r.transmitMe) == was.marks[r]
    requires if req.transmitMe then req.txCount == was.marks[req].0 && req.ns in Choked(b) else req.txCount == was.marks[req].0 + 1
    ensures FirstSent(was, SceneOf(b), req)
  {
    hide Staying, Choked, UpSet;
    SceneIs(b);
  }

  /** All that are marked had their turn. */
  ghost predicate LapSent(was: Scene, now: Scene) {
    Staying(was, now) && AllTried(was.marks, now.marks, now.layout.at, now.choked)
  }

  method SendLap(b: Base)
    requires b.Balanced()
    modifies b`servers, b`good, b`touched, b.flying`ns, b.flying`transmitMe, b.flying`txCount
    modifies b.servers`requestsInflight, b.servers`choked, b.servers`up, b.servers`failedTimes
    ensures Steady(b, old(b.servers)) && old(b.touched) <= b.touched && LapSent(old(SceneOf(b)), SceneOf(b))
  {
    hide *;
    SceneIs(b);
    ApartIs(b);
    ghost var was := SceneOf(b);
    var _ := TransmitAll(b);
    SceneIs(b);
    StayingIs(b, was);
    TriedAll(b, was.marks);
    LapSentIs(was, SceneOf(b));
  }

  lemma LapSentIs(was: Scene, now: Scene)
    requires Staying(was, now) && AllTried(was.marks, now.marks, now.layout.at, now.choked)
    ensures LapSent(was, now)
  {
  }

  /** The sending in a round of the pump: the promoted request, and all that are marked. */
  method SendPromoted(b: Base, req: Request)
    requires b.Balanced() && req in b.flying
    modifies b`servers, b`good, b`touched, b.flying`ns, b.flying`transmitMe, b.flying`txCount
    modifies b.servers`requestsInflight, b.servers`choked, b.servers`up, b.servers`failedTimes
    ensures Steady(b, old(b.servers)) && old(b.touched) <= b.touched && SentOn(old(SceneOf(b)), SceneOf(b), req)
  {
    hide *;
    ghost var was, before := SceneOf(b), b.servers;
    SendFirst(b, req);
    SteadyParts(b, before);
    ghost var scene, mid := SceneOf(b), b.servers;
    SendLap(b);
    SteadyAgain(b, before, mid);
    SentInTwo(was, scene, SceneOf(b), req);
  }

  lemma SentInTwo(was: Scene, mid: Scene, now: Scene, req: Request)
    requires FirstSent(was, mid, req) && LapSent(mid, now)
    ensures SentOn(was, now, req)
  {
    hide Orderly, TriedTo, AllTried;
    OrderlyThrough(was.layout, mid.layout, now.layout);
    TriedFirst(was.marks[req := (was.marks[req].0, true)], mid.marks, now.marks, now.layout.at, now.choked, req,
               mid.layout.at[req] in mid.choked);
  }

  lemma WentOutIs(b: Base, was: Scene, ns: Nameserver)
    requires was.queue != [] && was.queue[0] in was.counts && was.queue[0] !in was.marks
    requires b.flying == was.marks.Keys + {was.queue[0]} && was.marks.Keys == was.layout.at.Keys
    requires was.layout.ring == b.servers && was.layout.up == UpSet(b.servers) && was.choked == Choked(b)
    requires b.queue == was.queue[1..] && was.queue[0].ns == ns && was.queue[0].txCount == was.counts[was.queue[0]]
    requires forall r :: r in was.marks ==> r.ns == was.layout.at[r] && was.marks[r] == (r.txCount, r.transmitMe)
    requires forall r :: r in b.queue ==> r in was.counts && r.txCount == was.counts[r]
    ensures WentOut(was, SceneOf(b), ns)
  {
    hide UpSet, Choked;
    var req, now := was.queue[0], SceneOf(b);
    assert now.layout.at == was.layout.at[req := ns];
    assert now.layout == was.layout.(at := was.layout.at[req := ns]);
    assert now.marks == was.marks[req := (was.counts[req], req.transmitMe)];
  }

  /** The servers that are up tell how many are good, and which. */
  lemma UpTells(b: Base)
    requires b.Balanced()
    ensures b.good == |UpSet(b.servers)|
    ensures forall n :: n in b.servers ==> (n.up <==> n in UpSet(b.servers))
  {
    GoodIsUpSet(b.servers);
  }

  /** A round, at the server that was picked. */
  ghost predicate Round(was: Scene, now: Scene, used: Nameserver?) {
    && was.queue != [] && used != null && used == PickBy(was.layout.ring, was.layout.up)
    && OneMore(was.(layout := was.layout.(ring := TurnBy(was.layout.ring, was.layout.up))), now, used)
  }

  /** The body of the pump's loop: without a server it stops; `used` is the server picked for the first waiting request. */
  method PumpNext(b: Base, ghost before: seq<Nameserver>) returns (used: Nameserver?)
    requires Steady(b, before) && b.queue != []
    modifies b`waitingHead, b`queue, b`waitingCount, b`inflight, b`rings, b`flying, b`servers, b`good, b`touched, b.heads
    modifies b.queue`next, b.queue`prev, b.queue`ns, b.queue`transId, b.queue`transmitMe, b.queue`txCount
    modifies b.flying`next, b.flying`prev, b.flying`ns, b.flying`transId, b.flying`transmitMe, b.flying`txCount
    modifies b.servers`requestsInflight, b.servers`choked, b.servers`up, b.servers`failedTimes
    ensures Steady(b, before) && old(b.touched) <= b.touched
    ensures used == null <==> old(b.servers) == []
    ensures used != null ==>
      && b.queue == old(b.queue)[1..] && b.flying == old(b.flying) + {old(b.queue)[0]}
      && b.inflight == old(b.inflight) + 1 && old(b.servers)[0] in b.touched
      && Round(old(SceneOf(b)), SceneOf(b), used)
    ensures used == null ==>
      && b.queue == old(b.queue) && b.flying == old(b.flying) && b.servers == old(b.servers)
      && b.inflight == old(b.inflight) && b.waitingCount == old(b.waitingCount) && SceneOf(b) == old(SceneOf(b))
  {
    hide *;
    SteadyParts(b, before);
    ghost var was := SceneOf(b);
    used := PickNext(b);
    if used == null {
      BeginAgain(b, before);
      return;
    }
    ghost var turned, ring := SceneOf(b), b.servers;
    SameAgain(before, old(b.servers), b.servers);
    PumpOne(b, used);
    SteadyAgain(b, before, ring);
    RoundIs(was, turned, SceneOf(b), used);
  }

  /** A pick, told from which servers are up. */
  method PickTurned(b: Base) returns (used: Nameserver?)
    requires b.Balanced()
    modifies b`servers, b`touched
    ensures b.Balanced() && Same(old(b.servers), b.servers) && old(b.touched) <= b.touched
    ensures UpSet(b.servers) == old(UpSet(b.servers))
    ensures b.servers == TurnBy(old(b.servers), old(UpSet(b.servers)))
    ensures used == PickBy(old(b.servers), old(UpSet(b.servers)))
    ensures used == null <==> old(b.servers) == []
    ensures used != null ==> used in b.servers && old(b.servers)[0] in b.touched
  {
    hide *;
    BalancedParts(b);
    LooksAtHead(b.servers, b.good);
    PicksTold(b);
    used := PickFor(b, b.flying, b.queue);
    BalancedFrom(b);
    SameEmpty(old(b.servers), b.servers);
  }

  lemma SameEmpty(a: seq<Nameserver>, b: seq<Nameserver>)
    ensures Same(a, b) ==> (a == [] <==> b == [])
  {
  }

  /** The pick in a round. */
  method PickNext(b: Base) returns (used: Nameserver?)
    requires b.Balanced() && b.queue != []
    modifies b`servers, b`touched
    ensures b.Balanced() && Same(old(b.servers), b.servers) && old(b.touched) <= b.touched
    ensures used == null <==> old(b.servers) == []
    ensures used == null ==> b.servers == old(b.servers) && SceneOf(b) == old(SceneOf(b))
    ensures used != null ==> used in b.servers && old(b.servers)[0] in b.touched
    ensures TurnedTo(old(SceneOf(b)), SceneOf(b), used)
  {
    hide *;
    SceneIs(b);
    ghost var was := SceneOf(b);
    used := PickTurned(b);
    SameChoked(old(b.servers), b.servers);
    SceneIs(b);
    TurnedScene(was, SceneOf(b), used);
  }

  /** Only the ring was turned, and with it what will be picked. */
  ghost predicate TurnedTo(was: Scene, now: Scene, used: Nameserver?) {
    && now == was.(layout := was.layout.(ring := TurnBy(was.layout.ring, was.layout.up)))
    && used == PickBy(was.layout.ring, was.layout.up)
  }

  lemma TurnedScene(was: Scene, now: Scene, used: Nameserver?)
    requires now.layout.up == was.layout.up && now.layout.at.Keys == was.layout.at.Keys
    requires forall r :: r in now.layout.at.Keys ==> now.layout.at[r] == was.layout.at[r]
    requires now.choked == was.choked && now.marks == was.marks && now.queue == was.queue && now.counts == was.counts
    requires now.layout.ring == TurnBy(was.layout.ring, was.layout.up) && used == PickBy(was.layout.ring, was.layout.up)
    ensures TurnedTo(was, now, used)
  {
    assert now.layout.at == was.layout.at;
  }

  lemma RoundIs(was: Scene, turned: Scene, now: Scene, used: Nameserver?)
    requires TurnedTo(was, turned, used) && used != null && turned.queue != [] && OneMore(turned, now, used)
    ensures Round(was, now, used)
  {
  }

  /**
   What the pump has done after `k` rounds: the promoted requests are at the servers picked for them as long
   as none failed, and every request in flight had its turn.
   */
  ghost predicate Pumped(k: nat, was: Scene, now: Scene) {
    && k <= |was.queue| && now.queue == was.queue[k..] && now.layout.up <= was.layout.up
    && (k == 0 ==> now == was) && now.marks.Keys == now.layout.at.Keys
    && (k > 0 ==> AllTried(was.marks + AsMarked(was.counts), now.marks, now.layout.at, now.choked))
    && (now.layout.up == was.layout.up ==>
        var picks := PicksBy(was.layout.ring, was.layout.up, |was.queue|);
        && PicksBy(now.layout.ring, now.layout.up, |was.queue| - k) == picks[k..]
        && forall i :: 0 <= i < k ==> At(now, was.queue[i], picks[i]))
    && (forall r :: r in now.counts ==> r in was.counts && now.counts[r] == was.counts[r])
    && (forall i :: 0 <= i < k ==> was.queue[i] in now.marks)
  }

  ghost predicate At(s: Scene, r: Request, n: Nameserver?) {
    r in s.layout.at && s.layout.at[r] == n
  }

  ghost function AsMarked(counts: map<Request, nat>): map<Request, (nat, bool)> {
    map r | r in counts :: (counts[r], true)
  }

  lemma PumpedMore(k: nat, was: Scene, mid: Scene, now: Scene, used: Nameserver?)
    requires Divided(was) && Divided(now) && Pumped(k, was, mid) && Round(mid, now, used)
    ensures Pumped(k + 1, was, now)
  {
    hide TriedTo;
    var req := was.queue[k];
    assert mid.queue[0] == req && req in mid.counts && mid.counts[req] == was.counts[req];
    var more, all := mid.marks[req := (mid.counts[req], true)], was.marks + AsMarked(was.counts);
    PumpedTried(k, was, mid, now, req, more, all);
    PumpedPlaces(k, was, mid, now, used);
  }

  lemma PumpedTried(k: nat, was: Scene, mid: Scene, now: Scene, req: Request,
                    more: map<Request, (nat, bool)>, all: map<Request, (nat, bool)>)
    requires Divided(was) && Pumped(k, was, mid) && all == was.marks + AsMarked(was.counts)
    requires req in was.counts && req !in mid.marks && more == mid.marks[req := (was.counts[req], true)]
    requires AllTried(more, now.marks, now.layout.at, now.choked)
    ensures AllTried(all, now.marks, now.layout.at, now.choked)
  {
    hide TriedTo;
    if k > 0 {
      TriedAgain(all, mid.marks, mid.layout.at, mid.choked, more, now.marks, now.layout.at, now.choked);
    }
  }

  lemma PumpedPlaces(k: nat, was: Scene, mid: Scene, now: Scene, used: Nameserver?)
    requires Pumped(k, was, mid) && Round(mid, now, used)
    ensures now.layout.up == was.layout.up ==>
      var picks := PicksBy(was.layout.ring, was.layout.up, |was.queue|);
      && PicksBy(now.layout.ring, now.layout.up, |was.queue| - k - 1) == picks[k + 1..]
      && forall i :: 0 <= i < k + 1 ==> At(now, was.queue[i], picks[i])
  {
    hide AllTried, PickBy, TurnBy;
    if now.layout.up == was.layout.up {
      var picks := PicksBy(was.layout.ring, was.layout.up, |was.queue|);
      assert mid.layout.up == was.layout.up;
      assert picks[k..][0] == picks[k] && picks[k..][1..] == picks[k + 1..];
      forall i | 0 <= i < k
        ensures At(now, was.queue[i], picks[i])
      {
        assert At(mid, was.queue[i], picks[i]);
      }
    }
  }

  /**
   evdns_requests_pump_waiting_queue: it ends when nothing waits, or there is no room or no server.
   Without room, or when nothing waits, it looks at no server. Every request that goes into flight is sent,
   unless its server's socket takes nothing for now; and as long as no server fails, they go to the
   servers as these are picked one after the other.
   */
  method Pump(b: Base)
    requires b.Balanced()
    modifies b`waitingHead, b`queue, b`waitingCount, b`inflight, b`rings, b`flying, b`servers, b`good, b`touched, b.heads
    modifies b.queue`next, b.queue`prev, b.queue`ns, b.queue`transId, b.queue`transmitMe, b.queue`txCount
    modifies b.flying`next, b.flying`prev, b.flying`ns, b.flying`transId, b.flying`transmitMe, b.flying`txCount
    modifies b.servers`requestsInflight, b.servers`choked, b.servers`up, b.servers`failedTimes
    ensures Steady(b, old(b.servers)) && UpSet(b.servers) <= old(UpSet(b.servers)) && old(b.touched) <= b.touched
    ensures Promoted(b, old(b.flying), old(b.queue), Promotable(old(b.servers), b.maxInflight, old(b.inflight), |old(b.queue)|))
    ensures b.queue == [] || b.inflight >= b.maxInflight || b.servers == []
    ensures b.inflight == old(b.inflight) || old(b.inflight) < b.inflight <= b.maxInflight
    ensures forall r :: r in old(b.queue) ==>
      if r !in b.flying then r.txCount == old(r.txCount)
      else if r.transmitMe then r.txCount == old(r.txCount) && r.ns in Choked(b)
      else r.txCount == old(r.txCount) + 1
    ensures UpSet(b.servers) == old(UpSet(b.servers)) ==>
      InTurn(b, old(b.queue), PicksBy(old(b.servers), UpSet(b.servers), |old(b.queue)|))
    ensures old(b.inflight) >= b.maxInflight || old(b.queue) == [] ==> Untouched(b)
    ensures old(b.inflight) < b.maxInflight && old(b.queue) != [] && old(b.servers) != [] ==>
      old(b.servers)[0] in b.touched
  {
    hide *;
    QueueLength(b);
    ApartIs(b);
    SceneIs(b);
    ghost var was := SceneOf(b);
    if b.inflight < b.maxInflight && b.waitingCount != 0 {
      PumpLoop(b);
    } else {
      Begin(b);
      PromotedNone(b);
      PumpedNone(was);
      PromotableIs(b.servers, b.maxInflight, b.inflight, |b.queue|, 0);
      NotTouched(b);
    }
    SceneIs(b);
    ApartIs(b) by { SteadyParts(b, old(b.servers)); }
    PumpedTells(|was.queue| - |b.queue|, was, SceneOf(b));
    InTurnIs(b, old(b.queue), PicksBy(old(b.servers), UpSet(b.servers), |old(b.queue)|));
  }

  lemma InTurnIs(b: Base, q: seq<Request>, picks: seq<Nameserver?>)
    ensures |picks| == |q| && (forall i :: 0 <= i < |q| && q[i] in b.flying ==> q[i].ns == picks[i]) ==> InTurn(b, q, picks)
  {
  }

  /** The requests that are in flight now are at these servers, one after the other. */
  ghost predicate InTurn(b: Base, q: seq<Request>, picks: seq<Nameserver?>)
    requires |picks| == |q|
    reads b`flying, b.flying`ns
  {
    forall i :: 0 <= i < |q| && q[i] in b.flying ==> q[i].ns == picks[i]
  }

  /** What it comes to for the requests. */
  lemma PumpedTells(k: nat, was: Scene, now: Scene)
    requires Divided(was) && Divided(now) && Pumped(k, was, now)
    ensures now.layout.up <= was.layout.up
    ensures forall r :: r in was.counts && r !in now.marks ==> r in now.counts && now.counts[r] == was.counts[r]
    ensures forall r :: r in was.counts && r in now.marks ==> r in now.layout.at
    ensures forall r :: r in was.counts && r in now.marks && now.marks[r].1 ==>
      now.marks[r].0 == was.counts[r] && now.layout.at[r] in now.choked
    ensures forall r :: r in was.counts && r in now.marks && !now.marks[r].1 ==> now.marks[r].0 == was.counts[r] + 1
    ensures now.layout.up == was.layout.up ==> (forall i :: 0 <= i < |was.queue| && was.queue[i] in now.marks ==>
      was.queue[i] in now.layout.at && now.layout.at[was.queue[i]] == PicksBy(was.layout.ring, was.layout.up, |was.queue|)[i])
  {
    hide PicksBy;
    assert forall i :: k <= i < |was.queue| ==> was.queue[i] == now.queue[i - k];
    forall r | r in was.counts && r !in now.marks
      ensures r in now.counts && now.counts[r] == was.counts[r]
    {
      var i :| 0 <= i < |was.queue| && was.queue[i] == r;
      assert i >= k;
    }
    if now.layout.up == was.layout.up {
      assert forall i :: 0 <= i < k ==> At(now, was.queue[i], PicksBy(was.layout.ring, was.layout.up, |was.queue|)[i]);
    }
  }

  lemma PumpedNone(was: Scene)
    requires Divided(was)
    ensures Pumped(0, was, was)
  {
  }

  method PumpLoop(b: Base)
    requires b.Balanced() && b.inflight < b.maxInflight && b.queue != []
    modifies b`waitingHead, b`queue, b`waitingCount, b`inflight, b`rings, b`flying, b`servers, b`good, b`touched, b.heads
    modifies b.queue`next, b.queue`prev, b.queue`ns, b.queue`transId, b.queue`transmitMe, b.queue`txCount
    modifies b.flying`next, b.flying`prev, b.flying`ns, b.flying`transId, b.flying`transmitMe, b.flying`txCount
    modifies b.servers`requestsInflight, b.servers`choked, b.servers`up, b.servers`failedTimes
    ensures Steady(b, old(b.servers)) && old(b.touched) <= b.touched
    ensures Promoted(b, old(b.flying), old(b.queue), Promotable(old(b.servers), b.maxInflight, old(b.inflight), |old(b.queue)|))
    ensures b.queue == [] || b.inflight >= b.maxInflight || b.servers == []
    ensures |b.queue| <= |old(b.queue)| && b.inflight == old(b.inflight) + |old(b.queue)| - |b.queue| <= b.maxInflight
    ensures Pumped(|old(b.queue)| - |b.queue|, old(SceneOf(b)), SceneOf(b))
    ensures old(b.servers) != [] ==> old(b.servers)[0] in b.touched
  {
    hide *;
    Begin(b);
    ghost var k, was := 0, SceneOf(b);
    PromotedNone(b);
    ApartIs(b);
    PumpedNone(was);
    QueueLength(b);
    while b.inflight < b.maxInflight && b.waitingCount != 0
      invariant Steady(b, old(b.servers)) && Promoted(b, old(b.flying), old(b.queue), k)
      invariant old(b.touched) <= b.touched && Pumped(k, was, SceneOf(b))
      invariant k == 0 ==> b.servers == old(b.servers)
      invariant k > 0 ==> old(b.servers) != [] && old(b.servers)[0] in b.touched
      invariant b.heads == old(b.heads) && b.inflight == old(b.inflight) + k && b.inflight <= b.maxInflight
      invariant b.waitingCount == |old(b.queue)| - k
      decreases b.maxInflight - b.inflight
    {
      SteadyParts(b, old(b.servers));
      PromotedParts(b, old(b.flying), old(b.queue), k);
      QueueLength(b);
      ghost var mid := SceneOf(b);
      var used := PumpNext(b, old(b.servers));
      SteadyParts(b, old(b.servers));
      if used == null {
        PromotedAgain(b, old(b.flying), old(b.queue), k);
        break;
      }
      ApartIs(b);
      PumpedMore(k, was, mid, SceneOf(b), used);
      PromotedMore(b, old(b.flying), old(b.queue), k);
      QueueLength(b);
      k := k + 1;
    }
    SteadyParts(b, old(b.servers));
    PromotedParts(b, old(b.flying), old(b.queue), k);
    QueueLength(b);
    PromotableIs(old(b.servers), b.maxInflight, old(b.inflight), |old(b.queue)|, k);
  }

  twostate lemma NotTouched(b: Base)
    requires unchanged(b) && forall r :: r in b.flying ==> r.ns == old(r.ns)
    ensures Untouched(b)
  {
  }

  lemma PromotedAgain(b: Base, f: set<Request>, q: seq<Request>, k: nat)
    requires k <= |q| && b.queue == q[k..] && b.flying == f + ToSet(q[..k])
    ensures Promoted(b, f, q, k)
  {
  }

  /** No server was looked at, and no request was moved. */
  twostate predicate Untouched(b: Base)
    reads b, b.flying
  {
    && b.servers == old(b.servers) && b.touched == old(b.touched) && b.rings == old(b.rings)
    && b.flying == old(b.flying) && b.queue == old(b.queue) && b.inflight == old(b.inflight)
    && forall r :: r in b.flying ==> r.ns == old(r.ns)
  }

  lemma PicksTold(b: Base)
    requires b.Balanced()
    ensures Picked(b.servers, b.good) == PickBy(b.servers, UpSet(b.servers))
    ensures Next(b.servers, b.good) == TurnBy(b.servers, UpSet(b.servers))
  {
    PickIsBy(b.servers, UpSet(b.servers), b.good);
  }

  lemma LooksAtHead(ring: seq<Nameserver>, good: int)
    ensures ring != [] ==> ring[0] in LookedAt(ring, good)
    ensures ring == [] ==> LookedAt(ring, good) == {}
  {
  }

  lemma QueueLength(b: Base)
    requires b.Balanced()
    ensures b.waitingCount == |b.queue|
  {
  }

  lemma PromotedMore(b: Base, f: set<Request>, q: seq<Request>, k: nat)
    requires k < |q| && b.queue == q[k..][1..] && b.flying == f + ToSet(q[..k]) + {q[k..][0]}
    ensures Promoted(b, f, q, k + 1)
  {
    assert q[..k + 1] == q[..k] + [q[k]];
  }

  lemma PromotableIs(servers: seq<Nameserver>, max: int, inflight: int, waiting: nat, k: nat)
    requires k <= waiting && (k > 0 ==> servers != [] && inflight + k <= max)
    requires servers == [] || inflight + k >= max || k == waiting
    ensures k == Promotable(servers, max, inflight, waiting)
  {
  }

  lemma PromotedNone(b: Base)
    ensures Promoted(b, b.flying, b.queue, 0)
  {
    assert b.flying == b.flying + ToSet(b.queue[..0]);
  }

  lemma PromotedParts(b: Base, f: set<Request>, q: seq<Request>, k: nat)
    requires Promoted(b, f, q, k)
    ensures k <= |q| && b.queue == q[k..] && b.flying == f + ToSet(q[..k])
    ensures forall r :: r in b.flying ==> r in f || r in q
    ensures forall r :: r in b.queue ==> r in q
  {
  }

  /** All requests that are not finished. */
  ghost function Outstanding(b: Base): set<Request>
    reads b`flying, b`queue
  {
    b.flying + ToSet(b.queue)
  }

  lemma OutstandingIs(b: Base)
    ensures Outstanding(b) == b.flying + ToSet(b.queue)
    ensures forall r :: r in Outstanding(b) <==> r in b.flying || r in b.queue
  {
  }

  lemma PromotedOutstanding(b: Base, f: set<Request>, q: seq<Request>, k: nat)
    requires Promoted(b, f, q, k)
    ensures Outstanding(b) == f + ToSet(q)
  {
    assert q == q[..k] + q[k..];
  }
}
