/**
 What happens to the resolver from outside: servers fail, sockets take packets again, replies
 arrive, and the callbacks of probes run.
 */
module DnsEvents {
  import opened DnsRing
  import opened DnsServers
  import opened DnsResolver
  import opened DnsTraffic
  import opened DnsSending
  import opened DnsPump
  import opened DnsRequests

  /** nameserver_failed, for requests with handles */
  method ServerFails(b: Base, ns: Nameserver)
    requires b.Valid() && ns in b.servers
    modifies b`servers, b`good, b`touched, ns`up, ns`failedTimes, b.flying`ns, b.servers`requestsInflight
    ensures b.Valid() && Same(old(b.servers), b.servers) && !ns.up
    ensures b.good == old(b.good) - if old(ns.up) then 1 else 0
    ensures !old(ns.up) || b.flying == {} ==> b.servers == old(b.servers)
    ensures UpSet(b.servers) == old(UpSet(b.servers)) - {ns} && (UpSet(b.servers) == {} ==> b.servers == old(b.servers))
    ensures forall r :: r in b.flying ==> MovedUp(r, old(r.ns), ns, UpSet(b.servers))
  {
    hide Steady, Base.Valid, Base.Balanced, Tracked, Same, Outstanding, ToSet;
    ValidIs(b);
    ghost var f, q, s := b.flying, b.queue, b.servers;
    OutstandingIs(b);
    NameserverFailed(b, ns);
    UpTells(b);
    OutstandingIs(b);
    BeginAgain(b, s);
    ValidTo(b, f, q, s);
  }

  /** A server's socket takes packets again: it is not choked any more, and what is marked is sent. */
  method SendMarked(b: Base, ns: Nameserver)
    requires b.Valid() && ns in b.servers
    modifies b`servers, b`good, b`touched, b.servers`requestsInflight, b.servers`choked, b.servers`up
    modifies b.servers`failedTimes, b.flying`ns, b.flying`transmitMe, b.flying`txCount
    ensures b.Valid() && Same(old(b.servers), b.servers) && b.flying == old(b.flying) && b.queue == old(b.queue)
    ensures Tried(b, old(Marks(b.flying)), b.flying)
    ensures (forall r :: r in b.flying ==> !old(r.transmitMe)) ==> Choked(b) == old(Choked(b)) - {ns}
  {
    hide Steady, Base.Valid, Base.Balanced, Tracked, Same, Outstanding, ToSet, Tried, AnyMarked;
    ns.choked := false;
    assert Choked(b) == old(Choked(b)) - {ns};
    NothingMarked(b.flying);
    ValidIs(b);
    ghost var f, q, s := b.flying, b.queue, b.servers;
    OutstandingIs(b);
    var _ := TransmitAll(b);
    OutstandingIs(b);
    ValidTo(b, f, q, s);
  }

  lemma NothingMarked(f: set<Request>)
    ensures (forall r :: r in f ==> !r.transmitMe) ==> !AnyMarked(Marks(f), f)
  {
  }

  /** It will be sent anew, once more. */
  twostate predicate Reissued(req: Request)
    reads req`txCount, req`transmitMe, req`reissueCount
  {
    req.txCount == 0 && req.transmitMe && req.reissueCount == old(req.reissueCount) + 1
  }

  /** request_reissue, for requests with handles */
  method ReissueKept(b: Base, req: Request) returns (result: int)
    requires b.Valid() && req in b.flying
    modifies b`servers, b`touched, b.servers`requestsInflight
    modifies req`ns, req`reissueCount, req`txCount, req`transmitMe
    ensures b.Valid() && Same(old(b.servers), b.servers)
    ensures result == if req.ns == old(req.ns) then 1 else 0
    ensures result == 0 ==> Reissued(req)
    ensures req.ns == PickBy(old(b.servers), old(UpSet(b.servers))) && UpSet(b.servers) == old(UpSet(b.servers))
  {
    hide Steady, Base.Valid, Base.Balanced, Tracked, Same, Outstanding, ToSet;
    ValidIs(b);
    ghost var f, q, s := b.flying, b.queue, b.servers;
    OutstandingIs(b);
    PicksTold(b);
    result := Reissue(b, req);
    SameUp(s, b.servers) by { SteadyParts(b, s); }
    OutstandingIs(b);
    ValidTo(b, f, q, s);
  }

  /** What a reply says to the resolver. */
  datatype Verdict =
    | Good           // an answer
    | OtherError     // no answer, but the server is in order
    | BadServer      // NOTIMPL or REFUSED
    | Failing        // SERVFAIL

  datatype Limits = Limits(reissues: nat, retransmits: nat, timeouts: nat)

  /** The probe of the server that a request is at, and what it stands for. */
  ghost function ProbeAt(req: Request): set<Handle>
    reads req`ns, UsedBy(req)`probe
  {
    if req.ns == null || req.ns.probe == null then {} else {req.ns.probe}
  }

  ghost function ProbedAt(req: Request): set<Request>
    reads req`ns, UsedBy(req)`probe, ProbeAt(req)
  {
    if req.ns == null then {} else CurrentOf(req.ns.probe)
  }

  /**
   The server of the request has answered: it is up, and if the request is its probe, that has served
   its purpose; any other probe of it is cancelled.
   */
  method ServerAnswered(b: Base, req: Request)
    requires b.Valid() && req in b.flying
    modifies b`waitingHead, b`queue, b`waitingCount, b`inflight, b`rings, b`flying, b`servers, b`good, b`touched, b.heads
    modifies b.queue`next, b.queue`prev, b.queue`ns, b.queue`transId, b.queue`transmitMe, b.queue`txCount
    modifies b.flying`next, b.flying`prev, b.flying`ns, b.flying`transId, b.flying`transmitMe, b.flying`txCount
    modifies b.servers`requestsInflight, b.servers`choked, b.servers`up, b.servers`failedTimes, b`handles
    modifies UsedBy(req)`probe, UsedBy(req)`timedout, ProbeAt(req), ProbedAt(req)`handle
    ensures b.Valid() && Same(old(b.servers), b.servers) && b.handles == old(b.handles) && req in b.flying
    ensures Outstanding(b) <= old(Outstanding(b)) && old(Outstanding(b)) - (old(ProbedAt(req)) - {req}) <= Outstanding(b)
    ensures req.handle == old(req.handle) && UnchangedHandle(req.handle)
    ensures var ns := old(req.ns); ns != null && ns.up && (!old(ns.up) ==> ns.probe == null && ns.timedout == 0)
    ensures old(NoneCancelled(b.servers)) ==> NoneCancelled(b.servers)
  {
    hide Base.Valid, Same, Outstanding;
    HandleOf(b, req);
    ServerTells(b, req);
    OutstandingIs(b);
    var ns := req.ns;
    NotTheProbe(b, req);
    if req.handle == ns.probe {
      ClearProbe(b, ns);
    }
    NameserverUp(b, ns);
    OutstandingIs(b);
  }

  lemma NotTheProbe(b: Base, req: Request)
    requires b.Valid() && req in b.flying
    ensures req.ns != null && req.handle != null
    ensures req in ProbedAt(req) ==> req.ns.probe == req.handle
    ensures req.ns.probe == req.handle ==> ProbedAt(req) == {req}
    ensures forall r :: r in ProbedAt(req) ==> r in b.flying
  {
    hide Base.Linked, Base.Counts;
    ValidIs(b);
    WhereIs(b, req);
    assert forall h :: h in b.handles ==> Standing(h, b.flying, b.queue);
  }

  /** reply_handle, without search lists */
  method ReplyHandle(b: Base, req: Request, verdict: Verdict, limits: Limits)
    requires b.Valid() && req in b.flying
    modifies b`waitingHead, b`queue, b`waitingCount, b`inflight, b`rings, b`flying, b`servers, b`good, b`touched, b.heads
    modifies b.queue`next, b.queue`prev, b.queue`ns, b.queue`transId, b.queue`transmitMe, b.queue`txCount
    modifies b.flying`next, b.flying`prev, b.flying`ns, b.flying`transId, b.flying`transmitMe, b.flying`txCount
    modifies b.servers`requestsInflight, b.servers`choked, b.servers`up, b.servers`failedTimes, b`handles
    modifies UsedBy(req)`probe, b.servers`timedout, ProbeAt(req), ProbedAt(req)`handle
    modifies req`handle, req`reissueCount, req.handle`current, req.handle`pendingCb
    ensures b.Valid() && Same(old(b.servers), b.servers) && b.handles == old(b.handles)
    ensures Outstanding(b) <= old(Outstanding(b))
    ensures old(Outstanding(b)) - {req} - old(ProbedAt(req)) <= Outstanding(b)
    ensures verdict.Good? || verdict.OtherError? ==>
      && req !in Outstanding(b) && Ended(old(req.handle))
      && var ns := old(req.ns); ns != null && (!old(ns.up) ==> ns.probe == null && ns.timedout == 0)
    ensures verdict.BadServer? ==> Rejected(b, req, old(req.handle), limits.reissues)
    ensures verdict.BadServer? && old(req.txCount) > 0 ==>
      (req in Outstanding(b) <==> old(req.reissueCount) < limits.reissues && old(OthersToTry(b, req)))
    ensures verdict.Failing? ==> if old(req.txCount) >= limits.retransmits then req !in Outstanding(b) && Ended(old(req.handle))
      else b.flying == old(b.flying) && b.queue == old(b.queue) && Attempted(req)
    ensures old(NoneCancelled(b.servers)) ==> NoneCancelled(b.servers)
    ensures var h := old(req.handle); h != null && h.cancelled == old(h.cancelled)
  {
    hide Base.Valid, Same, Outstanding;
    HandleOf(b, req);
    ServerTells(b, req);
    OutstandingIs(b);
    match verdict {
      case Good =>
        Schedule(b, req);
        AnswerFrom(b, req);
      case OtherError =>
        AnswerFrom(b, req);
      case BadServer =>
        Reject(b, req, limits.reissues);
        SameMembers(old(b.servers), b.servers);
      case Failing =>
        var _ := TimedOut(b, req, limits.retransmits, limits.timeouts);
        OutstandingIs(b);
        SameMembers(old(b.servers), b.servers);
    }
  }

  /** The server is in order, and the request ends. (For an error the callback is scheduled only then.) */
  method AnswerFrom(b: Base, req: Request)
    requires b.Valid() && req in b.flying
    modifies b`waitingHead, b`queue, b`waitingCount, b`inflight, b`rings, b`flying, b`servers, b`good, b`touched, b.heads
    modifies b.queue`next, b.queue`prev, b.queue`ns, b.queue`transId, b.queue`transmitMe, b.queue`txCount
    modifies b.flying`next, b.flying`prev, b.flying`ns, b.flying`transId, b.flying`transmitMe, b.flying`txCount
    modifies b.servers`requestsInflight, b.servers`choked, b.servers`up, b.servers`failedTimes, b`handles
    modifies UsedBy(req)`probe, b.servers`timedout, ProbeAt(req), ProbedAt(req)`handle
    modifies req`handle, req.handle`current, req.handle`pendingCb
    ensures b.Valid() && Same(old(b.servers), b.servers) && b.handles == old(b.handles)
    ensures Outstanding(b) <= old(Outstanding(b)) && req !in Outstanding(b) && Ended(old(req.handle))
    ensures old(Outstanding(b)) - {req} - old(ProbedAt(req)) <= Outstanding(b)
    ensures var ns := old(req.ns); ns != null && (!old(ns.up) ==> ns.probe == null && ns.timedout == 0)
    ensures old(NoneCancelled(b.servers)) ==> NoneCancelled(b.servers)
    ensures var h := old(req.handle); h != null && h.cancelled == old(h.cancelled)
  {
    hide Base.Valid, Same, Outstanding;
    HandleOf(b, req);
    ServerTells(b, req);
    OutstandingIs(b);
    ghost var s := b.servers;
    ServerAnswered(b, req);
    ghost var mid := b.servers;
    SameMembers(s, mid);
    OutstandingIs(b);
    ReplyTo(b, req);
    SameAgain(s, mid, b.servers);
  }

  /** When the server of the request is down, a pick gives another one. */
  ghost predicate OthersToTry(b: Base, req: Request)
    reads b`servers, b.servers`up, req`ns
  {
    PickBy(b.servers, UpSet(b.servers) - {req.ns}) != req.ns
  }

  /** The request is marked for another server, if it may be once more, or ends. */
  twostate predicate Rejected(b: Base, req: Request, handle: Handle?, reissues: nat)
    reads b`flying, b`queue, req`txCount, req`transmitMe, req`reissueCount, handle
  {
    if req in Outstanding(b) then req in b.flying && old(req.reissueCount) < reissues && Reissued(req) else Ended(handle)
  }

  lemma UpIn(s: seq<Nameserver>)
    ensures forall n :: n in UpSet(s) ==> n in s
  {
  }

  /** Whether a pick gives another server than one that is down depends on the order only if none is up. */
  lemma PickElsewhere(ring: seq<Nameserver>, ring': seq<Nameserver>, up: set<Nameserver>, n: Nameserver)
    requires Same(ring, ring') && n !in up && (forall x :: x in up ==> x in ring') && (up == {} ==> ring' == ring)
    ensures PickBy(ring', up) != n <==> PickBy(ring, up) != n
    ensures up != {} ==> PickBy(ring', up) in up
  {
    if x :| x in up {
      var i :| 0 <= i < |ring'| && ring'[i] == x;
      assert ring'[i] in ring;
      var j :| 0 <= j < |ring| && ring[j] == x;
    }
  }

  /** A server that does not do what it should: the request goes to another, as often as it may. */
  method Reject(b: Base, req: Request, reissues: nat)
    requires b.Valid() && req in b.flying
    modifies b`waitingHead, b`queue, b`waitingCount, b`inflight, b`rings, b`flying, b`servers, b`good, b`touched, b.heads
    modifies b.queue`next, b.queue`prev, b.queue`ns, b.queue`transId, b.queue`transmitMe, b.queue`txCount
    modifies b.flying`next, b.flying`prev, b.flying`ns, b.flying`transId, b.flying`transmitMe, b.flying`txCount
    modifies b.servers`requestsInflight, b.servers`choked, b.servers`up, b.servers`failedTimes, b`handles
    modifies req`handle, req`reissueCount, req.handle`current, req.handle`pendingCb
    ensures b.Valid() && Same(old(b.servers), b.servers) && b.handles == old(b.handles)
    ensures Outstanding(b) == old(Outstanding(b)) || Outstanding(b) == old(Outstanding(b)) - {req}
    ensures Rejected(b, req, old(req.handle), reissues)
    ensures old(req.reissueCount) < reissues ==> old(req.ns) !in UpSet(b.servers)
    ensures old(req.txCount) > 0 ==>
      (req in Outstanding(b) <==> old(req.reissueCount) < reissues && old(OthersToTry(b, req)))
    ensures old(req.txCount) > 0 && req in Outstanding(b) ==>
      req.ns != old(req.ns) && (UpSet(b.servers) != {} ==> req.ns in UpSet(b.servers))
  {
    hide Base.Valid, Same, Outstanding, UpSet, PickBy;
    HandleOf(b, req);
    ServerTells(b, req);
    SameItself(b.servers);
    OutstandingIs(b);
    ghost var s, up := b.servers, UpSet(b.servers);
    if req.reissueCount < reissues {
      ghost var failed := req.ns;
      ServerFails(b, req.ns);
      SameMembers(s, b.servers);
      ghost var mid := b.servers;
      UpIn(mid);
      PickElsewhere(s, mid, UpSet(mid), failed);
      var result := ReissueKept(b, req);
      SameAgain(s, mid, b.servers);
      SameMembers(s, b.servers);
      OutstandingIs(b);
      if result == 0 {
        return;
      }
    }
    ghost var last := b.servers;
    ReplyTo(b, req);
    SameAgain(s, last, b.servers);
  }

  method ReplyTo(b: Base, req: Request)
    requires b.Valid() && req in b.flying
    modifies b`waitingHead, b`queue, b`waitingCount, b`inflight, b`rings, b`flying, b`servers, b`good, b`touched, b.heads
    modifies b.queue`next, b.queue`prev, b.queue`ns, b.queue`transId, b.queue`transmitMe, b.queue`txCount
    modifies b.flying`next, b.flying`prev, b.flying`ns, b.flying`transId, b.flying`transmitMe, b.flying`txCount
    modifies b.servers`requestsInflight, b.servers`choked, b.servers`up, b.servers`failedTimes, b`handles
    modifies req`handle, req.handle`current, req.handle`pendingCb
    ensures b.Valid() && Same(old(b.servers), b.servers) && b.handles == old(b.handles)
    ensures Outstanding(b) == old(Outstanding(b)) - {req} && Ended(old(req.handle))
    ensures UpSet(b.servers) <= old(UpSet(b.servers))
  {
    hide *;
    Reply(b, req);
  }

  /**
   nameserver_probe_callback, when the callback of a probe that was not cancelled runs: the server is up
   again, or stays down.
   */
  method ProbeCallback(b: Base, ns: Nameserver, good: bool)
    requires b.Valid() && ns in b.servers
    modifies b`waitingHead, b`queue, b`waitingCount, b`inflight, b`rings, b`flying, b`servers, b`good, b`touched, b.heads
    modifies b.queue`next, b.queue`prev, b.queue`ns, b.queue`transId, b.queue`transmitMe, b.queue`txCount
    modifies b.flying`next, b.flying`prev, b.flying`ns, b.flying`transId, b.flying`transmitMe, b.flying`txCount
    modifies b.servers`requestsInflight, b.servers`choked, b.servers`up, b.servers`failedTimes, b`handles
    modifies ns`probe, ns`timedout
    ensures b.Valid() && Same(old(b.servers), b.servers) && ns.probe == null
    ensures b.flying == old(b.flying) && b.queue == old(b.queue) && b.handles == old(b.handles)
    ensures old(NoneCancelled(b.servers)) ==> NoneCancelled(b.servers)
    ensures ns.up == (old(ns.up) || good)
    ensures ns.failedTimes == if old(ns.up) then old(ns.failedTimes) else if good then 0 else old(ns.failedTimes) + 1
  {
    hide Base.Valid, Same, Outstanding;
    SameItself(b.servers);
    ClearProbe(b, ns);
    if good {
      NameserverUp(b, ns);
    } else if !ns.up {
      ns.failedTimes := ns.failedTimes + 1;
    }
  }
}
