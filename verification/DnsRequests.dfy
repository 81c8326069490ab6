/**
 The lives of requests: made, ended, cancelled, answered, timed out, and sent to find out whether a
 server is back; and the handles that stand for them.
 */
module DnsRequests {
  import opened Bytes
  import opened DnsName
  import opened DnsRequest
  import opened DnsRing
  import opened DnsServers
  import opened DnsResolver
  import opened DnsTraffic
  import opened DnsSending
  import opened DnsPump

  /** Waiting requests may have gone into flight, and the ring may have turned. */
  lemma TrackedTo(b: Base, f: set<Request>, q: seq<Request>, s: seq<Nameserver>)
    requires Tracked(b.handles, f, q, s) && Same(s, b.servers)
    requires f <= b.flying && f + ToSet(q) == b.flying + ToSet(b.queue)
    ensures Tracked(b.handles, b.flying, b.queue, b.servers)
  {
    assert forall r :: r in b.flying || r in b.queue <==> r in f || r in q by {
      assert forall r :: r in f + ToSet(q) <==> r in f || r in q;
      assert forall r :: r in b.flying + ToSet(b.queue) <==> r in b.flying || r in b.queue;
    }
    assert forall h :: h in b.handles ==> Standing(h, f, q);
  }

  /** A balanced resolver is valid again after a step that kept its requests. */
  lemma ValidTo(b: Base, f: set<Request>, q: seq<Request>, s: seq<Nameserver>)
    requires Steady(b, s) && Tracked(b.handles, f, q, s)
    requires f <= b.flying && Outstanding(b) == f + ToSet(q)
    ensures b.Valid() && Same(s, b.servers)
  {
    hide Tracked, Base.Balanced, Same;
    TrackedTo(b, f, q, s);
  }

  /** What a handle stands for. */
  ghost function CurrentOf(h: Handle?): set<Request>
    reads h
  {
    if h == null || h.current == null then {} else {h.current}
  }

  /** It stands for nothing any more. */
  ghost predicate Left(h: Handle?)
    reads h
  {
    h != null && h.current == null
  }

  /** It stands for nothing any more, and its callback is scheduled. */
  ghost predicate Ended(h: Handle?)
    reads h
  {
    h != null && h.current == null && h.pendingCb
  }

  /** A handle without a callback scheduled is freed with its request, so no server may hold it. */
  ghost predicate FreeToEnd(b: Base, req: Request)
    reads b`servers, b.servers`probe, req`handle, req.handle
  {
    req.handle != null && !req.handle.pendingCb ==> forall n :: n in b.servers ==> n.probe != req.handle
  }

  /** The handles after the end of one of their requests. */
  ghost function Freed(handles: set<Handle>, h: Handle?): set<Handle>
    reads h
  {
    if h == null || h.pendingCb then handles else handles - {h}
  }

  /** The end of a request for its handle: it is freed unless its callback is scheduled. */
  method Release(b: Base, req: Request, ghost f: set<Request>, ghost q: seq<Request>)
    requires Tracked(b.handles, f, q, b.servers) && (req in f || req in q)
    requires b.flying == f - {req} && ToSet(b.queue) == ToSet(q) - {req} && req.handle != null
    requires FreeToEnd(b, req)
    modifies b`handles, req`handle, req.handle`current
    ensures Tracked(b.handles, b.flying, b.queue, b.servers)
    ensures req.handle == null && Left(old(req.handle)) && b.handles == old(Freed(b.handles, req.handle))
  {
    assert forall r :: r in b.queue <==> r in q && r != req by {
      assert forall r :: r in ToSet(b.queue) <==> r in b.queue;
      assert forall r :: r in ToSet(q) - {req} <==> r in q && r != req;
    }
    assert forall h :: h in b.handles ==> Standing(h, f, q);
    assert forall r :: (r in f || r in q) && r != req ==> r.handle != req.handle;
    if !req.handle.pendingCb {
      b.handles := b.handles - {req.handle};
    }
    req.handle.current := null;
    req.handle := null;
  }

  /**
   request_finished: the request is taken out of its list, its handle does not stand for it any more,
   and the queue is pumped. Without room, or when nothing waits, only the request's server is used.
   */
  method RequestFinished(b: Base, req: Request)
    requires b.Valid() && (req in b.flying || req in b.queue)
    requires FreeToEnd(b, req)
    modifies b`waitingHead, b`queue, b`waitingCount, b`inflight, b`rings, b`flying, b`servers, b`good, b`touched, b.heads
    modifies b.queue`next, b.queue`prev, b.queue`ns, b.queue`transId, b.queue`transmitMe, b.queue`txCount
    modifies b.flying`next, b.flying`prev, b.flying`ns, b.flying`transId, b.flying`transmitMe, b.flying`txCount
    modifies b.servers`requestsInflight, b.servers`choked, b.servers`up, b.servers`failedTimes
    modifies b`handles, req`handle, req.handle`current
    ensures b.queue == [] || b.inflight >= b.maxInflight || b.servers == []
    ensures b.Valid() && Same(old(b.servers), b.servers)
    ensures UpSet(b.servers) <= old(UpSet(b.servers)) && old(b.touched) <= b.touched
    ensures Outstanding(b) == old(Outstanding(b)) - {req} && old(b.flying) - {req} <= b.flying
    ensures req.handle == null && Left(old(req.handle)) && b.handles == old(Freed(b.handles, req.handle))
    ensures old(UsedBy(req)) <= b.touched
    ensures old(req in b.flying && (b.inflight - 1 >= b.maxInflight || b.queue == [])) ==> FinishedQuietly(b, req)
    ensures old(req in b.flying && b.inflight - 1 < b.maxInflight && b.queue != []) ==>
      old(b.servers) != [] && old(b.servers)[0] in b.touched
  {
    hide *;
    ServerTells(b, req);
    if req.ns != null {
      FinishInFlight(b, req);
    } else {
      FinishInQueue(b, req);
    }
  }

  method FinishInFlight(b: Base, req: Request)
    requires b.Valid() && req in b.flying && FreeToEnd(b, req)
    modifies b`waitingHead, b`queue, b`waitingCount, b`inflight, b`rings, b`flying, b`servers, b`good, b`touched, b.heads
    modifies b.queue`next, b.queue`prev, b.queue`ns, b.queue`transId, b.queue`transmitMe, b.queue`txCount
    modifies b.flying`next, b.flying`prev, b.flying`ns, b.flying`transId, b.flying`transmitMe, b.flying`txCount
    modifies b.servers`requestsInflight, b.servers`choked, b.servers`up, b.servers`failedTimes
    modifies b`handles, req`handle, req.handle`current
    ensures b.queue == [] || b.inflight >= b.maxInflight || b.servers == []
    ensures b.Valid() && Same(old(b.servers), b.servers)
    ensures UpSet(b.servers) <= old(UpSet(b.servers)) && old(b.touched) <= b.touched
    ensures Outstanding(b) == old(Outstanding(b)) - {req} && old(b.flying) - {req} <= b.flying
    ensures req.handle == null && Left(old(req.handle)) && b.handles == old(Freed(b.handles, req.handle))
    ensures old(UsedBy(req)) <= b.touched
    ensures old(b.inflight - 1 >= b.maxInflight || b.queue == []) ==> FinishedQuietly(b, req)
    ensures old(b.inflight - 1 < b.maxInflight && b.queue != []) ==>
      old(b.servers) != [] && old(b.servers)[0] in b.touched
  {
    hide Base.Valid, Same, UpSet, Outstanding, ToSet, Flatten, Without, FreeToEnd, Left, Freed, UsedBy;
    ServerTells(b, req);
    OutstandingIs(b);
    EndFlying(b, req);
    PumpOn(b);
  }

  method FinishInQueue(b: Base, req: Request)
    requires b.Valid() && req in b.queue && req !in b.flying && FreeToEnd(b, req)
    modifies b`waitingHead, b`queue, b`waitingCount, b`inflight, b`rings, b`flying, b`servers, b`good, b`touched, b.heads
    modifies b.queue`next, b.queue`prev, b.queue`ns, b.queue`transId, b.queue`transmitMe, b.queue`txCount
    modifies b.flying`next, b.flying`prev, b.flying`ns, b.flying`transId, b.flying`transmitMe, b.flying`txCount
    modifies b.servers`requestsInflight, b.servers`choked, b.servers`up, b.servers`failedTimes
    modifies b`handles, req`handle, req.handle`current
    ensures b.queue == [] || b.inflight >= b.maxInflight || b.servers == []
    ensures b.Valid() && Same(old(b.servers), b.servers)
    ensures UpSet(b.servers) <= old(UpSet(b.servers)) && old(b.touched) <= b.touched
    ensures Outstanding(b) == old(Outstanding(b)) - {req} && old(b.flying) <= b.flying
    ensures req.handle == null && Left(old(req.handle)) && b.handles == old(Freed(b.handles, req.handle))
  {
    hide Base.Valid, Same, UpSet, Outstanding, ToSet, FreeToEnd, Left, Freed;
    OutstandingIs(b);
    EndWaiting(b, req);
    OutstandingIs(b);
    PumpOn(b);
  }

  lemma ServerTells(b: Base, req: Request)
    requires b.Valid() && (req in b.flying || req in b.queue)
    ensures req.ns != null <==> req in b.flying
    ensures req in b.flying ==> req !in b.queue
    ensures req in b.flying ==> req.ns in b.servers
    ensures req.ns == null ==> UsedBy(req) == {}
  {
    hide Base.Linked;
  }

  /** request_finished, but for the pump, of a request in flight */
  method EndFlying(b: Base, req: Request)
    requires b.Valid() && req in b.flying && FreeToEnd(b, req)
    modifies b`inflight, b`rings, b`flying, b`touched, b.heads, req.ns`requestsInflight, b.flying`next, b.flying`prev
    modifies b`handles, req`handle, req.handle`current
    ensures b.Valid() && b.flying == old(b.flying) - {req} && b.inflight == old(b.inflight) - 1
    ensures Outstanding(b) == old(Outstanding(b)) - {req} && b.touched == old(b.touched + UsedBy(req))
    ensures Flatten(b.rings) == Without(old(Flatten(b.rings)), {req})
    ensures req.handle == null && Left(old(req.handle)) && b.handles == old(Freed(b.handles, req.handle))
  {
    hide Base.Valid, Base.Balanced, Tracked, Outstanding, ToSet, Flatten, Without;
    ValidIs(b);
    WhereIs(b, req);
    HandleOf(b, req);
    InflightIs(b);
    ghost var f, q := b.flying, b.queue;
    OutstandingIs(b);
    NotIn(q, req);
    b.FinishFlying(req);
    Release(b, req, f, q);
    InflightIs(b);
    OneLess(f, ToSet(q), req);
    OutstandingIs(b);
    ValidFrom(b);
  }

  /** request_finished, but for the pump, of a waiting request */
  method EndWaiting(b: Base, req: Request)
    requires b.Valid() && req in b.queue && req !in b.flying && FreeToEnd(b, req)
    modifies b`waitingHead, b`queue, b`waitingCount, b.queue`next, b.queue`prev
    modifies b`handles, req`handle, req.handle`current
    ensures b.Valid() && Outstanding(b) == old(Outstanding(b)) - {req}
    ensures forall r :: r in b.queue ==> r in old(b.queue)
    ensures req.handle == null && Left(old(req.handle)) && b.handles == old(Freed(b.handles, req.handle))
  {
    hide Base.Valid, Base.Balanced, Tracked, Outstanding, ToSet;
    ValidIs(b);
    WhereIs(b, req);
    HandleOf(b, req);
    ghost var f, q := b.flying, b.queue;
    OutstandingIs(b);
    ghost var k :| 0 <= k < |q| && q[k] == req;
    b.FinishWaiting(req, k);
    WithoutWaiting(q, k, b.queue);
    assert f - {req} == f;
    Release(b, req, f, q);
    OneLess(f, ToSet(q), req);
    OutstandingIs(b);
    ValidFrom(b);
  }

  lemma OneLess(f: set<Request>, q: set<Request>, req: Request)
    ensures (f - {req}) + (q - {req}) == f + q - {req}
  {
  }

  /** The pump, for requests with handles. */
  method PumpOn(b: Base)
    requires b.Valid()
    modifies b`waitingHead, b`queue, b`waitingCount, b`inflight, b`rings, b`flying, b`servers, b`good, b`touched, b.heads
    modifies b.queue`next, b.queue`prev, b.queue`ns, b.queue`transId, b.queue`transmitMe, b.queue`txCount
    modifies b.flying`next, b.flying`prev, b.flying`ns, b.flying`transId, b.flying`transmitMe, b.flying`txCount
    modifies b.servers`requestsInflight, b.servers`choked, b.servers`up, b.servers`failedTimes
    ensures b.queue == [] || b.inflight >= b.maxInflight || b.servers == []
    ensures b.Valid() && Same(old(b.servers), b.servers)
    ensures UpSet(b.servers) <= old(UpSet(b.servers)) && old(b.touched) <= b.touched
    ensures Outstanding(b) == old(Outstanding(b)) && old(b.flying) <= b.flying
    ensures old(b.inflight) >= b.maxInflight || old(b.queue) == [] ==> Untouched(b)
    ensures old(b.inflight) < b.maxInflight && old(b.queue) != [] && old(b.servers) != [] ==>
      old(b.servers)[0] in b.touched
  {
    hide Base.Valid, Base.Balanced, Tracked, Steady, Same, Promoted, Promotable, UpSet, Outstanding, ToSet;
    ValidIs(b);
    ghost var f, q, s := b.flying, b.queue, b.servers;
    ghost var n := Promotable(b.servers, b.maxInflight, b.inflight, |q|);
    OutstandingIs(b);
    Pump(b);
    PromotedOutstanding(b, f, q, n);
    PromotedGrows(b, f, q, n);
    ValidTo(b, f, q, s);
  }

  /** Only the request is gone, and only its server was used. */
  twostate predicate FinishedQuietly(b: Base, req: Request)
    reads b, b.flying
  {
    && b.servers == old(b.servers) && b.queue == old(b.queue) && b.flying == old(b.flying) - {req}
    && b.touched == old(b.touched + UsedBy(req)) && b.inflight == old(b.inflight) - 1
    && Flatten(b.rings) == Without(old(Flatten(b.rings)), {req})
    && forall r :: r in b.flying ==> r.ns == old(r.ns)
  }

  lemma HandleOf(b: Base, req: Request)
    requires b.Valid() && (req in b.flying || req in b.queue)
    ensures req.handle != null && req.handle in b.handles && req.handle.current == req
  {
  }

  lemma PromotedGrows(b: Base, f: set<Request>, q: seq<Request>, k: nat)
    requires Promoted(b, f, q, k)
    ensures f <= b.flying
  {
  }

  lemma InflightIs(b: Base)
    requires b.Balanced()
    ensures b.inflight == |b.flying|
  {
  }

  lemma NotIn(q: seq<Request>, req: Request)
    requires req !in q
    ensures ToSet(q) == ToSet(q) - {req}
  {
  }

  lemma WithoutWaiting(q: seq<Request>, k: nat, q': seq<Request>)
    requires k < |q| && Distinct(q) && q' == q[..k] + q[k + 1..]
    ensures ToSet(q') == ToSet(q) - {q[k]}
  {
    assert q == q[..k] + [q[k]] + q[k + 1..];
  }

  /** Requests in flight have a server and waiting ones have none, so the server tells where a request is. */
  lemma WhereIs(b: Base, req: Request)
    requires b.Balanced()
    ensures req in b.flying ==> req.ns != null && req.ns in b.servers
    ensures req in b.queue ==> req.ns == null && req !in b.flying
    ensures Distinct(b.queue)
  {
  }

  /** reply_schedule_callback, as far as it is seen from here, and request_finished */
  method Reply(b: Base, req: Request)
    requires b.Valid() && (req in b.flying || req in b.queue)
    modifies b`waitingHead, b`queue, b`waitingCount, b`inflight, b`rings, b`flying, b`servers, b`good, b`touched, b.heads
    modifies b.queue`next, b.queue`prev, b.queue`ns, b.queue`transId, b.queue`transmitMe, b.queue`txCount
    modifies b.flying`next, b.flying`prev, b.flying`ns, b.flying`transId, b.flying`transmitMe, b.flying`txCount
    modifies b.servers`requestsInflight, b.servers`choked, b.servers`up, b.servers`failedTimes
    modifies b`handles, req`handle, req.handle`current, req.handle`pendingCb
    ensures b.queue == [] || b.inflight >= b.maxInflight || b.servers == []
    ensures b.Valid() && Same(old(b.servers), b.servers) && b.handles == old(b.handles)
    ensures UpSet(b.servers) <= old(UpSet(b.servers)) && old(b.touched) <= b.touched
    ensures Outstanding(b) == old(Outstanding(b)) - {req} && old(b.flying) - {req} <= b.flying
    ensures req.handle == null && Ended(old(req.handle))
    ensures old(UsedBy(req)) <= b.touched
    ensures old(req in b.flying && (b.inflight - 1 >= b.maxInflight || b.queue == [])) ==> FinishedQuietly(b, req)
    ensures old(req in b.flying && b.inflight - 1 < b.maxInflight && b.queue != []) ==>
      old(b.servers) != [] && old(b.servers)[0] in b.touched
  {
    hide Base.Valid, Same, UpSet, Outstanding, Flatten, Without;
    HandleOf(b, req);
    Schedule(b, req);
    RequestFinished(b, req);
  }

  method Schedule(b: Base, req: Request)
    requires b.Valid() && (req in b.flying || req in b.queue)
    modifies req.handle`pendingCb
    ensures b.Valid() && req.handle != null && req.handle.pendingCb
  {
    hide Base.Balanced;
    req.handle.pendingCb := true;
    assert forall h :: h in b.handles ==> old(Standing(h, b.flying, b.queue));
  }

  /** request_submit with a server assigned, to the first attempt to send. */
  method FlyNew(b: Base, req: Request)
    requires b.Balanced() && req !in b.flying && req !in b.queue && req.ns != null && req.ns in b.servers
    modifies b`inflight, b`rings, b`flying, b`servers, b`good, b`touched, b.heads
    modifies b.flying`next, b.flying`prev, b.flying`ns, b.flying`transmitMe, b.flying`txCount, b.servers`requestsInflight
    modifies b.servers`choked, b.servers`up, b.servers`failedTimes
    modifies req`next, req`prev, req`ns, req`transmitMe, req`txCount
    ensures Steady(b, old(b.servers)) && b.flying == old(b.flying) + {req}
    ensures !old(req.ns.up) ==> b.servers == old(b.servers)
    ensures if req.transmitMe then req.txCount == old(req.txCount) && req.ns in Choked(b) else req.txCount == old(req.txCount) + 1
    ensures req.ns == old(req.ns) || old(req.ns) !in UpSet(b.servers)
    ensures UpSet(b.servers) == old(UpSet(b.servers)) ==> b.servers == old(b.servers) && req.ns == old(req.ns)
  {
    hide *;
    b.SubmitFlying(req);
    var _, _ := Transmit(b, req);
  }

  /**
   A new request was sent, or is marked at a server whose socket takes nothing; it is at the server picked,
   unless that failed; and if no server failed, the ring is the one after the pick.
   */
  ghost predicate Launched(b: Base, req: Request, pick: Nameserver?, ring: seq<Nameserver>, up: set<Nameserver>)
    reads b`servers, b.servers`up, b.servers`choked, req`ns, req`txCount, req`transmitMe
  {
    && (if req.transmitMe then req.txCount == 0 && req.ns in Choked(b) else req.txCount == 1)
    && (req.ns == pick || pick !in UpSet(b.servers))
    && (UpSet(b.servers) == up ==> b.servers == ring && req.ns == pick)
  }

  /** A name that a request can be made for: neither it nor a label of it is too long. */
  predicate Askable(name: seq<byte>) {
    |name| <= MAX_NAME && ShortLabels(name)
  }

  /**
   request_new and request_submit: refused for a name that cannot be asked for; else into flight if
   there is room and a server, else into the queue; and the handle stands for it.
   */
  method NewRequest(b: Base, name: seq<byte>, handle: Handle) returns (req: Request?)
    requires b.Valid() && handle !in b.handles
    modifies b`waitingHead, b`queue, b`waitingCount, b`inflight, b`rings, b`flying, b`servers, b`good, b`touched, b.heads
    modifies b.queue`next, b.queue`prev, b.queue`ns, b.queue`transId, b.queue`transmitMe, b.queue`txCount
    modifies b.flying`next, b.flying`prev, b.flying`ns, b.flying`transId, b.flying`transmitMe, b.flying`txCount
    modifies b.servers`requestsInflight, b.servers`choked, b.servers`up, b.servers`failedTimes
    modifies b`handles, handle`current, handle`pendingCb
    ensures b.Valid() && Same(old(b.servers), b.servers) && (req == null <==> !Askable(name))
    ensures req == null ==> b.flying == old(b.flying) && b.queue == old(b.queue) && b.handles == old(b.handles)
    ensures req != null ==>
      && fresh(req) && handle.current == req && !handle.pendingCb && b.handles == old(b.handles) + {handle}
      && (var flies := old(b.inflight < b.maxInflight && b.servers != []);
          && b.flying == old(b.flying) + (if flies then {req} else {})
          && b.queue == old(b.queue) + (if flies then [] else [req])
          && (flies ==> Launched(b, req, old(Picked(b.servers, b.good)), old(Next(b.servers, b.good)), old(UpSet(b.servers))))
          && (!flies ==> req.txCount == 0 && req.ns == null))
    ensures old(b.inflight) >= b.maxInflight ==> b.servers == old(b.servers)
  {
    hide *;
    ValidIs(b);
    if |name| > MAX_NAME {
      SameItself(b.servers);
      AskableIs(name);
      return null;
    }
    var built, _ := BuildRequest(name, 0, 0, 0);
    AskableIs(name);
    if built < 0 {
      SameItself(b.servers);
      return null;
    }
    ghost var hs, f, q, s := b.handles, b.flying, b.queue, b.servers;
    req := Enlist(b, handle);
    SteadyParts(b, s);
    NewOne(b, f, q, req);
    TrackedWith(hs, f, q, s, req, handle, b.flying, b.queue, b.servers);
    b.handles := b.handles + {handle};
    ValidFrom(b);
  }

  lemma AskableIs(name: seq<byte>)
    ensures Askable(name) <==> |name| <= MAX_NAME && ShortLabels(name)
  {
  }

  lemma NewOne(b: Base, f: set<Request>, q: seq<Request>, req: Request)
    requires (b.flying == f + {req} && b.queue == q + []) || (b.flying == f + {} && b.queue == q + [req])
    ensures f <= b.flying && forall r :: (r in b.flying || r in b.queue) <==> (r in f || r in q || r == req)
    ensures req in b.flying || req in b.queue
  {
  }

  /** A new request, and the handle that stands for it. */
  lemma TrackedWith(hs: set<Handle>, f: set<Request>, q: seq<Request>, s: seq<Nameserver>, req: Request, h: Handle,
                    f': set<Request>, q': seq<Request>, s': seq<Nameserver>)
    requires Tracked(hs, f, q, s) && Same(s, s') && h !in hs && req !in f && req !in q
    requires req.handle == h && h.current == req && f <= f'
    requires forall r :: (r in f' || r in q') <==> (r in f || r in q || r == req)
    ensures Tracked(hs + {h}, f', q', s')
  {
    assert forall x :: x in hs ==> Standing(x, f, q);
    assert forall x :: x in hs + {h} ==> Standing(x, f', q');
    assert forall r :: r in f' || r in q' ==> Held(r, hs + {h});
  }

  /** The part of it that depends on no name. */
  method Enlist(b: Base, handle: Handle) returns (req: Request)
    requires b.Balanced()
    modifies b`waitingHead, b`queue, b`waitingCount, b`inflight, b`rings, b`flying, b`servers, b`good, b`touched, b.heads
    modifies b.queue`next, b.queue`prev, b.queue`ns, b.queue`transId, b.queue`transmitMe, b.queue`txCount
    modifies b.flying`next, b.flying`prev, b.flying`ns, b.flying`transId, b.flying`transmitMe, b.flying`txCount
    modifies b.servers`requestsInflight, b.servers`choked, b.servers`up, b.servers`failedTimes
    modifies handle`current, handle`pendingCb
    ensures Steady(b, old(b.servers)) && fresh(req)
    ensures req.handle == handle && handle.current == req && !handle.pendingCb
    ensures var flies := old(b.inflight < b.maxInflight && b.servers != []);
      && b.flying == old(b.flying) + (if flies then {req} else {})
      && b.queue == old(b.queue) + (if flies then [] else [req])
      && (flies ==> Launched(b, req, old(Picked(b.servers, b.good)), old(Next(b.servers, b.good)), old(UpSet(b.servers))))
      && (!flies ==> req.txCount == 0 && req.ns == null)
    ensures old(b.inflight) >= b.maxInflight ==> b.servers == old(b.servers)
  {
    hide *;
    var ns, id := Issue(b);
    SameMembers(old(b.servers), b.servers);
    req := new Request(ns, id, handle);
    handle.current := req;
    handle.pendingCb := false;
    BeginAgain(b, old(b.servers));
    if ns != null {
      assert old(b.queue) + [] == old(b.queue);
      Launch(b, req, old(b.servers));
    } else {
      b.SubmitWaiting(req);
      assert b.flying == old(b.flying) + {};
      BeginAgain(b, old(b.servers));
    }
  }

  /** A new request goes into flight, at the server picked for it. */
  method Launch(b: Base, req: Request, ghost before: seq<Nameserver>)
    requires Steady(b, before) && req !in b.flying && req !in b.queue && req.ns != null && req.ns in b.servers && req.txCount == 0
    modifies b`inflight, b`rings, b`flying, b`servers, b`good, b`touched, b.heads
    modifies b.flying`next, b.flying`prev, b.flying`ns, b.flying`transmitMe, b.flying`txCount, b.servers`requestsInflight
    modifies b.servers`choked, b.servers`up, b.servers`failedTimes
    modifies req`next, req`prev, req`ns, req`transmitMe, req`txCount
    ensures Steady(b, before) && b.flying == old(b.flying) + {req}
    ensures Launched(b, req, old(req.ns), old(b.servers), old(UpSet(b.servers)))
  {
    hide *;
    ghost var mid := b.servers;
    SteadyParts(b, before);
    FlyNew(b, req);
    LaunchedIs(b, req, old(req.ns), mid, old(UpSet(b.servers)));
    SteadyAgain(b, before, mid);
  }

  lemma LaunchedIs(b: Base, req: Request, pick: Nameserver?, ring: seq<Nameserver>, up: set<Nameserver>)
    requires if req.transmitMe then req.txCount == 0 && req.ns in Choked(b) else req.txCount == 1
    requires req.ns == pick || pick !in UpSet(b.servers)
    requires UpSet(b.servers) == up ==> b.servers == ring && req.ns == pick
    ensures Launched(b, req, pick, ring, up)
  {
  }

  /** The server and transaction id that request_new gives a request. */
  method Issue(b: Base) returns (ns: Nameserver?, id: nat)
    requires b.Balanced()
    modifies b`servers, b`touched
    ensures b.Balanced() && Same(old(b.servers), b.servers)
    ensures ns != null <==> b.inflight < b.maxInflight && old(b.servers) != []
    ensures ns != null ==> ns in b.servers
    ensures UpSet(b.servers) == old(UpSet(b.servers))
    ensures if b.inflight >= b.maxInflight then b.servers == old(b.servers)
      else ns == old(Picked(b.servers, b.good)) && b.servers == old(Next(b.servers, b.good))
  {
    hide *;
    SameItself(b.servers);
    if b.inflight >= b.maxInflight {
      return null, 0xffff;
    }
    BalancedParts(b);
    id := *;
    id := id % 0xffff;
    ns := PickFor(b, b.flying, b.queue);
    BalancedFrom(b);
    SameMembers(old(b.servers), b.servers);
  }

  /** nameserver_send_probe: a request that goes into flight at this server, whatever the maximum. */
  method SendProbe(b: Base, ns: Nameserver) returns (req: Request)
    requires b.Valid() && ns in b.servers
    modifies ns`probe, b`handles
    modifies b`inflight, b`rings, b`flying, b`servers, b`good, b`touched, b.heads
    modifies b.flying`next, b.flying`prev, b.flying`ns, b.flying`transmitMe, b.flying`txCount, b.servers`requestsInflight
    modifies b.servers`choked, b.servers`up, b.servers`failedTimes
    ensures b.Valid() && Same(old(b.servers), b.servers) && fresh(req) && b.flying == old(b.flying) + {req}
    ensures ns.probe != null && fresh(ns.probe) && ns.probe.current == req && !ns.probe.pendingCb
    ensures ns.probe.probeOf == ns && !ns.probe.cancelled
    ensures if req.transmitMe then req.txCount == 0 && req.ns in Choked(b) else req.txCount == 1
    ensures req.ns == ns || ns !in UpSet(b.servers)
    ensures b.handles == old(b.handles) + {ns.probe}
    ensures !old(ns.up) ==>
      b.servers == if old(b.inflight) < b.maxInflight then old(Next(b.servers, b.good)) else old(b.servers)
  {
    hide *;
    ValidIs(b);
    ghost var hs, f, q, s := b.handles, b.flying, b.queue, b.servers;
    var handle;
    req, handle := FlyProbe(b, ns);
    assert b.queue == q + [];
    NewOne(b, f, q, req);
    TrackedWith(hs, f, q, s, req, handle, b.flying, b.queue, b.servers);
    b.handles := b.handles + {handle};
    SetProbe(b, ns, handle);
  }

  /** Its request, at its server. */
  method FlyProbe(b: Base, ns: Nameserver) returns (req: Request, handle: Handle)
    requires b.Balanced() && ns in b.servers
    modifies b`inflight, b`rings, b`flying, b`servers, b`good, b`touched, b.heads
    modifies b.flying`next, b.flying`prev, b.flying`ns, b.flying`transmitMe, b.flying`txCount, b.servers`requestsInflight
    modifies b.servers`choked, b.servers`up, b.servers`failedTimes
    ensures b.Balanced() && Same(old(b.servers), b.servers) && b.flying == old(b.flying) + {req}
    ensures fresh(req) && fresh(handle) && req.handle == handle && handle.current == req && !handle.pendingCb
    ensures handle.probeOf == ns && !handle.cancelled
    ensures if req.transmitMe then req.txCount == 0 && req.ns in Choked(b) else req.txCount == 1
    ensures req.ns == ns || ns !in UpSet(b.servers)
    ensures !old(ns.up) ==>
      b.servers == if old(b.inflight) < b.maxInflight then old(Next(b.servers, b.good)) else old(b.servers)
  {
    hide *;
    ghost var s := b.servers;
    PickOnTheWay(b);
    SameMembers(s, b.servers);
    var id: nat := *;
    handle := new Handle(ns);
    req := new Request(ns, id % 0xffff, handle);
    handle.current := req;
    ghost var mid := b.servers;
    FlyNew(b, req);
    SteadyParts(b, mid);
    SameAgain(s, mid, b.servers);
  }

  /** The pick of request_new, whose server is not used. */
  method PickOnTheWay(b: Base)
    requires b.Balanced()
    modifies b`servers, b`touched
    ensures b.Balanced() && Same(old(b.servers), b.servers)
    ensures b.servers == if b.inflight < b.maxInflight then old(Next(b.servers, b.good)) else old(b.servers)
  {
    hide *;
    SameItself(b.servers);
    if b.inflight < b.maxInflight {
      BalancedParts(b);
      var _ := PickFor(b, b.flying, b.queue);
      BalancedFrom(b);
    }
  }

  method SetProbe(b: Base, ns: Nameserver, handle: Handle)
    requires b.Balanced() && Tracked(b.handles, b.flying, b.queue, b.servers) && handle in b.handles
    requires handle.current in b.flying && handle.probeOf == ns
    modifies ns`probe
    ensures b.Valid() && ns.probe == handle
  {
    hide Base.Balanced, Standing;
    ns.probe := handle;
  }

  method ClearProbe(b: Base, ns: Nameserver)
    requires b.Valid()
    modifies ns`probe
    ensures b.Valid() && ns.probe == null
  {
    hide Base.Balanced, Standing;
    ns.probe := null;
  }

  /** evdns_cancel_request: of a handle without a request, or whose callback is due, nothing is cancelled. */
  method CancelRequest(b: Base, handle: Handle)
    requires b.Valid() && handle in b.handles
    modifies b`waitingHead, b`queue, b`waitingCount, b`inflight, b`rings, b`flying, b`servers, b`good, b`touched, b.heads
    modifies b.queue`next, b.queue`prev, b.queue`ns, b.queue`transId, b.queue`transmitMe, b.queue`txCount
    modifies b.flying`next, b.flying`prev, b.flying`ns, b.flying`transId, b.flying`transmitMe, b.flying`txCount
    modifies b.servers`requestsInflight, b.servers`choked, b.servers`up, b.servers`failedTimes
    modifies b`handles, CurrentOf(handle)`handle, handle`current, handle`pendingCb, handle`cancelled
    ensures b.Valid() && Same(old(b.servers), b.servers) && b.handles == old(b.handles)
    ensures UpSet(b.servers) <= old(UpSet(b.servers)) && old(b.touched) <= b.touched
    ensures old(b.flying) - old(CurrentOf(handle)) <= b.flying
    ensures var req := old(handle.current);
      if old(handle.current == null || handle.pendingCb) then
        unchanged(b) && unchanged(handle) && forall r :: r in b.flying ==> r.ns == old(r.ns)
      else
        && (b.queue == [] || b.inflight >= b.maxInflight || b.servers == [])
        && Ended(handle) && handle.cancelled && Outstanding(b) == old(Outstanding(b)) - {req}
        && old(UsedBy(req)) <= b.touched
        && (old(req in b.flying && (b.inflight - 1 >= b.maxInflight || b.queue == [])) ==> FinishedQuietly(b, req))
        && (old(req in b.flying && b.inflight - 1 < b.maxInflight && b.queue != []) ==>
            old(b.servers) != [] && old(b.servers)[0] in b.touched)
  {
    hide Base.Valid, Same, UpSet, Outstanding, Flatten, Without;
    SameItself(b.servers);
    if handle.current == null || handle.pendingCb {
      return;
    }
    StandsFor(b, handle);
    handle.cancelled := true;
    Reply(b, handle.current);
  }

  lemma StandsFor(b: Base, handle: Handle)
    requires b.Valid() && handle in b.handles && handle.current != null
    ensures (handle.current in b.flying || handle.current in b.queue) && handle.current.handle == handle
  {
    assert Standing(handle, b.flying, b.queue);
  }

  /** request_reissue: answers 1 if there is no other server to try. */
  method Reissue(b: Base, req: Request) returns (result: int)
    requires b.Balanced() && req in b.flying
    modifies b`servers, b`touched, b.servers`requestsInflight
    modifies req`ns, req`reissueCount, req`txCount, req`transmitMe
    ensures Steady(b, old(b.servers))
    ensures result == (if req.ns == old(req.ns) then 1 else 0) && req.ns == old(Picked(b.servers, b.good))
    ensures result == 0 ==> req.txCount == 0 && req.transmitMe
    ensures req.reissueCount == old(req.reissueCount) + if result == 0 then 1 else 0
  {
    hide *;
    SomeServerOf(b, req);
    BalancedParts(b);
    var lastNs := req.ns;
    var ns := PickFor(b, b.flying, b.queue);
    SameMembers(old(b.servers), b.servers);
    SwapNs(b, req, ns);
    BalancedFrom(b);
    BeginAgain(b, old(b.servers));
    if req.ns == lastNs {
      return 1;
    }
    req.reissueCount := req.reissueCount + 1;
    req.txCount := 0;
    req.transmitMe := true;
    return 0;
  }

  /** The server's count of timeouts after one more, and that it is down if that was one too many. */
  twostate predicate TimeoutCounted(s: Nameserver, maxTimeouts: nat)
    reads s
  {
    if old(s.timedout) + 1 > maxTimeouts then s.timedout == 0 && !s.up else s.timedout == old(s.timedout) + 1
  }

  /**
   evdns_request_timeout_callback: the request is given up, and its server marked down, or it is
   sent again to the next server, for which one more timeout is counted. `charged` is that server.
   */
  method TimedOut(b: Base, req: Request, maxRetransmits: nat, maxTimeouts: nat) returns (charged: Nameserver)
    requires b.Valid() && req in b.flying
    modifies b.servers`timedout, b`handles, req`handle, req.handle`current, req.handle`pendingCb
    modifies b`waitingHead, b`queue, b`waitingCount, b`inflight, b`rings, b`flying, b`servers, b`good, b`touched, b.heads
    modifies b.queue`next, b.queue`prev, b.queue`ns, b.queue`transId, b.queue`transmitMe, b.queue`txCount
    modifies b.flying`next, b.flying`prev, b.flying`ns, b.flying`transId, b.flying`transmitMe, b.flying`txCount
    modifies b.servers`requestsInflight, b.servers`choked, b.servers`up, b.servers`failedTimes
    ensures b.Valid() && Same(old(b.servers), b.servers) && charged in old(b.servers) && b.handles == old(b.handles)
    ensures old(req.txCount) >= maxRetransmits ==>
      && Outstanding(b) == old(Outstanding(b)) - {req} && charged == old(req.ns) && !charged.up
      && Ended(old(req.handle))
    ensures old(req.txCount) < maxRetransmits ==>
      && b.flying == old(b.flying) && b.queue == old(b.queue) && Attempted(req)
      && TimeoutCounted(charged, maxTimeouts)
      && (charged == old(Picked(b.servers, b.good)) || old(Picked(b.servers, b.good)) !in UpSet(b.servers))
      && (forall s :: s in old(b.servers) && s != charged ==> s.timedout == old(s.timedout))
      && req.handle == old(req.handle) && UnchangedHandle(req.handle)
  {
    hide Steady, Base.Valid, Base.Balanced, Tracked, Same, Outstanding, ToSet;
    ValidIs(b);
    HandleOf(b, req);
    ghost var f, q, s := b.flying, b.queue, b.servers;
    OutstandingIs(b);
    if req.txCount >= maxRetransmits {
      charged := GiveUp(b, req);
    } else {
      charged := Resend(b, req, maxTimeouts);
      OutstandingIs(b);
      ValidTo(b, f, q, s);
    }
  }

  method GiveUp(b: Base, req: Request) returns (ns: Nameserver)
    requires b.Valid() && req in b.flying
    modifies b`handles, req`handle, req.handle`current, req.handle`pendingCb
    modifies b`waitingHead, b`queue, b`waitingCount, b`inflight, b`rings, b`flying, b`servers, b`good, b`touched, b.heads
    modifies b.queue`next, b.queue`prev, b.queue`ns, b.queue`transId, b.queue`transmitMe, b.queue`txCount
    modifies b.flying`next, b.flying`prev, b.flying`ns, b.flying`transId, b.flying`transmitMe, b.flying`txCount
    modifies b.servers`requestsInflight, b.servers`choked, b.servers`up, b.servers`failedTimes
    ensures b.Valid() && Same(old(b.servers), b.servers) && b.handles == old(b.handles)
    ensures Outstanding(b) == old(Outstanding(b)) - {req}
    ensures ns == old(req.ns) && ns in old(b.servers) && !ns.up
    ensures Ended(old(req.handle))
  {
    hide Steady, Base.Valid, Base.Balanced, Tracked, Same, Outstanding, ToSet, UpSet, Flatten, Without, FinishedQuietly;
    ValidIs(b);
    ServerOf(b, req);
    OutstandingIs(b);
    ns := req.ns;
    Reply(b, req);
    ValidIs(b);
    SameMembers(old(b.servers), b.servers);
    ghost var f, q, mid := b.flying, b.queue, b.servers;
    OutstandingIs(b);
    NameserverFailed(b, ns);
    BeginAgain(b, mid);
    OutstandingIs(b);
    ValidTo(b, f, q, mid);
    SameAgain(old(b.servers), mid, b.servers);
  }

  method Resend(b: Base, req: Request, maxTimeouts: nat) returns (charged: Nameserver)
    requires b.Balanced() && req in b.flying
    modifies b`servers, b`good, b`touched, b.flying`ns, req`transmitMe, req`txCount
    modifies b.servers`choked, b.servers`up, b.servers`failedTimes, b.servers`requestsInflight, b.servers`timedout
    ensures Steady(b, old(b.servers)) && Attempted(req)
    ensures charged in old(b.servers) && TimeoutCounted(charged, maxTimeouts)
    ensures charged == old(Picked(b.servers, b.good)) || old(Picked(b.servers, b.good)) !in UpSet(b.servers)
    ensures forall s :: s in old(b.servers) && s != charged ==> s.timedout == old(s.timedout)
  {
    hide Steady, Base.Balanced, Base.Linked, Base.Counts, Same;
    ResendOnce(b, req);
    SteadyParts(b, old(b.servers));
    ServerOf(b, req);
    charged := req.ns;
    CountTimeout(b, charged, maxTimeouts, old(b.servers));
  }

  /** Swap to the next server and send. */
  method ResendOnce(b: Base, req: Request)
    requires b.Balanced() && req in b.flying
    modifies b`servers, b`good, b`touched, b.flying`ns, req`transmitMe, req`txCount
    modifies b.servers`choked, b.servers`up, b.servers`failedTimes, b.servers`requestsInflight
    ensures Steady(b, old(b.servers)) && Attempted(req) && (req.transmitMe ==> req.ns in Choked(b))
    ensures req.ns == old(Picked(b.servers, b.good)) || old(Picked(b.servers, b.good)) !in UpSet(b.servers)
    ensures UpSet(b.servers) == old(UpSet(b.servers)) ==>
      b.servers == old(Next(b.servers, b.good)) && req.ns == old(Picked(b.servers, b.good))
  {
    hide Steady, Base.Balanced, Base.Linked, Base.Counts, Same, UpSet, Picked, Next, Choked;
    SomeServerOf(b, req);
    BalancedParts(b);
    var ns := PickFor(b, b.flying, b.queue);
    SameMembers(old(b.servers), b.servers);
    SwapNs(b, req, ns);
    BalancedFrom(b);
    ghost var turned := b.servers;
    var _, _ := Transmit(b, req);
    SteadyAgain(b, old(b.servers), turned);
  }

  lemma SomeServerOf(b: Base, req: Request)
    requires b.Balanced() && req in b.flying
    ensures b.servers != []
  {
  }

  /** Count a timeout of a server. */
  method CountTimeout(b: Base, ns: Nameserver, maxTimeouts: nat, ghost before: seq<Nameserver>)
    requires Steady(b, before) && ns in b.servers
    modifies b`servers, b`good, b`touched, b.flying`ns, ns`timedout, ns`up, ns`failedTimes, b.servers`requestsInflight
    ensures Steady(b, before) && TimeoutCounted(ns, maxTimeouts) && UpSet(b.servers) <= old(UpSet(b.servers))
  {
    hide Steady, Base.Balanced, Same;
    SteadyParts(b, before);
    ns.timedout := ns.timedout + 1;
    if ns.timedout > maxTimeouts {
      ns.timedout := 0;
      NameserverFailed(b, ns);
      SameAgain(before, old(b.servers), b.servers);
    }
    BeginAgain(b, before);
  }

  /** No server holds a probe that was cancelled. */
  ghost predicate NoneCancelled(s: seq<Nameserver>)
    reads s`probe, (set n | n in s && n.probe != null :: n.probe)`cancelled
  {
    forall n :: n in s && n.probe != null ==> !n.probe.cancelled
  }

  /** What is to be cancelled at the turn of a server: the request of its probe, and the server that is at. */
  datatype Turn = NoProbe | Probe(req: Request, ns: Nameserver?)

  ghost function TurnOf(n: Nameserver): Turn
    reads n`probe, n.probe, CurrentOf(n.probe)`ns
  {
    if n.probe == null || n.probe.current == null || n.probe.pendingCb then NoProbe
    else Probe(n.probe.current, n.probe.current.ns)
  }

  /** Nothing but the probe's request, if any, is gone. */
  twostate predicate Quiet(b: Base, t: Turn)
    reads b, b.flying`ns
  {
    && b.servers == old(b.servers) && b.queue == old(b.queue)
    && b.flying == old(b.flying) - (if t.Probe? then {t.req} else {})
    && b.inflight == old(b.inflight) - (if t.Probe? then 1 else 0)
    && Flatten(b.rings) == Without(old(Flatten(b.rings)), if t.Probe? then {t.req} else {})
    && forall r :: r in b.flying ==> r.ns == old(r.ns)
  }

  /** It stands for nothing any more, and its callback will be told that it was cancelled. */
  ghost predicate Dropped(h: Handle?)
    reads h
  {
    Ended(h) && h.cancelled
  }

  /** Cancel the probe of a server. */
  method CancelProbe(b: Base, n: Nameserver)
    requires b.Valid() && n in b.servers && n.probe != null
    modifies b`waitingHead, b`queue, b`waitingCount, b`inflight, b`rings, b`flying, b`servers, b`good, b`touched, b.heads
    modifies b.queue`next, b.queue`prev, b.queue`ns, b.queue`transId, b.queue`transmitMe, b.queue`txCount
    modifies b.flying`next, b.flying`prev, b.flying`ns, b.flying`transId, b.flying`transmitMe, b.flying`txCount
    modifies b.servers`requestsInflight, b.servers`choked, b.servers`up, b.servers`failedTimes, b`handles
    modifies n`probe, n.probe, CurrentOf(n.probe)`handle
    ensures b.Valid() && Same(old(b.servers), b.servers) && n.probe == null && b.handles == old(b.handles)
    ensures var t := old(TurnOf(n));
      && UpSet(b.servers) <= old(UpSet(b.servers)) && (t.NoProbe? ==> b.good == old(b.good))
      && Outstanding(b) == old(Outstanding(b)) - (if t.Probe? then {t.req} else {})
      && (if t.Probe? then Dropped(old(n.probe)) else UnchangedHandle(old(n.probe)))
      && old(b.flying) - (if t.Probe? then {t.req} else {}) <= b.flying
      && (t.NoProbe? || old(b.inflight) - 1 >= b.maxInflight || old(b.queue) == [] ==>
          Quiet(b, t) && b.touched == old(b.touched) + (if t.NoProbe? || t.ns == null then {} else {t.ns}))
      && (t.Probe? && old(b.inflight) - 1 < b.maxInflight && old(b.queue) != [] ==>
          old(b.servers) != [] && old(b.servers)[0] in b.touched)
    ensures old(NoneCancelled(b.servers)) ==> NoneCancelled(b.servers)
  {
    hide Base.Valid, Same, UpSet, Flatten, Without, Outstanding, Tracked, ToSet;
    ProbeAlone(b, n);
    NothingGone(b);
    OutstandingIs(b);
    CancelRequest(b, n.probe);
    ClearProbe(b, n);
    SameMembers(old(b.servers), b.servers);
  }

  lemma ProbeAlone(b: Base, n: Nameserver)
    requires b.Valid() && n in b.servers && n.probe != null
    ensures n.probe in b.handles
    ensures TurnOf(n).Probe? ==> TurnOf(n).req in b.flying && TurnOf(n).ns != null
    ensures forall m :: m in b.servers && m != n && m.probe != null ==> m.probe != n.probe
  {
    hide Base.Linked;
  }

  lemma NothingGone(b: Base)
    ensures Without(Flatten(b.rings), {}) == Flatten(b.rings)
  {
    WithoutNone(Flatten(b.rings), {});
  }

  /** nameserver_up: a probe that is still out is cancelled first. */
  method NameserverUp(b: Base, ns: Nameserver)
    requires b.Valid() && ns in b.servers
    modifies b`waitingHead, b`queue, b`waitingCount, b`inflight, b`rings, b`flying, b`servers, b`good, b`touched, b.heads
    modifies b.queue`next, b.queue`prev, b.queue`ns, b.queue`transId, b.queue`transmitMe, b.queue`txCount
    modifies b.flying`next, b.flying`prev, b.flying`ns, b.flying`transId, b.flying`transmitMe, b.flying`txCount
    modifies b.servers`requestsInflight, b.servers`choked, b.servers`up, b.servers`failedTimes
    modifies b`handles, CurrentOf(ns.probe)`handle, ns.probe, ns`probe, ns`timedout
    ensures b.Valid() && Same(old(b.servers), b.servers) && ns.up && b.handles == old(b.handles)
    ensures old(ns.up) ==> unchanged(b) && unchanged(ns) && UnchangedHandle(ns.probe)
    ensures old(NoneCancelled(b.servers)) ==> NoneCancelled(b.servers)
    ensures old(b.flying) - old(CurrentOf(ns.probe)) <= b.flying
    ensures !old(ns.up) ==> ns.probe == null && ns.failedTimes == 0 && ns.timedout == 0
    ensures !old(ns.up) && old(ns.probe == null || ns.probe.current == null || ns.probe.pendingCb) ==>
      b.good == old(b.good) + 1 && b.flying == old(b.flying) && b.queue == old(b.queue) && UnchangedHandle(old(ns.probe))
    ensures !old(ns.up) && old(ns.probe != null && ns.probe.current != null && !ns.probe.pendingCb) ==>
      Outstanding(b) == old(Outstanding(b)) - {old(ns.probe.current)}
      && Ended(old(ns.probe)) && old(ns.probe).cancelled
  {
    hide Steady, Base.Valid, Base.Balanced, Tracked, Same, Outstanding, UpSet, Flatten, Without, FinishedQuietly, ToSet;
    SameItself(b.servers);
    if ns.up {
      return;
    }
    UpIs(b.servers, ns);
    if ns.probe != null {
      CancelProbe(b, ns);
      SameMembers(old(b.servers), b.servers);
      UpIs(b.servers, ns);
    }
    ValidIs(b);
    OutstandingIs(b);
    MarkUp(b, ns);
    OutstandingIs(b);
    ValidFrom(b);
  }

  twostate predicate UnchangedHandle(h: Handle?)
    reads h
  {
    h != null ==> h.current == old(h.current) && h.pendingCb == old(h.pendingCb) && h.cancelled == old(h.cancelled)
  }

  method MarkUp(b: Base, ns: Nameserver)
    requires b.Balanced() && ns in b.servers && !ns.up
    modifies b`good, ns`up, ns`failedTimes, ns`timedout
    ensures b.Balanced() && ns.up && b.good == old(b.good) + 1 && ns.failedTimes == 0 && ns.timedout == 0
  {
    hide Loads, GoodOnes, Served, Idle, Base.Linked;
    ghost var up := UpSet(b.servers);
    GoodIsUpSet(b.servers);
    ns.up := true;
    ns.failedTimes := 0;
    ns.timedout := 0;
    b.good := b.good + 1;
    assert UpSet(b.servers) == up + {ns};
    GoodIsUpSet(b.servers) by { assert Distinct(b.servers); }
  }
}
