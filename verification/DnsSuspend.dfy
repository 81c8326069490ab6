/**
 Taking every request in flight back into the waiting queue when the nameservers are dropped:
 evdns_base_clear_nameservers_and_suspend.
 */
module DnsSuspend {
  import opened Bytes
  import opened DnsRing
  import opened DnsServers
  import opened DnsResolver
  import opened DnsTraffic
  import opened DnsSending
  import opened DnsPump
  import opened DnsRequests
  import opened DnsFreeing
  import opened DnsAdmin
  import opened DnsEvents

  function Reversed<T>(s: seq<T>): (r: seq<T>)
    ensures |r| == |s|
  {
    if s == [] then [] else Reversed(s[1..]) + [s[0]]
  }

  /** The last comes first. */
  lemma {:induction false} ReversedAt<T>(s: seq<T>, i: nat)
    requires i < |s|
    ensures Reversed(s)[i] == s[|s| - 1 - i]
  {
    if i < |s| - 1 {
      ReversedAt(s[1..], i);
    }
  }

  lemma {:induction false} ReversedAppend<T>(a: seq<T>, b: seq<T>)
    ensures Reversed(a + b) == Reversed(b) + Reversed(a)
  {
    if a == [] {
      assert a + b == b;
    } else {
      assert (a + b)[1..] == a[1..] + b;
      ReversedAppend(a[1..], b);
    }
  }

  lemma ReversedOneMore<T>(s: seq<T>, k: nat, q: seq<T>)
    requires k < |s|
    ensures [s[k]] + (Reversed(s[..k]) + q) == Reversed(s[..k + 1]) + q
  {
    assert s[..k + 1] == s[..k] + [s[k]];
    ReversedAppend(s[..k], [s[k]]);
    assert Reversed([s[k]]) == [s[k]];
  }

  ghost predicate Off(s: seq<Request>, q: seq<Request>) {
    forall k {:trigger s[k]} :: 0 <= k < |s| ==> s[k] !in q
  }

  /** The requests that are left of a bucket lead to each other and at last to its first. */
  ghost predicate Chain(t: seq<Request>, first: Request)
    reads t`next
  {
    forall j {:trigger t[j].next} :: 0 <= j < |t| ==> t[j].next == if j + 1 < |t| then t[j + 1] else first
  }

  /** Nothing of its time in flight is left in a request. */
  ghost predicate Reset(req: Request)
    reads req`ns, req`txCount, req`reissueCount, req`transId, req`transmitMe
  {
    req.ns == null && req.txCount == 0 && req.reissueCount == 0 && req.transId == 0 && !req.transmitMe
  }

  ghost predicate AllReset(s: seq<Request>)
    reads s`ns, s`txCount, s`reissueCount, s`transId, s`transmitMe
  {
    forall k :: 0 <= k < |s| ==> Reset(s[k])
  }

  /** Put a request of a bucket at the front of the queue. */
  method TakeBack(b: Base, req: Request)
    requires Ring(b.queue, b.waitingHead) && Idle(b.queue) && b.waitingCount == |b.queue| && req !in b.queue
    modifies b`waitingHead, b`waitingCount, b`queue, b.queue`next, b.queue`prev
    modifies req`next, req`prev, req`ns, req`transId, req`txCount, req`reissueCount, req`transmitMe
    ensures Ring(b.queue, b.waitingHead) && Idle(b.queue) && b.waitingCount == |b.queue|
    ensures b.queue == [req] + old(b.queue) && Reset(req)
  {
    hide Ring;
    req.txCount := 0;
    req.reissueCount := 0;
    req.ns := null;
    req.transId := 0;
    req.transmitMe := false;
    b.waitingCount := b.waitingCount + 1;
    ghost var q := b.queue;
    var head := Insert(req, b.waitingHead, q);
    ShiftedBack(q + [req], head) by { RingHead(q + [req], head); }
    assert (q + [req])[|q|] == req && (q + [req])[..|q|] == q;
    b.waitingHead := head.prev;
    b.queue := [req] + q;
  }

  lemma RingHead(s: seq<Request>, head: Request?)
    requires Ring(s, head) && s != []
    ensures head == s[0]
  {
  }

  /** One step of the walk over a bucket: the request is put in front of the queue, and the next one is answered. */
  method TakeLinked(b: Base, req: Request, ghost s: seq<Request>, ghost k: nat) returns (next: Request?)
    requires Ring(b.queue, b.waitingHead) && Idle(b.queue) && b.waitingCount == |b.queue|
    requires k < |s| && req == s[k] && Distinct(s) && Chain(s[k..], s[0]) && Off(s[k..], b.queue)
    modifies b`waitingHead, b`waitingCount, b`queue, b.queue`next, b.queue`prev
    modifies req`next, req`prev, req`ns, req`transId, req`txCount, req`reissueCount, req`transmitMe
    ensures Ring(b.queue, b.waitingHead) && Idle(b.queue) && b.waitingCount == |b.queue|
    ensures b.queue == [req] + old(b.queue) && Reset(req)
    ensures Chain(s[k + 1..], s[0]) && Off(s[k + 1..], b.queue)
    ensures next == (if k + 1 < |s| then s[k + 1] else s[0]) && (next == s[0] <==> k + 1 == |s|)
  {
    hide *;
    ChainNext(s, k);
    OffFirst(s, k, b.queue);
    next := req.next;
    ghost var before := b.queue;
    TakeBack(b, req);
    NotYet(s, k, before, b.queue);
  }

  /** The walk over one bucket. */
  method TakeBucket(b: Base, head: Request?, ghost s: seq<Request>)
    requires Ring(b.queue, b.waitingHead) && Idle(b.queue) && b.waitingCount == |b.queue|
    requires Ring(s, head) && Off(s, b.queue)
    modifies b`waitingHead, b`waitingCount, b`queue, b.queue`next, b.queue`prev
    modifies s`next, s`prev, s`ns, s`transId, s`txCount, s`reissueCount, s`transmitMe
    ensures Ring(b.queue, b.waitingHead) && Idle(b.queue) && b.waitingCount == |b.queue|
    ensures b.queue == Reversed(s) + old(b.queue) && AllReset(s)
  {
    hide Ring, Idle, Chain, Off, Reset, AllReset, Reversed;
    ghost var q, k: nat := b.queue, 0;
    ChainOf(s, head);
    ReversedNone(s);
    if head == null {
      assert s == s[..0] && [] + q == q;
      return;
    }
    var req := head;
    assert [] + q == q && s[0..] == s;
    while true
      invariant Ring(b.queue, b.waitingHead) && Idle(b.queue) && b.waitingCount == |b.queue|
      invariant k < |s| && req == s[k] && forall j :: 0 <= j < k ==> Reset(s[j])
      invariant b.queue == Reversed(s[..k]) + q && Chain(s[k..], s[0]) && Off(s[k..], b.queue)
      invariant forall j :: 0 <= j < |b.queue| ==> b.queue[j] in s || b.queue[j] in q
      decreases |s| - k
    {
      NotBefore(s, k);
      ReversedOneMore(s, k, q);
      var next := TakeLinked(b, req, s, k);
      k := k + 1;
      if next == head {
        break;
      }
      req := next;
    }
    assert s[..|s|] == s;
    ResetEach(s);
  }

  lemma ReversedNone(s: seq<Request>)
    ensures Reversed(s[..0]) == [] && (s == [] ==> AllReset(s))
  {
  }

  lemma ResetEach(s: seq<Request>)
    requires forall j :: 0 <= j < |s| ==> Reset(s[j])
    ensures AllReset(s)
  {
  }

  lemma NotBefore(s: seq<Request>, k: nat)
    requires k < |s| && Distinct(s)
    ensures forall j :: 0 <= j < k ==> s[j] != s[k]
  {
  }

  lemma ChainOf(s: seq<Request>, head: Request?)
    requires Ring(s, head)
    ensures Distinct(s) && head == (if s == [] then null else s[0]) && (s != [] ==> Chain(s, s[0]))
  {
  }

  lemma ChainNext(s: seq<Request>, k: nat)
    requires k < |s| && Chain(s[k..], s[0]) && Distinct(s)
    ensures s[k].next == (if k + 1 < |s| then s[k + 1] else s[0]) && (s[k].next == s[0] <==> k + 1 == |s|)
    ensures Chain(s[k + 1..], s[0]) && forall j :: k < j < |s| ==> s[j] != s[k]
  {
    var t, u := s[k..], s[k + 1..];
    assert t[0] == s[k] && forall j :: 0 <= j < |u| ==> u[j] == t[j + 1];
    assert t[0].next == if k + 1 < |s| then t[1] else s[0];
  }

  lemma OffFirst(s: seq<Request>, k: nat, q: seq<Request>)
    requires k < |s| && Off(s[k..], q)
    ensures s[k] !in q && var t := s[k + 1..]; forall j {:trigger t[j]} :: 0 <= j < |t| ==> t[j] !in q
  {
    assert s[k..][0] == s[k];
    var t := s[k + 1..];
    forall j | 0 <= j < |t|
      ensures t[j] !in q
    {
      assert s[k..][j + 1] == t[j];
    }
  }

  lemma NotYet(s: seq<Request>, k: nat, q: seq<Request>, q': seq<Request>)
    requires k < |s| && Distinct(s) && Off(s[k..], q) && q' == [s[k]] + q
    ensures Off(s[k + 1..], q')
  {
    var t := s[k + 1..];
    forall j | 0 <= j < |t|
      ensures t[j] !in q'
    {
      assert t[j] == s[k..][j + 1];
    }
  }

  /** Buckets from number `i` on are still linked, apart from each other, and their requests do not wait yet. */
  ghost predicate Left(heads: array<Request?>, rings: seq<seq<Request>>, i: nat, all: set<Request>, q: seq<Request>)
    reads heads, all`next, all`prev
  {
    && |rings| == heads.Length
    && (forall j, k :: 0 <= j < |rings| && 0 <= k < |rings[j]| ==> rings[j][k] in all)
    && (forall j :: i <= j < |rings| ==> Ring(rings[j], heads[j]) && Off(rings[j], q))
    && (forall j, k :: 0 <= j < k < |rings| ==> Off(rings[k], rings[j]))
  }

  /** Take back bucket number `i`. */
  method TakeNext(b: Base, i: nat, ghost rings: seq<seq<Request>>, ghost all: set<Request>)
    requires Ring(b.queue, b.waitingHead) && Idle(b.queue) && b.waitingCount == |b.queue|
    requires i < b.heads.Length && Left(b.heads, rings, i, all, b.queue)
    modifies b`waitingHead, b`waitingCount, b`queue, b.heads, b.queue`next, b.queue`prev
    modifies rings[i]`next, rings[i]`prev, rings[i]`ns, rings[i]`transId, rings[i]`txCount, rings[i]`reissueCount
    modifies rings[i]`transmitMe
    ensures AllReset(rings[i])
    ensures Ring(b.queue, b.waitingHead) && Idle(b.queue) && b.waitingCount == |b.queue|
    ensures Left(b.heads, rings, i + 1, all, b.queue) && b.heads[i] == null
    ensures forall j :: 0 <= j < b.heads.Length && j != i ==> b.heads[j] == old(b.heads[j])
    ensures b.queue == Reversed(rings[i]) + old(b.queue)
    ensures forall j :: 0 <= j < |b.queue| ==> b.queue[j] in all || b.queue[j] in old(b.queue)
  {
    hide Ring, Idle, Reversed, AllReset;
    ReversedIn(rings[i]);
    TakeBucket(b, b.heads[i], rings[i]);
    b.heads[i] := null;
  }

  lemma {:induction false} ReversedIn<T>(s: seq<T>)
    ensures forall j :: 0 <= j < |s| ==> Reversed(s)[j] in s
  {
    if s != [] {
      ReversedIn(s[1..]);
    }
  }

  ghost predicate Covered(rings: seq<seq<Request>>, flying: set<Request>) {
    forall r :: r in flying ==> exists j :: 0 <= j < |rings| && r in rings[j]
  }

  lemma BucketsCover(b: Base)
    requires b.Linked()
    ensures Covered(b.rings, b.flying)
  {
    hide Ring;
  }

  lemma ResetAll(rings: seq<seq<Request>>, flying: set<Request>)
    requires Covered(rings, flying) && forall j :: 0 <= j < |rings| ==> AllReset(rings[j])
    ensures forall r :: r in flying ==> Reset(r)
  {
  }

  /** A bucket shares no request with those before it. */
  lemma ApartFromEarlier(heads: array<Request?>, rings: seq<seq<Request>>, i: nat, all: set<Request>, q: seq<Request>)
    requires i < |rings| && Left(heads, rings, i, all, q)
    ensures forall j, k :: 0 <= j < i && 0 <= k < |rings[i]| ==> rings[i][k] !in rings[j]
    ensures forall k :: 0 <= k < |rings[i]| ==> rings[i][k] in all
  {
    hide Ring;
  }

  /** The end of it: the servers are dropped, and every request waits again. */
  method DropServers(b: Base)
    requires b.Valid()
    modifies b`waitingHead, b`queue, b`waitingCount, b`inflight, b`rings, b`flying, b`servers, b`good, b.heads
    modifies b.queue`next, b.queue`prev, b.flying`next, b.flying`prev, b.flying`ns, b.flying`transId
    modifies b.flying`txCount, b.flying`reissueCount, b.flying`transmitMe
    ensures b.Valid() && b.servers == [] && b.flying == {} && forall r :: r in old(b.flying) ==> Reset(r)
    ensures b.queue == Reversed(Flatten(old(b.rings))) + old(b.queue)
    ensures ToSet(b.queue) == old(Outstanding(b))
  {
    hide *;
    ValidIs(b);
    BalancedParts(b);
    ghost var f, q, rings := b.flying, b.queue, b.rings;
    OutstandingIs(b);
    NoServers(b.handles, f, q, b.servers);
    InBuckets(b);
    BucketsCover(b);
    Requeue(b);
    AllQueued(rings, f, q, b.queue);
    TrackedQueued(b.handles, f, q, b.queue);
    ValidFrom(b);
  }

  method Requeue(b: Base)
    requires b.Balanced()
    modifies b`waitingHead, b`queue, b`waitingCount, b`inflight, b`rings, b`flying, b`servers, b`good, b.heads
    modifies b.queue`next, b.queue`prev, b.flying`next, b.flying`prev, b.flying`ns, b.flying`transId
    modifies b.flying`txCount, b.flying`reissueCount, b.flying`transmitMe
    ensures b.Balanced() && b.servers == [] && b.flying == {} && forall r :: r in old(b.flying) ==> Reset(r)
    ensures b.queue == Reversed(Flatten(old(b.rings))) + old(b.queue)
  {
    hide *;
    BalancedParts(b);
    LinkedParts(b);
    CountsParts(b, b.flying, b.queue);
    b.servers := [];
    b.good := 0;
    AllLeft(b);
    BucketsCover(b);
    TakeAll(b, b.rings, b.flying);
    ResetAll(b.rings, b.flying);
    ClearFlight(b);
  }

  method ClearFlight(b: Base)
    requires Ring(b.queue, b.waitingHead) && Idle(b.queue) && b.waitingCount == |b.queue|
    requires b.servers == [] && b.good == 0 && b.heads.Length > 0
    requires forall j :: 0 <= j < b.heads.Length ==> b.heads[j] == null
    modifies b`inflight, b`flying, b`rings
    ensures b.Balanced() && b.flying == {}
  {
    hide *;
    b.inflight := 0;
    b.flying := {};
    b.rings := seq(b.heads.Length, _ => []);
    NothingFlies(b);
  }

  /** The loop over the buckets. */
  method TakeAll(b: Base, ghost rings: seq<seq<Request>>, ghost all: set<Request>)
    requires Ring(b.queue, b.waitingHead) && Idle(b.queue) && b.waitingCount == |b.queue|
    requires |rings| == b.heads.Length && Left(b.heads, rings, 0, all, b.queue)
    modifies b`waitingHead, b`waitingCount, b`queue, b.heads, b.queue`next, b.queue`prev
    modifies all`next, all`prev, all`ns, all`transId, all`txCount, all`reissueCount, all`transmitMe
    ensures Ring(b.queue, b.waitingHead) && Idle(b.queue) && b.waitingCount == |b.queue|
    ensures b.queue == Reversed(Flatten(rings)) + old(b.queue)
    ensures forall j :: 0 <= j < b.heads.Length ==> b.heads[j] == null && AllReset(rings[j])
  {
    hide *;
    ghost var q := b.queue;
    NothingTaken(rings, q);
    for i := 0 to b.heads.Length
      invariant Ring(b.queue, b.waitingHead) && Idle(b.queue) && b.waitingCount == |b.queue|
      invariant Left(b.heads, rings, i, all, b.queue)
      invariant b.queue == Reversed(Flatten(rings[..i])) + q
      invariant forall j :: 0 <= j < |b.queue| ==> b.queue[j] in all || b.queue[j] in q
      invariant forall j :: 0 <= j < i ==> b.heads[j] == null && AllReset(rings[j])
    {
      TakenMore(rings, i, q);
      ApartFromEarlier(b.heads, rings, i, all, b.queue);
      TakeNext(b, i, rings, all);
    }
    FlattenAll(rings);
  }

  lemma TakenMore(rings: seq<seq<Request>>, i: nat, q: seq<Request>)
    requires i < |rings|
    ensures Reversed(rings[i]) + (Reversed(Flatten(rings[..i])) + q) == Reversed(Flatten(rings[..i + 1])) + q
  {
    FlattenStep(rings, i);
    ReversedAppend(Flatten(rings[..i]), rings[i]);
  }

  lemma NothingTaken(rings: seq<seq<Request>>, q: seq<Request>)
    ensures q == Reversed(Flatten(rings[..0])) + q
  {
    FlattenAll(rings);
  }

  lemma AllLeft(b: Base)
    requires b.Linked()
    ensures |b.rings| == b.heads.Length && Left(b.heads, b.rings, 0, b.flying, b.queue)
  {
    hide Ring;
    BucketsApart(b);
  }

  lemma BucketsApart(b: Base)
    requires b.Linked()
    ensures forall j, k :: 0 <= j < k < |b.rings| ==> Off(b.rings[k], b.rings[j])
  {
    hide Ring;
  }

  lemma NothingFlies(b: Base)
    requires b.flying == {} && b.servers == [] && b.good == 0 && b.inflight == 0
    requires Ring(b.queue, b.waitingHead) && Idle(b.queue) && b.waitingCount == |b.queue|
    requires |b.rings| == b.heads.Length > 0 && forall i :: 0 <= i < |b.rings| ==> b.rings[i] == [] && b.heads[i] == null
    ensures b.Balanced()
  {
  }

  lemma InBuckets(b: Base)
    requires b.Linked()
    ensures forall j, k :: 0 <= j < |b.rings| && 0 <= k < |b.rings[j]| ==> b.rings[j][k] in b.flying
  {
    hide Ring;
  }

  lemma {:induction false} ReversedHas(s: seq<Request>, r: Request)
    ensures r in Reversed(s) <==> r in s
  {
    if s != [] {
      ReversedHas(s[1..], r);
      assert s == [s[0]] + s[1..];
    }
  }

  lemma {:induction false} FlattenHas(parts: seq<seq<Request>>, r: Request)
    ensures r in Flatten(parts) <==> exists i :: 0 <= i < |parts| && r in parts[i]
  {
    if parts != [] {
      FlattenHas(parts[1..], r);
      assert parts == [parts[0]] + parts[1..];
      if r in parts[0] {
        assert r in Flatten(parts);
      }
      if i :| 0 <= i < |parts| && r in parts[i] && i > 0 {
        assert parts[i] == parts[1..][i - 1];
      }
      if r in Flatten(parts[1..]) {
        var i :| 0 <= i < |parts| - 1 && r in parts[1..][i];
        assert r in parts[i + 1];
      }
    }
  }

  lemma AllQueued(rings: seq<seq<Request>>, f: set<Request>, q: seq<Request>, q': seq<Request>)
    requires Covered(rings, f) && forall j, k :: 0 <= j < |rings| && 0 <= k < |rings[j]| ==> rings[j][k] in f
    requires q' == Reversed(Flatten(rings)) + q
    ensures ToSet(q') == f + ToSet(q) && forall r :: r in q' <==> r in f || r in q
  {
    forall r
      ensures r in q' <==> r in f || r in q
    {
      ReversedHas(Flatten(rings), r);
      FlattenHas(rings, r);
    }
    assert forall r :: r in ToSet(q') <==> r in q';
    assert forall r :: r in ToSet(q) <==> r in q;
  }

  lemma NoServers(hs: set<Handle>, f: set<Request>, q: seq<Request>, s: seq<Nameserver>)
    requires Tracked(hs, f, q, s)
    ensures Tracked(hs, f, q, [])
  {
    hide Held, Standing;
  }

  lemma TrackedQueued(hs: set<Handle>, f: set<Request>, q: seq<Request>, q': seq<Request>)
    requires Tracked(hs, f, q, []) && forall r :: r in q' <==> r in f || r in q
    ensures Tracked(hs, {}, q', [])
  {
    assert forall h :: h in hs ==> Standing(h, f, q);
  }

  /** What suspending comes to: when a server is used that is freed already, anything can happen. */
  datatype Suspension = Suspended | UsedFreed

  /** The handle is the probe of its server, and stands for a request. */
  ghost predicate Asking(b: Base, h: Handle)
    reads b`servers, b.servers`probe, h
  {
    h.probeOf != null && h.probeOf in b.servers && h.probeOf.probe == h && h.current != null && !h.pendingCb
  }

  ghost function AllAsking(b: Base): set<Handle>
    reads b`servers, b`handles, b.servers`probe, b.handles
  {
    set h | h in b.handles && Asking(b, h)
  }

  ghost function CancelledOf(handles: set<Handle>): set<Handle>
    reads handles`cancelled
  {
    set h | h in handles && h.cancelled
  }

  lemma AskingAre(b: Base, t: Start)
    requires b.Valid() && t == StartOf(b)
    ensures |t.turns| == |t.probes| && AllAsking(b) <= HandlesIn(t) && AllAsking(b) <= b.handles
    ensures forall i :: 0 <= i < |t.probes| && t.probes[i].handle != null ==>
      && (t.turns[i].Probe? <==> t.probes[i].handle in AllAsking(b))
      && (t.probes[i].cancelled <==> t.probes[i].handle in CancelledOf(b.handles))
  {
    hide Base.Balanced, Held, Standing;
    forall i | 0 <= i < |t.probes| && t.probes[i].handle != null
      ensures t.turns[i].Probe? <==> t.probes[i].handle in AllAsking(b)
      ensures t.probes[i].cancelled <==> t.probes[i].handle in CancelledOf(b.handles)
    {
      assert t.turns[i] == TurnOf(b.servers[i]) && t.probes[i] == ProbeStateOf(b.servers[i]);
    }
    forall h | h in AllAsking(b)
      ensures h in HandlesIn(t)
    {
      var i :| 0 <= i < |b.servers| && b.servers[i] == h.probeOf;
      assert t.probes[i] == ProbeStateOf(b.servers[i]) && t.probes[i] in t.probes;
    }
  }

  /** Cancelled now is what was, and what was asking. */
  lemma CancelledNow(t: Start, handles: set<Handle>, was: set<Handle>, asking: set<Handle>)
    requires |t.turns| == |t.probes| && asking <= HandlesIn(t) && asking <= handles
    requires forall i :: 0 <= i < |t.probes| && t.probes[i].handle != null ==>
      && (t.turns[i].Probe? <==> t.probes[i].handle in asking)
      && (t.probes[i].cancelled <==> t.probes[i].handle in was)
    requires forall i :: 0 <= i < |t.probes| ==> Settled(t.turns[i], t.probes[i])
    requires forall h :: h in handles && h !in HandlesIn(t) ==> (h.cancelled <==> h in was)
    requires was <= handles
    ensures CancelledOf(handles) == was + asking
  {
    forall h | h in handles
      ensures h.cancelled <==> h in was + asking
    {
      if h in HandlesIn(t) {
        var i :| 0 <= i < |t.probes| && t.probes[i].handle == h;
        assert Settled(t.turns[i], t.probes[i]);
      }
    }
  }

  /**
   evdns_base_clear_nameservers_and_suspend. The probes are cancelled while the servers are freed; all
   other requests wait again, those in flight in front and as if they were never sent. Cancelling a
   probe uses the server of its request, and the pump looks at the servers from the head on; unless
   that first happens at the turn of the first server, no freed server is used exactly when the queue
   is never pumped and no probe's request is at a server that is freed before its turn. The callbacks
   that are told of the cancelling are just those of the probes that stood for a request.
   */
  method SuspendAll(b: Base) returns (result: Suspension)
    requires b.Valid()
    modifies b`waitingHead, b`queue, b`waitingCount, b`inflight, b`rings, b`flying, b`servers, b`good, b`touched, b.heads
    modifies b.queue`next, b.queue`prev, b.queue`ns, b.queue`transId, b.queue`transmitMe, b.queue`txCount
    modifies b.flying`next, b.flying`prev, b.flying`ns, b.flying`transId, b.flying`transmitMe, b.flying`txCount
    modifies b.servers`requestsInflight, b.servers`choked, b.servers`up, b.servers`failedTimes, b`handles
    modifies b.flying`reissueCount, b.queue`reissueCount
    modifies b.servers`probe, HandlesIn(StartOf(b)), RequestsIn(StartOf(b))`handle
    ensures var t := old(StartOf(b)); result == Suspended ==>
      && b.Valid() && b.servers == [] && b.flying == {} && b.handles == old(b.handles)
      && ToSet(b.queue) == t.flying + ToSet(t.queue) - Gone(t.turns, |t.turns|)
      && (forall r :: r in t.flying - Gone(t.turns, |t.turns|) ==> Reset(r))
      && (forall i :: 0 <= i < |t.turns| ==> t.servers[i].probe == null && Settled(t.turns[i], t.probes[i]))
    ensures var t := old(StartOf(b)); result == Suspended && First(t) == |t.turns| ==>
      b.queue == Reversed(Without(t.order, Gone(t.turns, |t.turns|))) + t.queue
    ensures var t := old(StartOf(b)); Cancelled(t.turns, |t.turns|) == 0 ==>
      result == Suspended && b.queue == Reversed(t.order) + t.queue
    ensures var t := old(StartOf(b)); First(t) > 0 ==>
      (result == Suspended <==> First(t) == |t.turns| && NoneDangles(t, |t.turns|))
    ensures var t := old(StartOf(b)); First(t) == 0 && Cancelled(t.turns, |t.turns|) <= 1 ==> result == Suspended
    ensures result == Suspended ==> CancelledOf(b.handles) == old(CancelledOf(b.handles) + AllAsking(b))
  {
    hide Base.Valid, Same, Midway, Unpumped, Reversed, Without, Flatten, Gone, Cancelled, First, NoneDangles, StartOf;
    hide Outstanding, ToSet, Intact, HandlesIn, RequestsIn, AllReset, Reset, Settled, Asking, AllAsking;
    ghost var t := StartOf(b);
    ghost var was, asking := CancelledOf(b.handles), AllAsking(b);
    AskingAre(b, t);
    NoTurns(t);
    StartIs(b);
    var ok := CancelProbes(b, t);
    if !ok {
      return UsedFreed;
    }
    AtTheEnd(b, t);
    CancelledNow(t, b.handles, was, asking);
    DropServers(b);
    return Suspended;
  }

  lemma StartIs(b: Base)
    ensures StartOf(b).flying == b.flying && StartOf(b).queue == b.queue && StartOf(b).servers == b.servers
    ensures forall i :: 0 <= i < |b.servers| ==> StartOf(b).probes[i].handle == b.servers[i].probe
  {
  }

  lemma AtTheEnd(b: Base, t: Start)
    requires |t.turns| == |t.servers| && Midway(b, t, |t.turns|)
    ensures forall j :: 0 <= j < |t.turns| ==> t.servers[j].probe == null && Settled(t.turns[j], t.probes[j])
    ensures Outstanding(b) == t.flying + ToSet(t.queue) - Gone(t.turns, |t.turns|)
    ensures t.flying - Gone(t.turns, |t.turns|) <= b.flying
    ensures forall r :: r in b.flying || r in b.queue ==> r in t.flying || r in t.queue
    ensures Unpumped(b, t, |t.turns|) ==>
      b.queue == t.queue && Flatten(b.rings) == Without(t.order, Gone(t.turns, |t.turns|))
  {
    hide Flatten, Without, Gone;
    OutstandingIs(b);
    assert forall r :: r in Outstanding(b) ==> r in t.flying + ToSet(t.queue);
  }

  /** Without a probe, there is nothing to cancel. */
  lemma NoTurns(t: Start)
    requires |t.turns| == |t.servers|
    ensures Cancelled(t.turns, |t.turns|) == 0 ==>
      First(t) == |t.turns| && NoneDangles(t, |t.turns|) && Gone(t.turns, |t.turns|) == {} && Without(t.order, {}) == t.order
  {
    WithoutNone(t.order, {});
    if Cancelled(t.turns, |t.turns|) == 0 {
      NothingCancelled(t.turns, |t.turns|);
      NeverPumps(t, 0);
    }
  }

  lemma {:induction false} NothingCancelled(turns: seq<Turn>, i: nat)
    requires i <= |turns| && Cancelled(turns, i) == 0
    ensures Gone(turns, i) == {} && forall j :: 0 <= j < i ==> turns[j].NoProbe?
  {
    if i > 0 {
      NothingCancelled(turns, i - 1);
    }
  }

  lemma {:induction false} NeverPumps(t: Start, i: nat)
    requires i <= |t.turns| && forall j :: 0 <= j < |t.turns| ==> t.turns[j].NoProbe?
    ensures FirstPump(t.turns, i, t.inflight, t.max, t.queue != []) == |t.turns|
    decreases |t.turns| - i
  {
    if i < |t.turns| {
      NeverPumps(t, i + 1);
    }
  }

  /** A server that is down at the head, and two that are up: a pick takes the second, and the third is the new head. */
  lemma PickOver(ring: seq<Nameserver>)
    requires |ring| == 3 && !ring[0].up && ring[1].up
    ensures Next(ring, 2) == [ring[2], ring[0], ring[1]]
  {
    assert FirstUp(ring) == 1 by {
      assert ring[1..][0] == ring[1] && FirstUp(ring[1..]) == 0;
    }
  }

  /** With room for one after the second server's probe is cancelled, that is the first turn at which the queue is pumped. */
  lemma SecondPumps(b: Base)
    requires |b.servers| == 3 && b.inflight == b.maxInflight == 1 && b.queue != []
    requires b.servers[0].probe == null && TurnOf(b.servers[1]).Probe?
    ensures First(StartOf(b)) == 1 && |StartOf(b).turns| == 3
  {
    hide Flatten, Gone;
    var t := StartOf(b);
    assert t.turns[0] == TurnOf(b.servers[0]) && t.turns[1] == TurnOf(b.servers[1]);
    assert Cancelled(t.turns, 1) == 0;
    assert FirstPump(t.turns, 1, t.inflight, t.max, t.queue != []) == 1;
  }

  lemma SecondIsProbed(b: Base)
    requires |b.servers| == 3 && b.servers[0].probe == null && b.servers[2].probe == null
    requires b.servers[1].probe != null && b.servers[1].probe.current != null
    ensures HandlesIn(StartOf(b)) == {b.servers[1].probe} && RequestsIn(StartOf(b)) == {b.servers[1].probe.current}
  {
    hide Flatten, TurnOf;
    var p := StartOf(b).probes;
    assert forall i :: 0 <= i < 3 ==> p[i] == ProbeStateOf(b.servers[i]);
    assert p == [p[0], p[1], p[2]];
  }

  lemma EnteredThrice(a: Nameserver, b: Nameserver, c: Nameserver)
    ensures Entered(Entered(Entered([], a), b), c) == [a, c, b]
  {
  }

  /** A resolver with room for one request, and a ring of a server that is down and two that are up. */
  method ThreeServers() returns (b: Base, down: Nameserver)
    ensures fresh(b) && fresh(b.heads) && b.Valid() && b.maxInflight == 1
    ensures b.flying == {} && b.queue == [] && b.handles == {} && |b.servers| == 3
    ensures fresh(b.servers[0]) && fresh(b.servers[1]) && fresh(b.servers[2])
    ensures b.servers[0] == down && !down.up && b.servers[1].up && b.servers[2].up
    ensures b.servers[0].probe == null && b.servers[1].probe == null && b.servers[2].probe == null
  {
    hide *;
    b := new Base();
    SetMaxInflight(b, 1);
    down := AddServer(b);
    var last := AddServer(b);
    var other := AddServer(b);
    EnteredThrice(down, last, other);
    ServerFails(b, down);
  }

  /** A probe of the first is out, and it is the second in the ring. */
  method ProbeOfDown() returns (b: Base, probe: Request)
    ensures fresh(b) && fresh(b.heads) && b.Valid() && b.maxInflight == b.inflight == 1 && b.queue == []
    ensures fresh(probe) && b.flying == {probe} && |b.servers| == 3
    ensures fresh(b.servers[0]) && fresh(b.servers[1]) && fresh(b.servers[2])
    ensures b.servers[0].probe == null && b.servers[2].probe == null
    ensures var handle := b.servers[1].probe;
      handle != null && fresh(handle) && handle.current == probe && !handle.pendingCb && b.handles == {handle}
  {
    hide Base.Valid, Same, Next, Outstanding;
    var down;
    b, down := ThreeServers();
    PickOver(b.servers);
    NoneInFlight(b);
    probe := SendProbe(b, down);
    OneInFlight(b, probe);
  }

  /**
   A freed server is used: there may be one request in flight, the ring is a server that is down and two
   that are up, a probe of the first is out, so that it is the second in the ring, and a request waits.
   */
  method SuspendUsesFreed() returns (result: Suspension)
    ensures result == UsedFreed
  {
    hide Base.Valid, Same, First, StartOf, HandlesIn, RequestsIn, NoneDangles, Gone, Cancelled, Without, Flatten, ToSet;
    var b, probe := ProbeOfDown();
    var handle := new Handle(null);
    var req := NewRequest(b, [97], handle);
    assert Askable([97]);
    OneInFlight(b, probe);
    SecondPumps(b);
    SecondIsProbed(b);
    result := SuspendAll(b);
  }

  lemma NoneInFlight(b: Base)
    requires b.Valid() && b.flying == {} && |b.servers| == 3
    requires !b.servers[0].up && b.servers[1].up && b.servers[2].up
    ensures b.inflight == 0 && b.good == 2
  {
    var s := b.servers;
    NoneGood(s[..1]);
    OneGood(s[1]);
    OneGood(s[2]);
    GoodAppend(s[..1], [s[1]] + [s[2]]);
    GoodAppend([s[1]], [s[2]]);
    assert s == s[..1] + ([s[1]] + [s[2]]);
  }

  lemma OneInFlight(b: Base, r: Request)
    requires b.Valid() && b.flying == {r}
    ensures b.inflight == 1
  {
  }
}
