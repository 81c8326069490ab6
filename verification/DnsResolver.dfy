/**
 The resolver's requests: in flight in hashed circular lists, or waiting in another, with counters
 kept beside the lists and beside the nameservers.
 */
module DnsResolver {
  import opened Bytes
  import opened DnsRing
  import opened DnsServers

  /** The buckets hold just the requests in flight, each in the bucket of its transaction id. */
  ghost predicate Buckets(heads: array<Request?>, rings: seq<seq<Request>>, flying: set<Request>)
    reads heads, flying`next, flying`prev, flying`transId
  {
    && |rings| == heads.Length > 0
    && (forall i :: 0 <= i < |rings| ==> InBucket(rings[i], flying, i, |rings|))
    && (forall i :: 0 <= i < |rings| ==> Ring(rings[i], heads[i]))
    && (forall r :: r in flying ==> r in rings[r.transId % |rings|])
  }

  ghost predicate InBucket(ring: seq<Request>, flying: set<Request>, i: nat, n: nat)
    requires n > 0
    reads flying`transId
  {
    forall k {:trigger ring[k]} :: 0 <= k < |ring| ==> ring[k] in flying && ring[k].transId % n == i
  }

  ghost predicate Apart(queue: seq<Request>, flying: set<Request>) {
    forall i :: 0 <= i < |queue| ==> queue[i] !in flying
  }

  /** Requests in flight have a server of the ring, and waiting requests have none. */
  ghost predicate Served(flying: set<Request>, servers: seq<Nameserver>)
    reads flying`ns
  {
    forall r :: r in flying ==> r.ns != null && r.ns in servers
  }

  ghost predicate Idle(queue: seq<Request>)
    reads queue`ns
  {
    forall i {:trigger queue[i]} :: 0 <= i < |queue| ==> queue[i].ns == null
  }

  /** The requests that a server has in flight. */
  ghost function Load(flying: set<Request>, n: Nameserver): set<Request>
    reads flying`ns
  {
    set r | r in flying && r.ns == n
  }

  /** Every server counts its own requests. */
  ghost predicate Loads(flying: set<Request>, servers: seq<Nameserver>)
    reads flying`ns, servers`requestsInflight
  {
    forall i {:trigger servers[i]} :: 0 <= i < |servers| ==> servers[i].requestsInflight == |Load(flying, servers[i])|
  }

  /** evdns_request_insert into a bucket of a table */
  method BucketInsert(heads: array<Request?>, req: Request, ghost rings: seq<seq<Request>>, ghost flying: set<Request>)
      returns (ghost rings': seq<seq<Request>>)
    requires Buckets(heads, rings, flying) && req !in flying
    modifies heads, req`next, req`prev, flying`next, flying`prev
    ensures Buckets(heads, rings', flying + {req})
  {
    hide *;
    HasBucket(heads, rings, flying);
    var i := req.transId % heads.Length;
    BucketParts(heads, rings, flying, i);
    heads[i] := Insert(req, heads[i], rings[i]);
    rings' := rings[i := rings[i] + [req]];
    forall j | 0 <= j < |rings'|
      ensures Ring(rings'[j], heads[j])
    {
    }
    BucketsWith(rings, flying, req, rings', flying + {req});
    BucketsFrom(heads, rings', flying + {req});
  }

  /** The requests of a list that are not gone, in order. */
  ghost function Without(s: seq<Request>, gone: set<Request>): seq<Request> {
    if s == [] then [] else (if s[0] in gone then [] else [s[0]]) + Without(s[1..], gone)
  }

  lemma {:induction false} WithoutAppend(a: seq<Request>, b: seq<Request>, gone: set<Request>)
    ensures Without(a + b, gone) == Without(a, gone) + Without(b, gone)
  {
    if a == [] {
      assert a + b == b;
    } else {
      assert (a + b)[1..] == a[1..] + b;
      WithoutAppend(a[1..], b, gone);
    }
  }

  lemma {:induction false} WithoutNone(s: seq<Request>, gone: set<Request>)
    requires forall k :: 0 <= k < |s| ==> s[k] !in gone
    ensures Without(s, gone) == s
  {
    if s != [] {
      WithoutNone(s[1..], gone);
    }
  }

  lemma {:induction false} WithoutMore(s: seq<Request>, gone: set<Request>, more: set<Request>)
    ensures Without(Without(s, gone), more) == Without(s, gone + more)
  {
    if s != [] {
      WithoutMore(s[1..], gone, more);
      WithoutAppend(if s[0] in gone then [] else [s[0]], Without(s[1..], gone), more);
    }
  }

  lemma {:induction false} InFlatten(parts: seq<seq<Request>>, k: nat)
    requires k < |Flatten(parts)|
    ensures exists i :: 0 <= i < |parts| && Flatten(parts)[k] in parts[i]
  {
    if k < |parts[0]| {
      assert Flatten(parts)[k] in parts[0];
    } else {
      assert Flatten(parts)[k] == Flatten(parts[1..])[k - |parts[0]|];
      InFlatten(parts[1..], k - |parts[0]|);
      var i :| 0 <= i < |parts| - 1 && Flatten(parts)[k] in parts[1..][i];
      assert Flatten(parts)[k] in parts[i + 1];
    }
  }

  /** Taking a request out of its bucket takes it out of the buckets put together. */
  lemma {:induction false} WithoutOne(rings: seq<seq<Request>>, i: nat, k: nat)
    requires i < |rings| && k < |rings[i]| && Distinct(rings[i])
    requires forall j :: 0 <= j < |rings| && j != i ==> rings[i][k] !in rings[j]
    ensures Flatten(rings[i := rings[i][..k] + rings[i][k + 1..]]) == Without(Flatten(rings), {rings[i][k]})
  {
    hide Flatten;
    var x, req := rings[i], rings[i][k];
    var now := rings[i := x[..k] + x[k + 1..]];
    var a, c := rings[..i], rings[i + 1..];
    FlattenAt(rings, i);
    FlattenAt(now, i);
    assert now[..i] == a && now[i + 1..] == c;
    forall j | 0 <= j < |Flatten(a)|
      ensures Flatten(a)[j] != req
    {
      InFlatten(a, j);
      var m :| 0 <= m < |a| && Flatten(a)[j] in a[m];
      assert a[m] == rings[m];
    }
    forall j | 0 <= j < |Flatten(c)|
      ensures Flatten(c)[j] != req
    {
      InFlatten(c, j);
      var m :| 0 <= m < |c| && Flatten(c)[j] in c[m];
      assert c[m] == rings[i + 1 + m];
    }
    WithoutNone(Flatten(a), {req});
    WithoutNone(Flatten(c), {req});
    WithoutInside(x, k);
    WithoutAppend(Flatten(a), x, {req});
    WithoutAppend(Flatten(a) + x, Flatten(c), {req});
  }

  lemma {:induction false} WithoutInside(x: seq<Request>, k: nat)
    requires k < |x| && Distinct(x)
    ensures Without(x, {x[k]}) == x[..k] + x[k + 1..]
  {
    if k == 0 {
      WithoutNone(x[1..], {x[0]});
    } else {
      WithoutInside(x[1..], k - 1);
      assert x[1..][k - 1] == x[k] && x[..k] == [x[0]] + x[1..][..k - 1] && x[1..][k..] == x[k + 1..];
    }
  }

  /** evdns_request_remove from a bucket of a table */
  method BucketRemove(heads: array<Request?>, req: Request, ghost rings: seq<seq<Request>>, ghost flying: set<Request>)
      returns (ghost rings': seq<seq<Request>>)
    requires Buckets(heads, rings, flying) && req in flying
    modifies heads, flying`next, flying`prev
    ensures Buckets(heads, rings', flying - {req}) && Flatten(rings') == Without(Flatten(rings), {req})
    ensures forall j :: 0 <= j < heads.Length && j != req.transId % heads.Length ==> heads[j] == old(heads[j])
  {
    hide *;
    HasBucket(heads, rings, flying);
    var i := req.transId % heads.Length;
    BucketParts(heads, rings, flying, i);
    BucketOf(heads, rings, flying, req);
    ghost var k :| 0 <= k < |rings[i]| && rings[i][k] == req;
    RingDistinct(rings[i], heads[i]);
    heads[i] := Remove(req, heads[i], rings[i], k);
    rings' := rings[i := rings[i][..k] + rings[i][k + 1..]];
    WithoutOne(rings, i, k);
    forall j | 0 <= j < |rings'|
      ensures Ring(rings'[j], heads[j])
    {
    }
    BucketsWithout(rings, flying, req, k, rings', flying - {req});
    BucketsFrom(heads, rings', flying - {req});
  }

  /**
   Every request has a handle that stands for it; a handle that stands for none has its callback
   scheduled; and the handle of a server's probe stands for a request in flight, if for any.
   */
  ghost predicate Tracked(handles: set<Handle>, flying: set<Request>, queue: seq<Request>, servers: seq<Nameserver>)
    reads handles`current, handles`pendingCb, flying`handle, queue`handle, servers`probe
  {
    && (forall r :: r in flying ==> Held(r, handles)) && (forall r :: r in queue ==> Held(r, handles))
    && (forall h :: h in handles ==> Standing(h, flying, queue))
    && (forall n :: n in servers && n.probe != null ==>
      n.probe in handles && n.probe.probeOf == n && (n.probe.current != null ==> n.probe.current in flying))
  }

  ghost predicate Held(r: Request, handles: set<Handle>)
    reads r`handle, handles`current
  {
    r.handle != null && r.handle in handles && r.handle.current == r
  }

  ghost predicate Standing(h: Handle, flying: set<Request>, queue: seq<Request>)
    reads h`current, h`pendingCb, flying`handle, queue`handle
  {
    if h.current == null then h.pendingCb else (h.current in flying || h.current in queue) && h.current.handle == h
  }

  class Base {
    var heads: array<Request?>
    var waitingHead: Request?
    var inflight: int
    var waitingCount: int
    var maxInflight: int
    /** The ring of nameservers, from server_head on. */
    var servers: seq<Nameserver>
    var good: int
    /** The servers whose memory was used: what they hold is read or written, or they are looked at for a pick. */
    var touched: set<Nameserver>

    ghost var rings: seq<seq<Request>>
    ghost var flying: set<Request>
    ghost var queue: seq<Request>
    /** The handles that callers and nameservers were given and that are not freed. */
    ghost var handles: set<Handle>

    /** A base as evdns_base_new leaves it, but for its nameservers. */
    constructor ()
      ensures Valid() && flying == {} && queue == [] && servers == [] && maxInflight == 64 && handles == {} && fresh(heads)
    {
      heads := new Request?[13](_ => null);
      waitingHead := null;
      inflight, waitingCount, maxInflight := 0, 0, 64;
      servers, good, touched := [], 0, {};
      rings, flying, queue, handles := seq(13, _ => []), {}, [], {};
    }

    /** The lists are linked, and no request is in two of them. */
    ghost predicate Linked()
      reads this`heads, this`rings, this`flying, this`queue, this`waitingHead
      reads heads, flying`next, flying`prev, flying`transId, queue`next, queue`prev
    {
      Buckets(heads, rings, flying) && Ring(queue, waitingHead) && Apart(queue, flying)
    }

    /** The counters agree with these requests in flight and waiting. */
    ghost predicate Counts(f: set<Request>, q: seq<Request>)
      reads this`servers, this`inflight, this`waitingCount, this`good
      reads f`ns, q`ns, servers`requestsInflight, servers`up
    {
      && Served(f, servers) && Idle(q) && Loads(f, servers)
      && inflight == |f| && waitingCount == |q|
      && Distinct(servers) && good == |GoodOnes(servers)|
    }

    ghost predicate Balanced()
      reads this`heads, this`rings, this`flying, this`queue, this`waitingHead
      reads this`servers, this`inflight, this`waitingCount, this`good
      reads heads, flying`next, flying`prev, flying`transId, flying`ns
      reads queue`next, queue`prev, queue`ns, servers`requestsInflight, servers`up
    {
      Linked() && Counts(flying, queue)
    }

    /** The lists, counters and handles are all in order. */
    ghost predicate Valid()
      reads this`heads, this`rings, this`flying, this`queue, this`waitingHead, this`handles
      reads this`servers, this`inflight, this`waitingCount, this`good
      reads heads, flying`next, flying`prev, flying`transId, flying`ns, flying`handle
      reads queue`next, queue`prev, queue`ns, queue`handle, servers`requestsInflight, servers`up, servers`probe
      reads handles`current, handles`pendingCb
    {
      Balanced() && Tracked(handles, flying, queue, servers)
    }

    /** evdns_request_insert into the bucket of its transaction id */
    method InsertFlying(req: Request)
      requires Linked() && req !in flying && req !in queue
      modifies heads, req`next, req`prev, flying`next, flying`prev, this`rings, this`flying
      ensures Linked() && flying == old(flying) + {req}
    {
      hide *;
      LinkedParts(this);
      rings := BucketInsert(heads, req, rings, flying);
      flying := flying + {req};
      LinkedFrom(this);
    }

    /** evdns_request_remove from the bucket of its transaction id */
    method RemoveFlying(req: Request)
      requires Linked() && req in flying
      modifies heads, flying`next, flying`prev, this`rings, this`flying
      ensures Linked() && flying == old(flying) - {req} && Flatten(rings) == Without(old(Flatten(rings)), {req})
    {
      hide *;
      LinkedParts(this);
      rings := BucketRemove(heads, req, rings, flying);
      flying := flying - {req};
      LinkedFrom(this);
    }

    /** evdns_request_insert into the waiting queue */
    method InsertWaiting(req: Request)
      requires Linked() && req !in flying && req !in queue
      modifies this`waitingHead, this`queue, req`next, req`prev, queue`next, queue`prev
      ensures Linked() && queue == old(queue) + [req]
    {
      hide *;
      LinkedParts(this);
      waitingHead := Insert(req, waitingHead, queue);
      queue := queue + [req];
      LinkedFrom(this);
    }

    /** evdns_request_remove from the waiting queue */
    method RemoveWaiting(req: Request, ghost k: nat)
      requires Linked() && k < |queue| && queue[k] == req
      modifies this`waitingHead, this`queue, queue`next, queue`prev
      ensures Linked() && queue == old(queue)[..k] + old(queue)[k + 1..] && req !in queue
    {
      hide *;
      LinkedParts(this);
      RingDistinct(queue, waitingHead);
      waitingHead := Remove(req, waitingHead, queue, k);
      queue := queue[..k] + queue[k + 1..];
      LinkedFrom(this);
    }

    /** A new request goes straight into flight: request_submit with a server assigned. */
    method SubmitFlying(req: Request)
      requires Balanced() && req.ns != null && req.ns in servers && req !in flying && req !in queue
      modifies this`inflight, this`rings, this`flying, this`touched, heads, req.ns`requestsInflight
      modifies req`next, req`prev, flying`next, flying`prev
      ensures Balanced() && flying == old(flying) + {req} && touched == old(touched) + {req.ns}
    {
      hide *;
      BalancedParts(this);
      InsertFlying(req);
      CountIn(req, old(flying), queue);
      BalancedFrom(this);
    }

    method CountIn(req: Request, ghost f: set<Request>, ghost q: seq<Request>)
      requires Counts(f, q) && req !in f && req.ns != null && req.ns in servers
      modifies this`inflight, this`touched, req.ns`requestsInflight
      ensures Counts(f + {req}, q) && touched == old(touched) + {req.ns}
    {
      hide Load, GoodOnes;
      touched := touched + {req.ns};
      inflight := inflight + 1;
      req.ns.requestsInflight := req.ns.requestsInflight + 1;
      LoadsWith(f, req, servers);
    }

    method CountOut(req: Request, ghost f: set<Request>, ghost q: seq<Request>)
      requires Counts(f, q) && req in f
      modifies this`inflight, this`touched, req.ns`requestsInflight
      ensures Counts(f - {req}, q) && touched == old(touched) + {req.ns}
    {
      hide Load, GoodOnes;
      touched := touched + {req.ns};
      inflight := inflight - 1;
      req.ns.requestsInflight := req.ns.requestsInflight - 1;
      LoadsWithout(f, req, servers);
    }

    /** A new request has to wait: request_submit without a server. */
    method SubmitWaiting(req: Request)
      requires Balanced() && req.ns == null && req !in flying && req !in queue
      modifies this`waitingHead, this`waitingCount, this`queue, req`next, req`prev, queue`next, queue`prev
      ensures Balanced() && queue == old(queue) + [req]
    {
      hide *;
      BalancedParts(this);
      InsertWaiting(req);
      waitingCount := waitingCount + 1;
      CountsWaiting(this, flying, old(queue), queue);
      BalancedFrom(this);
    }

    /** Take a request out of flight: request_finished, but for the pump at its end. */
    method FinishFlying(req: Request)
      requires Balanced() && req in flying
      modifies this`inflight, this`rings, this`flying, this`touched, heads, req.ns`requestsInflight, flying`next, flying`prev
      ensures Flatten(rings) == Without(old(Flatten(rings)), {req})
      ensures Balanced() && flying == old(flying) - {req} && touched == old(touched) + {req.ns}
    {
      hide *;
      BalancedParts(this);
      RemoveFlying(req);
      CountOut(req, old(flying), queue);
      BalancedFrom(this);
    }

    /** Take a request out of the waiting queue. */
    method FinishWaiting(req: Request, ghost k: nat)
      requires Balanced() && k < |queue| && queue[k] == req
      modifies this`waitingHead, this`waitingCount, this`queue, queue`next, queue`prev
      ensures Balanced() && queue == old(queue)[..k] + old(queue)[k + 1..]
    {
      hide *;
      BalancedParts(this);
      RemoveWaiting(req, k);
      waitingCount := waitingCount - 1;
      CountsWaiting(this, flying, old(queue), queue);
      BalancedFrom(this);
    }
  }

  /** What Buckets says but for the lists being linked. */
  ghost predicate Sorted(rings: seq<seq<Request>>, flying: set<Request>)
    reads flying`transId
  {
    && |rings| > 0
    && (forall i :: 0 <= i < |rings| ==> InBucket(rings[i], flying, i, |rings|))
    && (forall r :: r in flying ==> r in rings[r.transId % |rings|])
  }

  lemma HasBucket(heads: array<Request?>, rings: seq<seq<Request>>, flying: set<Request>)
    requires Buckets(heads, rings, flying)
    ensures |rings| == heads.Length > 0
  {
  }

  lemma BucketParts(heads: array<Request?>, rings: seq<seq<Request>>, flying: set<Request>, i: nat)
    requires Buckets(heads, rings, flying) && i < heads.Length
    ensures |rings| == heads.Length && Sorted(rings, flying)
    ensures forall j :: 0 <= j < |rings| ==> Ring(rings[j], heads[j])
    ensures forall j, k :: 0 <= j < |rings| && 0 <= k < |rings[j]| ==> rings[j][k] in flying && (j != i ==> rings[j][k] !in rings[i])
  {
  }

  lemma BucketOf(heads: array<Request?>, rings: seq<seq<Request>>, flying: set<Request>, req: Request)
    requires Buckets(heads, rings, flying) && req in flying
    ensures |rings| == heads.Length > 0 && req in rings[req.transId % heads.Length]
  {
  }

  lemma BucketsFrom(heads: array<Request?>, rings: seq<seq<Request>>, flying: set<Request>)
    requires |rings| == heads.Length && Sorted(rings, flying)
    requires forall i :: 0 <= i < |rings| ==> Ring(rings[i], heads[i])
    ensures Buckets(heads, rings, flying)
  {
  }

  lemma RingDistinct(s: seq<Request>, head: Request?)
    requires Ring(s, head)
    ensures Distinct(s)
  {
  }

  lemma BucketsWith(rings: seq<seq<Request>>, flying: set<Request>, req: Request, rings': seq<seq<Request>>, flying': set<Request>)
    requires Sorted(rings, flying) && flying' == flying + {req}
    requires var i := req.transId % |rings|; rings' == rings[i := rings[i] + [req]]
    ensures Sorted(rings', flying')
  {
  }

  lemma BucketsWithout(rings: seq<seq<Request>>, flying: set<Request>, req: Request, k: nat, rings': seq<seq<Request>>, flying': set<Request>)
    requires Sorted(rings, flying) && req in flying && flying' == flying - {req}
    requires var i := req.transId % |rings|;
      k < |rings[i]| && rings[i][k] == req && Distinct(rings[i]) && rings' == rings[i := rings[i][..k] + rings[i][k + 1..]]
    ensures Sorted(rings', flying')
  {
  }

  lemma ValidIs(b: Base)
    requires b.Valid()
    ensures b.Balanced() && Tracked(b.handles, b.flying, b.queue, b.servers)
  {
  }

  lemma ValidFrom(b: Base)
    requires b.Balanced() && Tracked(b.handles, b.flying, b.queue, b.servers)
    ensures b.Valid()
  {
  }

  lemma BalancedParts(b: Base)
    requires b.Balanced()
    ensures b.Linked() && b.Counts(b.flying, b.queue)
  {
  }

  lemma BalancedFrom(b: Base)
    requires b.Linked() && b.Counts(b.flying, b.queue)
    ensures b.Balanced()
  {
  }

  lemma LinkedParts(b: Base)
    requires b.Linked()
    ensures Buckets(b.heads, b.rings, b.flying) && Ring(b.queue, b.waitingHead) && b.heads.Length > 0
    ensures forall i :: 0 <= i < |b.queue| ==> b.queue[i] !in b.flying
  {
  }

  lemma LinkedFrom(b: Base)
    requires Buckets(b.heads, b.rings, b.flying) && Ring(b.queue, b.waitingHead)
    requires forall i :: 0 <= i < |b.queue| ==> b.queue[i] !in b.flying
    ensures b.Linked()
  {
  }

  lemma CountsWaiting(b: Base, f: set<Request>, q: seq<Request>, q': seq<Request>)
    requires Served(f, b.servers) && Loads(f, b.servers) && b.inflight == |f|
    requires Distinct(b.servers) && b.good == |GoodOnes(b.servers)|
    requires Idle(q) && b.waitingCount == |q'| && forall i :: 0 <= i < |q'| ==> q'[i] in q || q'[i].ns == null
    ensures b.Counts(f, q')
  {
    hide Loads, GoodOnes;
  }

  lemma LoadsWith(flying: set<Request>, req: Request, servers: seq<Nameserver>)
    requires req.ns != null && req !in flying && Distinct(servers)
    requires forall i {:trigger servers[i]} :: 0 <= i < |servers| ==>
      servers[i].requestsInflight == |Load(flying, servers[i])| + if servers[i] == req.ns then 1 else 0
    ensures Loads(flying + {req}, servers)
  {
    forall i | 0 <= i < |servers|
      ensures servers[i].requestsInflight == |Load(flying + {req}, servers[i])|
    {
      LoadWith(flying, req, servers[i]);
    }
  }

  lemma LoadWith(flying: set<Request>, req: Request, n: Nameserver)
    requires req !in flying
    ensures |Load(flying + {req}, n)| == |Load(flying, n)| + if req.ns == n then 1 else 0
  {
    assert Load(flying + {req}, n) == Load(flying, n) + if req.ns == n then {req} else {};
  }

  lemma LoadsWithout(flying: set<Request>, req: Request, servers: seq<Nameserver>)
    requires req.ns != null && req in flying && Distinct(servers)
    requires forall i {:trigger servers[i]} :: 0 <= i < |servers| ==>
      servers[i].requestsInflight == |Load(flying, servers[i])| - if servers[i] == req.ns then 1 else 0
    ensures Loads(flying - {req}, servers)
  {
    forall i | 0 <= i < |servers|
      ensures servers[i].requestsInflight == |Load(flying - {req}, servers[i])|
    {
      LoadWith(flying - {req}, req, servers[i]);
      assert flying - {req} + {req} == flying;
    }
  }
}
