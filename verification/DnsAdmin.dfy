/**
 Administration of the resolver: rehashing the buckets, looking up by transaction id, and adding
 nameservers.
 */
module DnsAdmin {
  import opened DnsRing
  import opened DnsServers
  import opened DnsResolver
  import opened DnsTraffic

  /** request_find_from_trans_id: looking in one bucket finds the request, if any in flight has the id. */
  method FindInFlight(b: Base, transId: nat) returns (found: Request?)
    requires b.Balanced()
    ensures found == null <==> forall r :: r in b.flying ==> r.transId != transId
    ensures found != null ==> found in b.flying && found.transId == transId
  {
    hide Ring;
    ghost var n := |b.rings|;
    RingOf(b, transId % b.heads.Length);
    found := Find(b.heads[transId % b.heads.Length], transId, b.rings[transId % b.heads.Length]);
  }

  /** The ring with a new server behind its head. */
  function Entered(servers: seq<Nameserver>, ns: Nameserver): seq<Nameserver> {
    if servers == [] then [ns] else [servers[0], ns] + servers[1..]
  }

  /** evdns_nameserver_add_impl_, from where the server is added to the ring */
  method AddServer(b: Base) returns (ns: Nameserver)
    requires b.Valid()
    modifies b`servers, b`good
    ensures b.Valid() && fresh(ns) && ns.up && ns.probe == null && b.good == old(b.good) + 1 && b.servers == Entered(old(b.servers), ns)
    ensures b.servers == if old(b.servers) == [] then [ns] else old(b.servers)[..1] + [ns] + old(b.servers)[1..]
  {
    hide *;
    ValidIs(b);
    BalancedParts(b);
    CountsParts(b, b.flying, b.queue);
    OldServers(b);
    ns := new Nameserver();
    EnteredTracked(b.handles, b.flying, b.queue, b.servers, ns);
    EnteredCounts(b.flying, b.servers, ns);
    EnteredGood(b.servers, ns);
    EnteredIs(b.servers, ns);
    b.servers := Entered(b.servers, ns);
    b.good := b.good + 1;
    CountsAgain(b, b.flying, b.queue);
    BalancedFrom(b);
    ValidFrom(b);
  }

  lemma EnteredTracked(hs: set<Handle>, f: set<Request>, q: seq<Request>, servers: seq<Nameserver>, ns: Nameserver)
    requires Tracked(hs, f, q, servers) && ns.probe == null
    ensures Tracked(hs, f, q, Entered(servers, ns))
  {
    hide Held, Standing;
  }

  lemma EnteredIs(servers: seq<Nameserver>, ns: Nameserver)
    ensures Entered(servers, ns) == if servers == [] then [ns] else servers[..1] + [ns] + servers[1..]
  {
  }

  lemma OldServers(b: Base)
    requires b.Counts(b.flying, b.queue)
    ensures forall r :: r in b.flying ==> r.ns in b.servers
  {
  }

  lemma EnteredCounts(f: set<Request>, servers: seq<Nameserver>, ns: Nameserver)
    requires Served(f, servers) && Loads(f, servers) && Distinct(servers) && ns !in servers && ns.requestsInflight == 0
    ensures Served(f, Entered(servers, ns)) && Loads(f, Entered(servers, ns)) && Distinct(Entered(servers, ns))
  {
    assert Load(f, ns) == {};
  }

  lemma {:induction false} EnteredGood(servers: seq<Nameserver>, ns: Nameserver)
    requires ns.up
    ensures |GoodOnes(Entered(servers, ns))| == |GoodOnes(servers)| + 1
  {
    OneGood(ns);
    if servers == [] {
      assert GoodOnes(servers) == [];
    } else {
      var a, rest := [servers[0]], servers[1..];
      assert servers == a + rest && Entered(servers, ns) == a + ([ns] + rest);
      GoodAppend(a, rest);
      GoodAppend(a, [ns] + rest);
      GoodAppend([ns], rest);
    }
  }

  /** Move a request from one table of buckets to another. */
  method MoveOver(from: array<Request?>, to: array<Request?>, req: Request,
                  ghost rings: seq<seq<Request>>, ghost left: set<Request>, ghost rings2: seq<seq<Request>>, ghost moved: set<Request>)
      returns (ghost rings': seq<seq<Request>>, ghost rings2': seq<seq<Request>>)
    requires from != to && Buckets(from, rings, left) && Buckets(to, rings2, moved) && left !! moved && req in left
    modifies from, to, left`next, left`prev, moved`next, moved`prev
    ensures Buckets(from, rings', left - {req}) && Buckets(to, rings2', moved + {req})
    ensures forall j :: 0 <= j < from.Length && j != req.transId % from.Length ==> from[j] == old(from[j])
  {
    hide *;
    HasBucket(from, rings, left);
    rings' := BucketRemove(from, req, rings, left);
    rings2' := BucketInsert(to, req, rings2, moved);
  }

  /** Two tables that hold disjoint parts of the requests. */
  ghost predicate Parted(from: array<Request?>, to: array<Request?>, rings: seq<seq<Request>>, left: set<Request>,
                         rings2: seq<seq<Request>>, moved: set<Request>, flying: set<Request>)
    reads from, to, left`next, left`prev, left`transId, moved`next, moved`prev, moved`transId
  {
    Buckets(from, rings, left) && Buckets(to, rings2, moved) && left !! moved && left + moved == flying
  }

  /** Empty one bucket. */
  method RehashBucket(from: array<Request?>, to: array<Request?>, i: nat, ghost flying: set<Request>,
                      ghost rings0: seq<seq<Request>>, ghost left0: set<Request>, ghost rings20: seq<seq<Request>>, ghost moved0: set<Request>)
      returns (ghost rings: seq<seq<Request>>, ghost left: set<Request>, ghost rings2: seq<seq<Request>>, ghost moved: set<Request>)
    requires from != to && i < from.Length && Parted(from, to, rings0, left0, rings20, moved0, flying)
    modifies from, to, flying`next, flying`prev
    ensures Parted(from, to, rings, left, rings2, moved, flying) && from[i] == null
    ensures forall j :: 0 <= j < from.Length && j != i ==> from[j] == old(from[j])
  {
    hide Buckets;
    rings, left, rings2, moved := rings0, left0, rings20, moved0;
    while from[i] != null
      invariant Parted(from, to, rings, left, rings2, moved, flying)
      invariant forall j :: 0 <= j < from.Length && j != i ==> from[j] == old(from[j])
      decreases |left|
    {
      HeadIn(from, rings, left, i);
      ghost var req := from[i];
      rings, rings2 := MoveOver(from, to, from[i], rings, left, rings2, moved);
      left, moved := left - {req}, moved + {req};
    }
  }

  /** Move every request of one table of buckets to another. */
  method Rehash(from: array<Request?>, to: array<Request?>, ghost rings0: seq<seq<Request>>, ghost flying: set<Request>)
      returns (ghost rings: seq<seq<Request>>)
    requires from != to && Buckets(from, rings0, flying) && to.Length > 0 && forall i :: 0 <= i < to.Length ==> to[i] == null
    modifies from, to, flying`next, flying`prev
    ensures Buckets(to, rings, flying)
  {
    hide Buckets;
    ghost var left, moved: set<Request>, old_ := flying, {}, rings0;
    rings := seq(to.Length, _ => []);
    NoBuckets(to, rings);
    for i := 0 to from.Length
      invariant Parted(from, to, old_, left, rings, moved, flying)
      invariant forall j :: 0 <= j < i ==> from[j] == null
    {
      old_, left, rings, moved := RehashBucket(from, to, i, flying, old_, left, rings, moved);
    }
    NoneLeft(from, old_, left);
    assert moved == flying;
  }

  lemma NoBuckets(heads: array<Request?>, rings: seq<seq<Request>>)
    requires heads.Length == |rings| > 0
    requires forall i :: 0 <= i < heads.Length ==> heads[i] == null && rings[i] == []
    ensures Buckets(heads, rings, {})
  {
  }

  lemma HeadIn(heads: array<Request?>, rings: seq<seq<Request>>, flying: set<Request>, i: nat)
    requires Buckets(heads, rings, flying) && i < heads.Length && heads[i] != null
    ensures heads[i] in flying && heads[i].transId % heads.Length == i
  {
    assert rings[i] != [] && heads[i] == rings[i][0];
  }

  lemma NoneLeft(heads: array<Request?>, rings: seq<seq<Request>>, flying: set<Request>)
    requires Buckets(heads, rings, flying) && forall j :: 0 <= j < heads.Length ==> heads[j] == null
    ensures flying == {}
  {
    HeadsFor(heads, rings, flying);
  }

  lemma HeadsFor(heads: array<Request?>, rings: seq<seq<Request>>, flying: set<Request>)
    requires Buckets(heads, rings, flying)
    ensures heads.Length > 0 && forall r :: r in flying ==> heads[r.transId % heads.Length] != null
  {
  }

  /** A new table of buckets for the requests in flight. */
  method NewTable(b: Base, n: nat) returns (newHeads: array<Request?>, ghost rings: seq<seq<Request>>)
    requires b.Linked() && n > 0
    modifies b.heads, b.flying`next, b.flying`prev
    ensures fresh(newHeads) && newHeads.Length == n
    ensures Buckets(newHeads, rings, b.flying) && Ring(b.queue, b.waitingHead)
  {
    hide *;
    LinkedParts(b);
    newHeads := new Request?[n](_ => null);
    rings := Rehash(b.heads, newHeads, b.rings, b.flying);
  }

  lemma ApartFrom(b: Base)
    requires b.Linked()
    ensures Apart(b.queue, b.flying)
  {
  }

  /** evdns_base_set_max_requests_inflight: the same requests are in flight, in new buckets. */
  method SetMaxInflight(b: Base, maxInflight0: int)
    requires b.Valid()
    modifies b`heads, b`rings, b`maxInflight, b.heads, b.flying`next, b.flying`prev
    ensures b.Valid() && fresh(b.heads) && b.maxInflight == (if maxInflight0 < 1 then 1 else maxInflight0)
    ensures b.heads.Length == (b.maxInflight + 4) / 5
  {
    hide *;
    ValidIs(b);
    BalancedParts(b);
    LinkedParts(b);
    ApartFrom(b);
    var maxInflight := if maxInflight0 < 1 then 1 else maxInflight0;
    var newHeads, rings := NewTable(b, (maxInflight + 4) / 5);
    UseTable(b, newHeads, rings, maxInflight);
  }

  method UseTable(b: Base, heads: array<Request?>, ghost rings: seq<seq<Request>>, maxInflight: int)
    requires Buckets(heads, rings, b.flying) && Ring(b.queue, b.waitingHead) && Apart(b.queue, b.flying)
    requires b.Counts(b.flying, b.queue) && Tracked(b.handles, b.flying, b.queue, b.servers)
    modifies b`heads, b`rings, b`maxInflight
    ensures b.Valid() && b.heads == heads && b.maxInflight == maxInflight
  {
    hide Buckets, Ring, Apart, Base.Counts, Tracked;
    b.heads := heads;
    b.rings := rings;
    b.maxInflight := maxInflight;
  }
}
