/**
 The requests and nameservers of the resolver, and the circular doubly linked lists that the
 requests are kept in, as queues.
 */
module DnsRing {

  /** struct nameserver, but for its socket, address and timers */
  class Nameserver {
    var up: bool                    // state
    var requestsInflight: int
    var failedTimes: nat
    var timedout: nat
    var choked: bool
    var probe: Handle?              // probe_request

    constructor ()
      ensures up && requestsInflight == 0 && probe == null
    {
      up := true;
      requestsInflight := 0;
      failedTimes, timedout, choked := 0, 0, false;
      probe := null;
    }
  }

  /** struct evdns_request: what a caller holds of a request */
  class Handle {
    var current: Request?
    var pendingCb: bool
    var cancelled: bool             // the callback is to be told so
    const probeOf: Nameserver?      // whose probe it is, for the callback of a probe

    constructor (probeOf: Nameserver?)
      ensures current == null && !pendingCb && !cancelled && this.probeOf == probeOf
    {
      current, pendingCb, cancelled := null, false, false;
      this.probeOf := probeOf;
    }
  }

  /** struct request, but for its packet, callback and timer */
  class Request {
    var next: Request?
    var prev: Request?
    var ns: Nameserver?
    var transId: nat
    var txCount: nat
    var reissueCount: nat
    var transmitMe: bool
    var handle: Handle?

    constructor (ns: Nameserver?, transId: nat, handle: Handle?)
      ensures next == null && prev == null && this.ns == ns && this.transId == transId && txCount == 0
      ensures this.handle == handle
    {
      next, prev := null, null;
      this.ns, this.transId, this.handle := ns, transId, handle;
      txCount, reissueCount, transmitMe := 0, 0, false;
    }
  }

  ghost predicate Distinct<T>(s: seq<T>) {
    forall i, j :: 0 <= i < j < |s| ==> s[i] != s[j]
  }

  /** Going on from the head by `next` visits the elements of `s` in order and comes back to the head; `prev` goes back. */
  ghost predicate Ring(s: seq<Request>, head: Request?)
    reads s`next, s`prev
  {
    && Distinct(s)
    && head == (if s == [] then null else s[0])
    && (forall i {:trigger s[i].next} :: 0 <= i < |s| ==> s[i].next == s[if i + 1 < |s| then i + 1 else 0])
    && (forall i {:trigger s[i].prev} :: 0 <= i < |s| ==> s[i].prev == s[if i > 0 then i - 1 else |s| - 1])
  }

  /** evdns_request_insert: at the tail. */
  method Insert(req: Request, head: Request?, ghost s: seq<Request>) returns (head': Request?)
    requires Ring(s, head) && req !in s
    modifies req`next, req`prev, s`next, s`prev
    ensures Ring(s + [req], head')
  {
    if head == null {
      req.next, req.prev := req, req;
      return req;
    }
    req.prev := head.prev;
    req.prev.next := req;
    req.next := head;
    head.prev := req;
    return head;
  }

  /** evdns_request_remove */
  method Remove(req: Request, head: Request?, ghost s: seq<Request>, ghost k: nat) returns (head': Request?)
    requires Ring(s, head) && k < |s| && s[k] == req
    modifies s`next, s`prev
    ensures Ring(s[..k] + s[k + 1..], head') && req.next == null && req.prev == null
  {
    head' := head;
    Neighbours(s, head, k);
    if req.next == req {
      head' := null;
    } else {
      req.next.prev := req.prev;
      req.prev.next := req.next;
      if head == req {
        head' := req.next;
      }
    }
    req.next, req.prev := null, null;
    RingWithout(s, k, head');
  }

  function After(i: nat, n: nat): nat
    requires i < n
  {
    if i + 1 < n then i + 1 else 0
  }

  function Before(i: nat, n: nat): nat
    requires i < n
  {
    if i > 0 then i - 1 else n - 1
  }

  function Skip(i: nat, k: nat, n: nat): nat
    requires i < n
  {
    if i == k then After(i, n) else i
  }

  function SkipBack(i: nat, k: nat, n: nat): nat
    requires i < n
  {
    if i == k then Before(i, n) else i
  }

  lemma Neighbours(s: seq<Request>, head: Request?, k: nat)
    requires Ring(s, head) && k < |s|
    ensures s[k].next == s[After(k, |s|)] && s[k].prev == s[Before(k, |s|)]
    ensures s[k].next == s[k] <==> |s| == 1
    ensures s[k].next == s[k] <==> s[k].prev == s[k]
    ensures head == s[k] <==> k == 0
  {
  }

  /** Requested around element number `k`, the other elements are a ring. */
  lemma RingWithout(s: seq<Request>, k: nat, head: Request?)
    requires k < |s| && Distinct(s)
    requires head == if |s| == 1 then null else if k == 0 then s[1] else s[0]
    requires forall i {:trigger s[i].next} :: 0 <= i < |s| && i != k ==> s[i].next == s[Skip(After(i, |s|), k, |s|)]
    requires forall i {:trigger s[i].prev} :: 0 <= i < |s| && i != k ==> s[i].prev == s[SkipBack(Before(i, |s|), k, |s|)]
    ensures Ring(s[..k] + s[k + 1..], head)
  {
    var t := s[..k] + s[k + 1..];
    WithoutAt(s, k);
    forall i | 0 <= i < |t|
      ensures t[i].next == t[After(i, |t|)] && t[i].prev == t[Before(i, |t|)]
    {
      var o := if i < k then i else i + 1;
      assert s[o].next == s[Skip(After(o, |s|), k, |s|)] && s[o].prev == s[SkipBack(Before(o, |s|), k, |s|)];
    }
  }

  lemma WithoutAt(s: seq<Request>, k: nat)
    requires k < |s|
    ensures var t := s[..k] + s[k + 1..];
      |t| == |s| - 1 && forall i :: 0 <= i < |t| ==> t[i] == s[if i < k then i else i + 1]
  {
  }

  /** Shifting the start of the list back by one, as the suspension of all requests does. */
  lemma ShiftedBack(s: seq<Request>, head: Request)
    requires Ring(s, head)
    ensures Ring([s[|s| - 1]] + s[..|s| - 1], head.prev)
  {
    var t := [s[|s| - 1]] + s[..|s| - 1];
    assert forall i :: 0 < i < |t| ==> t[i] == s[i - 1];
  }

  ghost predicate FirstWith(s: seq<Request>, i: nat, transId: nat)
    reads s`transId
  {
    i < |s| && s[i].transId == transId && forall j :: 0 <= j < i ==> s[j].transId != transId
  }

  /** request_find_from_trans_id: the first request of a list with this id. */
  method Find(head: Request?, transId: nat, ghost s: seq<Request>) returns (found: Request?)
    requires Ring(s, head)
    ensures found == null <==> forall r :: r in s ==> r.transId != transId
    ensures found != null ==> exists i :: 0 <= i < |s| && found == s[i] && FirstWith(s, i, transId)
  {
    if head == null {
      return null;
    }
    var req := head;
    ghost var i := 0;
    while true
      invariant i < |s| && req == s[i] && forall j :: 0 <= j < i ==> s[j].transId != transId
      decreases |s| - i
    {
      if req.transId == transId {
        return req;
      }
      req := req.next;
      if req == head {
        return null;
      }
      i := i + 1;
    }
  }
}
