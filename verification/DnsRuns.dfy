/**
 Runs: whatever happens to a resolver in whatever order, its lists, counters and handles stay in
 order, and no request and no callback is lost.
 */
module DnsRuns {
  import opened Bytes
  import opened DnsRing
  import opened DnsServers
  import opened DnsResolver
  import opened DnsTraffic
  import opened DnsSending
  import opened DnsPump
  import opened DnsRequests
  import opened DnsAdmin
  import opened DnsFreeing
  import opened DnsSuspend
  import opened DnsEvents

  /** Servers are named by their place in the ring, requests by their ids, and handles by when they were given. */
  datatype Event =
    | AddAServer
    | Ask(name: seq<byte>)
    | Cancel(i: nat)
    | Arrives(id: nat, verdict: Verdict)     // a reply
    | Expires(id: nat)                       // the timeout of a request
    | Writable(i: nat)                       // a server's socket
    | Fails(i: nat)                          // a server's socket
    | Prod(i: nat)                           // time to probe a server
    | CallBack(i: nat, good: bool)           // a scheduled callback; a probe's may have good news
    | SetMaximum(max: int)
    | Suspend

  /** All that a resolver is made of. */
  ghost function Everything(b: Base): (all: set<object>)
    reads b
  {
    {b, b.heads} + b.flying + ToSet(b.queue) + Listed(b.servers) + b.handles
  }

  lemma EverythingIs(b: Base)
    ensures b in Everything(b) && b.heads in Everything(b)
    ensures forall r :: r in b.flying || r in b.queue <==> r in Outstanding(b)
    ensures forall r :: r in ToSet(b.queue) <==> r in b.queue
    ensures forall r :: r in Outstanding(b) ==> r in Everything(b)
    ensures forall n :: n in b.servers ==> n in Everything(b)
    ensures forall h :: h in b.handles ==> h in Everything(b)
    ensures forall o :: o in Everything(b) ==>
      o == b || o == b.heads || o in b.flying || o in b.queue || o in b.servers || o in b.handles
  {
  }

  /** In order, and no server holds a probe that was cancelled. */
  ghost predicate Sound(b: Base)
    reads b, Everything(b)
  {
    b.Valid() && NoneCancelled(b.servers)
  }

  lemma SoundIs(b: Base)
    requires Sound(b)
    ensures b.Valid() && NoneCancelled(b.servers)
  {
  }

  lemma SoundFrom(b: Base)
    requires b.Valid() && NoneCancelled(b.servers)
    ensures Sound(b)
  {
  }

  lemma NoneCancelledIn(s: seq<Nameserver>, s': seq<Nameserver>)
    requires NoneCancelled(s) && Same(s, s')
    ensures NoneCancelled(s')
  {
  }

  lemma NoneIs(s: seq<Nameserver>)
    requires NoneCancelled(s)
    ensures forall n :: n in s && n.probe != null ==> !n.probe.cancelled
  {
  }

  lemma NoneFrom(s: seq<Nameserver>)
    requires forall n :: n in s && n.probe != null ==> !n.probe.cancelled
    ensures NoneCancelled(s)
  {
  }

  /** Every probe's server is still there. */
  ghost predicate Home(handles: set<Handle>, servers: seq<Nameserver>) {
    forall h :: h in handles && h.probeOf != null ==> h.probeOf in servers
  }

  /** A caller asks for a name. */
  method OnAsk(b: Base, name: seq<byte>) returns (handle: Handle?)
    requires Sound(b)
    modifies Everything(b)
    ensures Sound(b) && fresh(Everything(b) - old(Everything(b)))
    ensures Same(old(b.servers), b.servers)
    ensures handle != null <==> Askable(name)
    ensures handle == null ==> b.handles == old(b.handles)
    ensures handle != null ==> fresh(handle) && handle.probeOf == null && b.handles == old(b.handles) + {handle}
  {
    hide *;
    EverythingIs(b);
    SoundIs(b);
    var h := new Handle(null);
    var req := NewRequest(b, name, h);
    EverythingIs(b);
    SameMembers(old(b.servers), b.servers);
    NoneCancelledIn(old(b.servers), b.servers);
    SoundFrom(b);
    return if req == null then null else h;
  }

  /** A caller cancels a request. */
  method OnCancel(b: Base, handle: Handle)
    requires Sound(b) && handle in b.handles && handle.probeOf == null
    modifies Everything(b)
    ensures Sound(b) && fresh(Everything(b) - old(Everything(b))) && b.handles == old(b.handles)
    ensures Same(old(b.servers), b.servers)
  {
    hide *;
    EverythingIs(b);
    SoundIs(b);
    NotAProbe(b, handle);
    CancelRequest(b, handle);
    EverythingIs(b);
    SameMembers(old(b.servers), b.servers);
    NoneCancelledIn(old(b.servers), b.servers);
    SoundFrom(b);
  }

  lemma NotAProbe(b: Base, handle: Handle)
    requires b.Valid() && handle.probeOf == null
    ensures forall n :: n in b.servers ==> n.probe != handle
    ensures CurrentOf(handle) == if handle.current == null then {} else {handle.current}
    ensures handle in b.handles && handle.current != null ==> handle.current in b.flying || handle.current in b.queue
  {
    assert handle in b.handles ==> Standing(handle, b.flying, b.queue);
  }

  /** A reply arrives; one to no request in flight is ignored. */
  method OnReply(b: Base, id: nat, verdict: Verdict, limits: Limits)
    requires Sound(b)
    modifies Everything(b)
    ensures Sound(b) && fresh(Everything(b) - old(Everything(b))) && b.handles == old(b.handles)
    ensures Same(old(b.servers), b.servers)
  {
    hide *;
    EverythingIs(b);
    SoundIs(b);
    SameItself(b.servers);
    ValidIs(b);
    var req := FindInFlight(b, id);
    if req != null {
      ReachableFrom(b, req);
      ReplyHandle(b, req, verdict, limits);
    }
    EverythingIs(b);
    SameMembers(old(b.servers), b.servers);
    SoundFrom(b);
  }

  /** What a reply to a request may use. */
  lemma ReachableFrom(b: Base, req: Request)
    requires b.Valid() && req in b.flying
    ensures req.handle != null && req.handle in b.handles
    ensures UsedBy(req) <= Listed(b.servers) && ProbeAt(req) <= b.handles && ProbedAt(req) <= b.flying
    ensures forall n :: n in Listed(b.servers) <==> n in b.servers
  {
    hide Base.Linked, Base.Counts;
    ValidIs(b);
    WhereIs(b, req);
  }

  /** A request times out. */
  method OnTimeout(b: Base, id: nat, limits: Limits)
    requires Sound(b)
    modifies Everything(b)
    ensures Sound(b) && fresh(Everything(b) - old(Everything(b))) && b.handles == old(b.handles)
    ensures Same(old(b.servers), b.servers)
  {
    hide *;
    EverythingIs(b);
    SoundIs(b);
    SameItself(b.servers);
    ValidIs(b);
    var req := FindInFlight(b, id);
    if req != null {
      ReachableFrom(b, req);
      var _ := TimedOut(b, req, limits.retransmits, limits.timeouts);
    }
    EverythingIs(b);
    SameMembers(old(b.servers), b.servers);
    NoneCancelledIn(old(b.servers), b.servers);
    SoundFrom(b);
  }

  /** A server's socket takes packets again. */
  method OnWritable(b: Base, ns: Nameserver)
    requires Sound(b) && ns in b.servers
    modifies Everything(b)
    ensures Sound(b) && fresh(Everything(b) - old(Everything(b))) && b.handles == old(b.handles)
    ensures Same(old(b.servers), b.servers)
  {
    hide *;
    EverythingIs(b);
    SoundIs(b);
    SendMarked(b, ns);
    EverythingIs(b);
    SameMembers(old(b.servers), b.servers);
    NoneCancelledIn(old(b.servers), b.servers);
    SoundFrom(b);
  }

  /** A server's socket breaks. */
  method OnBroken(b: Base, ns: Nameserver)
    requires Sound(b) && ns in b.servers
    modifies Everything(b)
    ensures Sound(b) && fresh(Everything(b) - old(Everything(b))) && b.handles == old(b.handles)
    ensures Same(old(b.servers), b.servers)
  {
    hide *;
    EverythingIs(b);
    SoundIs(b);
    ServerFails(b, ns);
    EverythingIs(b);
    SameMembers(old(b.servers), b.servers);
    NoneCancelledIn(old(b.servers), b.servers);
    SoundFrom(b);
  }

  /** It is time to probe a server. */
  method OnProd(b: Base, ns: Nameserver) returns (handle: Handle)
    requires Sound(b) && ns in b.servers
    modifies Everything(b)
    ensures Sound(b) && fresh(Everything(b) - old(Everything(b)))
    ensures Same(old(b.servers), b.servers)
    ensures fresh(handle) && handle.probeOf == ns && b.handles == old(b.handles) + {handle}
  {
    hide *;
    EverythingIs(b);
    SoundIs(b);
    NoneIs(b.servers);
    var _ := SendProbe(b, ns);
    EverythingIs(b);
    SameMembers(old(b.servers), b.servers);
    NoneFrom(b.servers);
    SoundFrom(b);
    return ns.probe;
  }

  method OnAdd(b: Base)
    requires Sound(b)
    modifies Everything(b)
    ensures Sound(b) && fresh(Everything(b) - old(Everything(b))) && b.handles == old(b.handles)
    ensures old(Home(b.handles, b.servers)) ==> Home(b.handles, b.servers)
  {
    hide *;
    EverythingIs(b);
    SoundIs(b);
    NoneIs(b.servers);
    var ns := AddServer(b);
    EverythingIs(b);
    EnteredHas(old(b.servers), ns, b.handles);
    NoneFrom(b.servers);
    SoundFrom(b);
  }

  lemma EnteredHas(s: seq<Nameserver>, ns: Nameserver, handles: set<Handle>)
    ensures forall n :: n in Entered(s, ns) <==> n in s || n == ns
    ensures Home(handles, s) ==> Home(handles, Entered(s, ns))
  {
  }

  method OnMaximum(b: Base, max: int)
    requires Sound(b)
    modifies Everything(b)
    ensures Sound(b) && fresh(Everything(b) - old(Everything(b))) && b.handles == old(b.handles)
    ensures b.servers == old(b.servers)
  {
    hide *;
    EverythingIs(b);
    SoundIs(b);
    NoneIs(b.servers);
    SetMaxInflight(b, max);
    EverythingIs(b);
    NoneFrom(b.servers);
    SoundFrom(b);
  }

  /** The callbacks that would use a server that is not there. */
  ghost predicate Astray(b: Base, h: Handle)
    reads b`servers, h`cancelled
  {
    h.probeOf != null && h.probeOf !in b.servers && !h.cancelled
  }

  /**
   A scheduled callback runs, and the handle is freed; a probe's that was not cancelled tells its
   server, which may be freed already.
   */
  method OnCallback(b: Base, handle: Handle, good: bool) returns (ok: bool)
    requires Sound(b) && handle in b.handles && Ended(handle)
    modifies Everything(b)
    ensures ok <==> !old(Astray(b, handle))
    ensures ok ==> Sound(b) && fresh(Everything(b) - old(Everything(b))) && b.handles == old(b.handles) - {handle}
    ensures ok ==> Same(old(b.servers), b.servers)
  {
    hide *;
    EverythingIs(b);
    SoundIs(b);
    SameItself(b.servers);
    AstrayIs(b, handle);
    if handle.probeOf != null && !handle.cancelled {
      if handle.probeOf !in b.servers {
        return false;
      }
      ProbeCallback(b, handle.probeOf, good);
      SameMembers(old(b.servers), b.servers);
    }
    NotHeld(b, handle);
    FreeHandle(b, handle);
    EverythingIs(b);
    SoundFrom(b);
    return true;
  }

  lemma AstrayIs(b: Base, h: Handle)
    ensures Astray(b, h) <==> h.probeOf != null && h.probeOf !in b.servers && !h.cancelled
  {
  }

  /** No server holds a probe that was cancelled, nor one that is not its own. */
  lemma NotHeld(b: Base, handle: Handle)
    requires b.Valid() && NoneCancelled(b.servers)
    requires handle.probeOf == null || handle.cancelled || (handle.probeOf in b.servers && handle.probeOf.probe == null)
    ensures forall n :: n in b.servers ==> n.probe != handle
  {
  }

  method FreeHandle(b: Base, handle: Handle)
    requires b.Valid() && handle in b.handles && Ended(handle) && forall n :: n in b.servers ==> n.probe != handle
    modifies b`handles
    ensures b.Valid() && b.handles == old(b.handles) - {handle}
  {
    hide Base.Balanced;
    assert forall h :: h in b.handles ==> Standing(h, b.flying, b.queue);
    b.handles := b.handles - {handle};
  }

  ghost function AllEnded(b: Base): set<Handle>
    reads b`handles, b.handles
  {
    set h | h in b.handles && Ended(h)
  }

  lemma EndedAre(b: Base, t: Start)
    requires t == StartOf(b)
    ensures |t.turns| == |t.probes| && AllEnded(b) <= b.handles
    ensures forall h :: h in AllEnded(b) ==> Ended(h)
    ensures forall i :: 0 <= i < |t.probes| && t.probes[i].handle in AllEnded(b) ==>
      t.probes[i].current == null && t.probes[i].pendingCb
  {
    assert forall i :: 0 <= i < |t.probes| ==> t.probes[i] == ProbeStateOf(b.servers[i]);
  }

  lemma StillEnded(b: Base, t: Start, ended: set<Handle>)
    requires |t.turns| == |t.probes| && ended <= b.handles
    requires forall i :: 0 <= i < |t.probes| ==> Settled(t.turns[i], t.probes[i])
    requires forall i :: 0 <= i < |t.probes| && t.probes[i].handle in ended ==>
      t.probes[i].current == null && t.probes[i].pendingCb
    requires forall h :: h in ended && h !in HandlesIn(t) ==> Ended(h)
    ensures ended <= AllEnded(b)
  {
    forall h | h in ended
      ensures Ended(h)
    {
      if h in HandlesIn(t) {
        var i :| 0 <= i < |t.probes| && t.probes[i].handle == h;
        assert Settled(t.turns[i], t.probes[i]);
      }
    }
  }

  /** Every probe that was not cancelled is its server's, and stands for a request. */
  ghost predicate AllProbesAsk(b: Base)
    reads b`servers, b`handles, b.servers`probe, b.handles
  {
    forall h :: h in b.handles && h.probeOf != null ==> h.cancelled || Asking(b, h)
  }

  /**
   Dropping the servers leaves no callback that will use one of them exactly when every probe was
   cancelled or stood for a request.
   */
  method OnSuspend(b: Base) returns (result: Suspension)
    requires Sound(b)
    modifies Everything(b)
    ensures result == Suspended ==>
      && Sound(b) && fresh(Everything(b) - old(Everything(b))) && b.handles == old(b.handles)
      && b.servers == [] && ((forall h :: h in b.handles ==> !Astray(b, h)) <==> old(AllProbesAsk(b)))
    ensures result == Suspended ==> old(AllEnded(b)) <= AllEnded(b)
    ensures old(Unprobed(b)) ==> result == Suspended
  {
    hide *;
    EverythingIs(b);
    SoundIs(b);
    SuspendUses(b);
    StartIs(b);
    ghost var t, was, asking, ended := StartOf(b), CancelledOf(b.handles), AllAsking(b), AllEnded(b);
    AsksAre(b);
    EndedAre(b, t);
    result := SuspendAll(b);
    if result == Suspended {
      AstrayAre(b, was, asking);
      StillEnded(b, t, ended);
      EverythingIs(b);
      NoneFrom(b.servers);
      SoundFrom(b);
    }
  }

  /** No probe of a server stands for a request. */
  ghost predicate Unprobed(b: Base)
    reads b`servers, b.servers`probe, set n | n in b.servers && n.probe != null :: n.probe
  {
    forall n :: n in b.servers && n.probe != null ==> n.probe.current == null
  }

  lemma SuspendUses(b: Base)
    requires b.Valid()
    ensures HandlesIn(StartOf(b)) <= b.handles && RequestsIn(StartOf(b)) <= b.flying
    ensures Unprobed(b) ==> Cancelled(StartOf(b).turns, |StartOf(b).turns|) == 0
  {
    hide Base.Balanced, Cancelled;
    var t := StartOf(b);
    forall p | p in t.probes && p.handle != null
      ensures p.handle in b.handles && (p.current != null ==> p.current in b.flying)
    {
      var i :| 0 <= i < |t.probes| && t.probes[i] == p;
      assert p == ProbeStateOf(b.servers[i]);
    }
    forall p | p in t.probes && p.current != null
      ensures p.handle != null
    {
      var i :| 0 <= i < |t.probes| && t.probes[i] == p;
      assert p == ProbeStateOf(b.servers[i]);
    }
    if Unprobed(b) {
      assert forall i :: 0 <= i < |t.turns| ==> t.turns[i] == TurnOf(b.servers[i]);
      NoneToCancel(t.turns, |t.turns|);
    }
  }

  lemma {:induction false} NoneToCancel(turns: seq<Turn>, i: nat)
    requires i <= |turns| && forall j :: 0 <= j < i ==> turns[j] == NoProbe
    ensures Cancelled(turns, i) == 0
  {
    if i > 0 {
      NoneToCancel(turns, i - 1);
    }
  }

  lemma AsksAre(b: Base)
    ensures AllProbesAsk(b) <==>
      forall h :: h in b.handles && h.probeOf != null ==> h in CancelledOf(b.handles) || h in AllAsking(b)
  {
    hide Asking;
  }

  lemma AstrayAre(b: Base, was: set<Handle>, asking: set<Handle>)
    requires b.servers == [] && CancelledOf(b.handles) == was + asking
    ensures (forall h :: h in b.handles ==> !Astray(b, h)) <==>
      forall h :: h in b.handles && h.probeOf != null ==> h in was || h in asking
  {
    assert forall h :: h in b.handles ==> (h.cancelled <==> h in CancelledOf(b.handles));
  }

  /** These are the handles, each once. */
  ghost predicate Holds(given: seq<Handle>, handles: set<Handle>) {
    Distinct(given) && (forall i :: 0 <= i < |given| ==> given[i] in handles) && forall h :: h in handles ==> h in given
  }

  /** An event that makes and frees no handle. Events about what is not there are ignored. */
  method Plain(b: Base, e: Event, given: seq<Handle>, limits: Limits)
    requires Sound(b) && Holds(given, b.handles)
    requires !e.Ask? && !e.Prod? && !e.CallBack? && !e.Suspend?
    modifies Everything(b)
    ensures Sound(b) && fresh(Everything(b) - old(Everything(b))) && b.handles == old(b.handles)
    ensures old(Home(b.handles, b.servers)) ==> Home(b.handles, b.servers)
  {
    hide Sound, Everything, Home, Same;
    ghost var s := b.servers;
    SameItself(s);
    match e {
      case AddAServer => OnAdd(b);
      case Cancel(i) =>
        if i < |given| && given[i].probeOf == null {
          OnCancel(b, given[i]);
        }
      case Arrives(id, verdict) => OnReply(b, id, verdict, limits);
      case Expires(id) => OnTimeout(b, id, limits);
      case Writable(i) =>
        if i < |b.servers| {
          OnWritable(b, b.servers[i]);
        }
      case Fails(i) =>
        if i < |b.servers| {
          OnBroken(b, b.servers[i]);
        }
      case SetMaximum(max) => OnMaximum(b, max);
    }
    HomeAgain(b.handles, s, b.servers);
  }

  lemma HomeAgain(handles: set<Handle>, s: seq<Nameserver>, s': seq<Nameserver>)
    ensures Home(handles, s) && Same(s, s') ==> Home(handles, s')
  {
  }

  lemma GivenMore(given: seq<Handle>, handles: set<Handle>, h: Handle, s: seq<Nameserver>, s': seq<Nameserver>)
    requires Holds(given, handles) && h !in handles && Same(s, s') && (h.probeOf != null ==> h.probeOf in s)
    ensures Holds(given + [h], handles + {h}) && multiset(given + [h]) == multiset(given) + multiset([h])
    ensures Home(handles, s) ==> Home(handles + {h}, s')
  {
  }

  lemma GivenLess(given: seq<Handle>, i: nat, handles: set<Handle>)
    requires Holds(given, handles) && i < |given|
    ensures var given' := given[..i] + given[i + 1..];
      Holds(given', handles - {given[i]}) && multiset(given') + multiset([given[i]]) == multiset(given)
  {
    assert given == given[..i] + [given[i]] + given[i + 1..];
  }

  /** An event that may make a handle. */
  method Making(b: Base, e: Event, given: seq<Handle>) returns (given': seq<Handle>, born: seq<Handle>)
    requires Sound(b) && Holds(given, b.handles) && (e.Ask? || e.Prod?)
    modifies Everything(b)
    ensures Sound(b) && Holds(given', b.handles) && fresh(Everything(b) - old(Everything(b)))
    ensures given' == given + born && multiset(given') == multiset(given) + multiset(born)
    ensures |born| <= 1 && forall h :: h in born ==> fresh(h)
    ensures |born| == 1 <==> if e.Ask? then Askable(e.name) else e.i < old(|b.servers|)
    ensures old(Home(b.handles, b.servers)) ==> Home(b.handles, b.servers)
  {
    hide *;
    given', born := given, [];
    assert given + [] == given;
    ghost var handles, s := b.handles, b.servers;
    SameItself(s);
    var handle: Handle? := null;
    if e.Ask? {
      handle := OnAsk(b, e.name);
    } else if e.i < |b.servers| {
      handle := OnProd(b, b.servers[e.i]);
    }
    if handle != null {
      GivenMore(given, handles, handle, s, b.servers);
      born := [handle];
      given' := given + born;
    } else {
      HomeAgain(handles, s, b.servers);
    }
  }

  method Calling(b: Base, i: nat, good: bool, given: seq<Handle>) returns (given': seq<Handle>, ran: seq<Handle>, ok: bool)
    requires Sound(b) && Holds(given, b.handles)
    modifies Everything(b)
    ensures ok ==> Sound(b) && Holds(given', b.handles) && fresh(Everything(b) - old(Everything(b)))
    ensures ok ==> multiset(given') + multiset(ran) == multiset(given)
    ensures ran == if i < |given| && old(Ended(given[i])) then [given[i]] else []
    ensures ok <==> i < |given| && old(Ended(given[i])) ==> !old(Astray(b, given[i]))
    ensures old(Home(b.handles, b.servers)) ==> ok && Home(b.handles, b.servers)
  {
    hide Sound, Everything, Home, Same, Astray;
    if i >= |given| || given[i].current != null || !given[i].pendingCb {
      return given, [], true;
    }
    ghost var handles, s := b.handles, b.servers;
    GivenLess(given, i, handles);
    AtHome(b, given[i]);
    ok := OnCallback(b, given[i], good);
    given', ran := given[..i] + given[i + 1..], [given[i]];
    HomeLess(handles, given[i], s, b.servers);
  }

  lemma HomeLess(handles: set<Handle>, h: Handle, s: seq<Nameserver>, s': seq<Nameserver>)
    ensures Home(handles, s) && Same(s, s') ==> Home(handles - {h}, s')
  {
  }

  /** A probe's server is there, unless servers were dropped. */
  lemma AtHome(b: Base, h: Handle)
    requires h in b.handles
    ensures Home(b.handles, b.servers) ==> !Astray(b, h)
  {
  }

  /** What an event comes to: new handles, handles whose callbacks ran, and whether no freed server was used. */
  method Step(b: Base, e: Event, given: seq<Handle>, limits: Limits)
      returns (given': seq<Handle>, born: seq<Handle>, ran: seq<Handle>, ok: bool)
    requires Sound(b) && Holds(given, b.handles)
    modifies Everything(b)
    ensures ok ==> Sound(b) && Holds(given', b.handles) && fresh(Everything(b) - old(Everything(b)))
    ensures ok ==> multiset(given') + multiset(ran) == multiset(given) + multiset(born)
    ensures |born| <= 1 && forall h :: h in born ==> fresh(h)
    ensures forall h :: h in ran ==> h in given && old(Ended(h))
    ensures !e.Suspend? && old(Home(b.handles, b.servers)) ==> ok && Home(b.handles, b.servers)
  {
    hide Sound, Everything, Home, Same, Astray, AllProbesAsk, Unprobed, Holds, Askable;
    given', born, ran, ok := given, [], [], true;
    match e {
      case Ask(_) => given', born := Making(b, e, given);
      case Prod(_) => given', born := Making(b, e, given);
      case CallBack(i, good) =>
        given', ran, ok := Calling(b, i, good, given);
      case Suspend =>
        var result := OnSuspend(b);
        ok := result == Suspended;
      case _ => Plain(b, e, given, limits);
    }
  }

  /**
   Any list of events, from a new resolver on. Unless a freed server is used, which takes that the
   servers are dropped, the resolver is in order; every handle that was made is either still there or
   its callback ran, once; the handles that are there stand for just the outstanding requests, or have
   their callbacks scheduled.
   */
  method Run(events: seq<Event>, limits: Limits)
      returns (b: Base, made: seq<Handle>, given: seq<Handle>, called: seq<Handle>, ok: bool)
    ensures ok ==> b.Valid() && Distinct(made) && multiset(made) == multiset(given) + multiset(called)
    ensures ok ==> forall h :: h in given ==> Standing(h, b.flying, b.queue)
    ensures ok ==> forall r :: r in Outstanding(b) ==> r.handle != null && r.handle in given && r.handle.current == r
    ensures (forall i :: 0 <= i < |events| ==> !events[i].Suspend?) ==> ok
  {
    hide *;
    b := new Base();
    made, given, called, ok := [], [], [], true;
    EverythingIs(b);
    AtFirst(b);
    for i := 0 to |events|
      invariant Sound(b) && Holds(given, b.handles) && fresh(Everything(b)) && ok
      invariant Distinct(made) && multiset(made) == multiset(given) + multiset(called)
      invariant (forall j :: 0 <= j < i ==> !events[j].Suspend?) ==> Home(b.handles, b.servers)
    {
      ghost var before := Everything(b);
      var given', born, ran;
      label before_step:
      given', born, ran, ok := Step(b, events[i], given, limits);
      if !ok {
        return;
      }
      forall o | o in Everything(b)
        ensures fresh(o)
      {
        assert o in before || fresh@before_step(o);
      }
      MadeMore(made, given, called, born, given', ran);
      made, given, called := made + born, given', called + ran;
    }
    SoundIs(b);
    InTheEnd(b, given);
  }

  lemma AtFirst(b: Base)
    requires b.Valid() && b.flying == {} && b.queue == [] && b.servers == [] && b.handles == {}
    ensures Sound(b) && Holds([], b.handles) && Home(b.handles, b.servers) && Distinct<Handle>([])
  {
  }

  /** Handles that were made are those that are there and those whose callbacks ran. */
  lemma MadeMore(made: seq<Handle>, given: seq<Handle>, called: seq<Handle>, born: seq<Handle>, given': seq<Handle>, ran: seq<Handle>)
    requires Distinct(made) && multiset(made) == multiset(given) + multiset(called)
    requires multiset(given') + multiset(ran) == multiset(given) + multiset(born)
    requires |born| <= 1 && forall h :: h in born ==> h !in made
    ensures Distinct(made + born) && multiset(made + born) == multiset(given') + multiset(called + ran)
  {
    if born == [] {
      assert made + born == made;
    } else {
      assert born[0] in born && born == [born[0]];
      assert forall i :: 0 <= i < |made| ==> made[i] in made;
    }
    assert multiset(made + born) == multiset(made) + multiset(born);
    assert multiset(called + ran) == multiset(called) + multiset(ran);
    calc {
      multiset(made) + multiset(born);
      (multiset(given) + multiset(born)) + multiset(called);
      (multiset(given') + multiset(ran)) + multiset(called);
      multiset(given') + (multiset(called) + multiset(ran));
    }
  }

  lemma InTheEnd(b: Base, given: seq<Handle>)
    requires b.Valid() && Holds(given, b.handles)
    ensures forall h :: h in given ==> Standing(h, b.flying, b.queue)
    ensures forall r :: r in Outstanding(b) ==> r.handle != null && r.handle in given && r.handle.current == r
  {
    hide Base.Balanced;
    OutstandingIs(b);
  }

  lemma OneServer(ns: Nameserver, s: seq<Nameserver>)
    requires Same([ns], s)
    ensures s == [ns]
  {
  }

  lemma NoneWait(b: Base)
    ensures b.queue == [] ==> Outstanding(b) == b.flying
    ensures Outstanding(b) == {} ==> b.flying == {} && b.queue == []
  {
    OutstandingIs(b);
    assert b.queue != [] ==> b.queue[0] in Outstanding(b);
  }

  lemma EnteredFirst(ns: Nameserver)
    ensures Entered([], ns) == [ns]
  {
  }

  /** A resolver with one server, which is down and is probed. */
  method ProbeSent() returns (b: Base, ns: Nameserver, req: Request, handle: Handle)
    ensures fresh(b) && fresh(b.heads) && b.Valid() && b.flying == {req} && b.queue == []
    ensures b.servers == [ns] && fresh(ns) && fresh(req) && fresh(handle)
    ensures ns.probe == handle && b.handles == {handle} && handle.probeOf == ns && !handle.cancelled
  {
    hide *;
    b := new Base();
    ns := AddServer(b);
    EnteredFirst(ns);
    ServerFails(b, ns);
    req := SendProbe(b, ns);
    handle := ns.probe;
    OneServer(ns, b.servers);
  }

  /** The probe was answered, and its callback is scheduled. */
  method ProbeAnswered() returns (b: Base, handle: Handle)
    ensures fresh(b) && fresh(b.heads) && Sound(b) && b.flying == {} && b.queue == []
    ensures |b.servers| == 1 && fresh(b.servers[0]) && b.handles == {handle} && fresh(handle)
    ensures handle.probeOf == b.servers[0] && Ended(handle) && !handle.cancelled
  {
    hide *;
    var ns, req;
    b, ns, req, handle := ProbeSent();
    HandleOf(b, req);
    ReachableFrom(b, req);
    NoneFrom(b.servers);
    NoneWait(b);
    ReplyHandle(b, req, Good, Limits(1, 3, 3));
    OneServer(ns, b.servers);
    NoneWait(b);
    SoundFrom(b);
  }

  lemma NoProbeAsks(b: Base, handle: Handle)
    requires Sound(b) && b.flying == {}
    ensures Unprobed(b) && (handle in b.handles && Ended(handle) ==> handle in AllEnded(b))
    ensures handle in b.handles && handle.probeOf != null && Ended(handle) && !handle.cancelled ==> !AllProbesAsk(b)
  {
  }

  lemma EndedOf(b: Base, handle: Handle)
    requires handle in AllEnded(b)
    ensures Ended(handle)
  {
  }

  /** Dropping the servers while a probe's callback is scheduled: that callback uses a freed server. */
  method CallbackUsesFreed() returns (result: Suspension, ok: bool)
    ensures result == Suspended && !ok
  {
    hide *;
    var b, handle := ProbeAnswered();
    EverythingIs(b);
    NoProbeAsks(b, handle);
    result := OnSuspend(b);
    EndedOf(b, handle);
    ok := OnCallback(b, handle, true);
  }
}
