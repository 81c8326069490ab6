/**
 The ring of nameservers, from its head on, and how one is picked.
 */
module DnsServers {
  import opened Arithmetic
  import opened DnsRing

  /** The servers that are up, in ring order. */
  ghost function GoodOnes(ring: seq<Nameserver>): (g: seq<Nameserver>)
    reads ring`up
  {
    if ring == [] then [] else (if ring[0].up then [ring[0]] else []) + GoodOnes(ring[1..])
  }

  ghost function FirstUp(ring: seq<Nameserver>): (k: nat)
    reads ring`up
    ensures k <= |ring| && (k < |ring| ==> ring[k].up) && forall i :: 0 <= i < k ==> !ring[i].up
  {
    if ring == [] || ring[0].up then 0 else 1 + FirstUp(ring[1..])
  }

  function Turned(ring: seq<Nameserver>, k: nat): (r: seq<Nameserver>)
    requires k <= |ring|
    ensures |r| == |ring|
  {
    ring[k..] + ring[..k]
  }

  lemma {:induction false} GoodAppend(a: seq<Nameserver>, b: seq<Nameserver>)
    ensures GoodOnes(a + b) == GoodOnes(a) + GoodOnes(b)
  {
    if a == [] {
      assert a + b == b;
    } else {
      assert (a + b)[1..] == a[1..] + b;
      GoodAppend(a[1..], b);
    }
  }

  lemma {:induction false} GoodAt(ring: seq<Nameserver>, k: nat)
    requires k <= |ring|
    ensures GoodOnes(ring) == GoodOnes(ring[..k]) + GoodOnes(ring[k..])
    ensures GoodOnes(Turned(ring, k)) == GoodOnes(ring[k..]) + GoodOnes(ring[..k])
  {
    assert ring == ring[..k] + ring[k..];
    GoodAppend(ring[..k], ring[k..]);
    GoodAppend(ring[k..], ring[..k]);
  }

  /** The servers whose memory a pick reads. */
  ghost function LookedAt(ring: seq<Nameserver>, good: int): set<Nameserver>
    reads ring`up
  {
    if ring == [] then {}
    else if good == 0 then {ring[0]}
    else set i | 0 <= i <= FirstUp(ring) && i < |ring| :: ring[i]
  }

  /** The ring from its head on, after a pick. */
  ghost function Next(ring: seq<Nameserver>, good: int): seq<Nameserver>
    reads ring`up
  {
    if ring == [] then []
    else if good == 0 || FirstUp(ring) == |ring| then Turned(ring, 1)
    else Turned(ring, FirstUp(ring) + 1)
  }

  /** The server that a pick gives: the first good one, or without any the one behind the head. */
  ghost function Picked(ring: seq<Nameserver>, good: int): Nameserver?
    reads ring`up
  {
    if ring == [] then null
    else if good == 0 || FirstUp(ring) == |ring| then Turned(ring, 1)[0]
    else ring[FirstUp(ring)]
  }

  /** nameserver_pick: the picked server, the ring from the new head on, and what it looked at. */
  method Pick(ring: seq<Nameserver>, good: int) returns (picked: Nameserver?, ring': seq<Nameserver>, seen: set<Nameserver>)
    requires good == |GoodOnes(ring)|
    ensures seen == LookedAt(ring, good) && ring' == Next(ring, good) && picked == Picked(ring, good)
    ensures ring == [] ==> picked == null && ring' == []
    ensures ring != [] ==> picked != null && picked in ring
    ensures picked != null && good == 0 ==> ring' == Turned(ring, 1) && picked == ring'[0]
    ensures good > 0 ==> FirstUp(ring) < |ring| && picked == ring[FirstUp(ring)] && ring' == Turned(ring, FirstUp(ring) + 1)
    ensures Same(ring, ring') && |GoodOnes(ring')| == |GoodOnes(ring)|
  {
    hide GoodOnes, FirstUp, Turned, Same;
    TurnedSame(ring, 0);
    SomeGood(ring);
    if ring == [] {
      return null, [], {};
    }
    TurnOn(ring, 0);
    if good == 0 {
      TurnedSame(ring, 1);
      ring' := ring[1..] + ring[..1];
      return ring'[0], ring', {ring[0]};
    }
    ring', seen := ring, {};
    ghost var i := 0;
    while true
      invariant i <= FirstUp(ring) && i < |ring| && ring' == Turned(ring, i)
      invariant seen == set j | 0 <= j < i :: ring[j]
      decreases |ring| - i
    {
      TurnOn(ring, i);
      var head := ring'[0];
      seen := seen + {head};
      ring' := ring'[1..] + ring'[..1];
      if head.up {
        TurnedSame(ring, i + 1);
        FirstUpAt(ring, i);
        return head, ring', seen;
      }
      i := i + 1;
    }
  }

  /** A pick told from which servers are up: the server, and the ring from the new head on. */
  ghost function FirstIn(ring: seq<Nameserver>, up: set<Nameserver>): (k: nat)
    ensures k <= |ring| && (k < |ring| ==> ring[k] in up) && forall i :: 0 <= i < k ==> ring[i] !in up
  {
    if ring == [] || ring[0] in up then 0 else 1 + FirstIn(ring[1..], up)
  }

  ghost function PickBy(ring: seq<Nameserver>, up: set<Nameserver>): Nameserver? {
    var k := FirstIn(ring, up);
    if ring == [] then null else if k == |ring| then Turned(ring, 1)[0] else ring[k]
  }

  ghost function TurnBy(ring: seq<Nameserver>, up: set<Nameserver>): seq<Nameserver> {
    var k := FirstIn(ring, up);
    if ring == [] then [] else if k == |ring| then Turned(ring, 1) else Turned(ring, k + 1)
  }

  /** The servers that so many picks give, one after the other. */
  ghost function PicksBy(ring: seq<Nameserver>, up: set<Nameserver>, n: nat): (picks: seq<Nameserver?>)
    ensures |picks| == n
    decreases n
  {
    if n == 0 then [] else [PickBy(ring, up)] + PicksBy(TurnBy(ring, up), up, n - 1)
  }

  lemma {:induction false} PickIsBy(ring: seq<Nameserver>, up: set<Nameserver>, good: int)
    requires (forall n :: n in ring ==> (n.up <==> n in up)) && good == |GoodOnes(ring)|
    ensures FirstIn(ring, up) == FirstUp(ring)
    ensures Picked(ring, good) == PickBy(ring, up) && Next(ring, good) == TurnBy(ring, up)
  {
    SomeGood(ring);
    FirstIsIn(ring, up);
  }

  lemma {:induction false} FirstIsIn(ring: seq<Nameserver>, up: set<Nameserver>)
    requires forall n :: n in ring ==> (n.up <==> n in up)
    ensures FirstIn(ring, up) == FirstUp(ring)
  {
    if ring != [] {
      assert ring == [ring[0]] + ring[1..];
      FirstIsIn(ring[1..], up);
    }
  }

  /** They are what PicksGoRound tells about. */
  lemma {:induction false} PicksAreNth(ring: seq<Nameserver>, up: set<Nameserver>, n: nat, i: nat)
    requires (forall s :: s in ring ==> (s.up <==> s in up)) && FirstUp(ring) < |ring| && i < n
    ensures PicksBy(ring, up, n)[i] == NthPick(ring, i)
    decreases n
  {
    hide Turned, FirstUp, FirstIn;
    FirstIsIn(ring, up);
    if i > 0 {
      var k := FirstUp(ring);
      TurnedHas(ring, k + 1);
      TurnedHasUp(ring, k);
      PicksAreNth(Turned(ring, k + 1), up, n - 1, i - 1);
    }
  }

  lemma TurnedHas(ring: seq<Nameserver>, k: nat)
    requires k <= |ring|
    ensures forall n :: n in Turned(ring, k) ==> n in ring
  {
    assert ring == ring[..k] + ring[k..];
  }

  lemma FirstUpAt(ring: seq<Nameserver>, i: nat)
    requires i <= FirstUp(ring) && i < |ring| && ring[i].up
    ensures FirstUp(ring) == i
  {
  }

  lemma TurnOn(ring: seq<Nameserver>, i: nat)
    requires i < |ring|
    ensures var t := Turned(ring, i); t[0] == ring[i] && t[1..] + t[..1] == Turned(ring, i + 1)
    ensures Turned(ring, 0) == ring && ring[1..] + ring[..1] == Turned(ring, 1) && Turned(ring, 1)[0] in ring
  {
  }

  /** The same servers in some order. */
  ghost predicate Same(a: seq<Nameserver>, b: seq<Nameserver>) {
    && |a| == |b| && (Distinct(a) ==> Distinct(b))
    && (forall i :: 0 <= i < |a| ==> a[i] in b) && (forall i :: 0 <= i < |b| ==> b[i] in a)
  }

  lemma {:induction false} TurnedSame(ring: seq<Nameserver>, k: nat)
    requires k <= |ring|
    ensures Turned(ring, 0) == ring
    ensures Same(ring, Turned(ring, k)) && |GoodOnes(Turned(ring, k))| == |GoodOnes(ring)|
  {
    GoodAt(ring, k);
  }

  lemma {:induction false} SomeGood(ring: seq<Nameserver>)
    ensures |GoodOnes(ring)| > 0 <==> FirstUp(ring) < |ring|
  {
    if ring != [] && !ring[0].up {
      SomeGood(ring[1..]);
    }
  }

  /** The result of the `n`-th of several picks one after another (counting from 0). */
  ghost function NthPick(ring: seq<Nameserver>, n: nat): Nameserver
    requires FirstUp(ring) < |ring|
    reads ring`up
    decreases n
  {
    var k := FirstUp(ring);
    if n == 0 then ring[k] else
      TurnedHasUp(ring, k);
      NthPick(Turned(ring, k + 1), n - 1)
  }

  lemma {:induction false} TurnedHasUp(ring: seq<Nameserver>, k: nat)
    requires k < |ring| && ring[k].up
    ensures FirstUp(Turned(ring, k + 1)) < |ring|
  {
    var t := Turned(ring, k + 1);
    assert t[|ring| - 1] == ring[k];
  }

  /** Going round and round `g` places. */
  function Place(n: nat, g: nat): (i: nat)
    requires g > 0
    ensures i < g
  {
    if n == 0 then 0 else if Place(n - 1, g) == g - 1 then 0 else Place(n - 1, g) + 1
  }

  lemma {:induction false} PlaceIsRemainder(n: nat, g: nat)
    requires g > 0
    ensures Place(n, g) == n % g
  {
    if n == 0 {
      Division(0, g, 0, 0);
    } else {
      PlaceIsRemainder(n - 1, g);
      var q, r := (n - 1) / g, (n - 1) % g;
      if r == g - 1 {
        Division(n, g, q + 1, 0);
      } else {
        Division(n, g, q, r + 1);
      }
    }
  }

  /** Picks go through the good servers in ring order, round and round, as long as none goes up or down. */
  lemma {:induction false} PicksGoRound(ring: seq<Nameserver>, n: nat)
    requires FirstUp(ring) < |ring|
    ensures var g := GoodOnes(ring); |g| > 0 && NthPick(ring, n) == g[Place(n, |g|)]
    ensures Place(n, |GoodOnes(ring)|) == n % |GoodOnes(ring)|
    decreases n
  {
    hide GoodOnes, FirstUp, Turned;
    var k, g := FirstUp(ring), GoodOnes(ring);
    PickedFirst(ring);
    PlaceIsRemainder(n, |g|);
    if n > 0 {
      TurnedHasUp(ring, k);
      PicksGoRound(Turned(ring, k + 1), n - 1);
    }
  }

  /** The first good server is picked, and becomes the last. */
  lemma {:induction false} PickedFirst(ring: seq<Nameserver>)
    requires FirstUp(ring) < |ring|
    ensures var k, g := FirstUp(ring), GoodOnes(ring);
      |g| > 0 && ring[k] == g[0] && GoodOnes(Turned(ring, k + 1)) == g[1..] + [g[0]]
  {
    hide FirstUp, GoodOnes, Turned;
    var k, g := FirstUp(ring), GoodOnes(ring);
    var a, x, b := ring[..k], [ring[k]], ring[k + 1..];
    NoneGood(a);
    OneGood(ring[k]);
    CutAround(ring, k);
    GoodAppend(a, x + b);
    GoodAppend(x, b);
    GoodAppend(b, a + x);
    GoodAppend(a, x);
  }

  lemma CutAround(ring: seq<Nameserver>, k: nat)
    requires k < |ring|
    ensures var a, x, b := ring[..k], [ring[k]], ring[k + 1..];
      ring == a + (x + b) && Turned(ring, k + 1) == b + (a + x)
  {
  }

  lemma {:induction false} OneGood(n: Nameserver)
    requires n.up
    ensures GoodOnes([n]) == [n]
  {
  }

  lemma {:induction false} NoneGood(ring: seq<Nameserver>)
    requires forall i :: 0 <= i < |ring| ==> !ring[i].up
    ensures GoodOnes(ring) == []
  {
    if ring != [] {
      NoneGood(ring[1..]);
    }
  }
}
