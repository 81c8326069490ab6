/**
 Groups of connections that share one bucket: suspending and resuming all members, each member's
 share, and the bandwidth of the whole group.
 */
module RateGroup {
  import opened Arithmetic
  import opened Bytes
  import opened TokenBucket
  import opened RateLimit

  /** The shared state of a group. */
  datatype Group = Group(rates: Rates, limits: Limits, minShare: nat, configured: nat, readSuspended: bool, writeSuspended: bool) {
    function Suspended(isWrite: bool): bool {
      if isWrite then writeSuspended else readSuspended
    }

    function Set(isWrite: bool, on: bool): Group {
      if isWrite then this.(writeSuspended := on) else this.(readSuspended := on)
    }
  }

  // ---- What each operation does to the group ----

  function GCharged(g: Group, isWrite: bool, bytes: int): Group {
    var h := g.(limits := g.limits.With(isWrite, g.limits.Of(isWrite) - bytes));
    h.Set(isWrite, h.limits.Of(isWrite) <= 0)
  }

  function GDecremented(g: Group, isWrite: bool, decr: int): Group {
    var h := g.(limits := g.limits.With(isWrite, g.limits.Of(isWrite) - decr));
    if g.limits.Of(isWrite) > 0 && h.limits.Of(isWrite) <= 0 then h.Set(isWrite, true)
    else if g.limits.Of(isWrite) <= 0 && h.limits.Of(isWrite) > 0 then h.Set(isWrite, false)
    else h
  }

  function GRefilled(g: Group, tick: nat): Group {
    var l := Updated(g.limits, g.rates, tick);
    g.(limits := l,
       readSuspended := g.readSuspended && l.read < g.minShare,
       writeSuspended := g.writeSuspended && l.write < g.minShare)
  }

  /** No share is larger than one tick's worth in either direction. */
  function ShareFor(rates: Rates, share: nat): nat {
    Min(Min(share, rates.read.rate), rates.write.rate)
  }

  function GConfigured(g: Group, rates: Rates): Group {
    g.(rates := rates,
       limits := g.limits.(read := MinInt(g.limits.read, rates.read.maximum), write := MinInt(g.limits.write, rates.write.maximum)),
       minShare := ShareFor(rates, g.configured))
  }

  /** Division in C. */
  function Quotient(a: int, n: nat): int
    requires n > 0
  {
    if a >= 0 then a / n else -((-a) / n)
  }

  /** What one of `members` members may transfer. */
  function Share(g: Group, isWrite: bool, members: nat): int
    requires members > 0
  {
    if g.Suspended(isWrite) then 0
    else
      var s := Quotient(g.limits.Of(isWrite), members);
      if s < g.minShare then g.minShare else s
  }

  // ---- Properties ----

  ghost predicate Sensible(g: Group) {
    && g.rates.Ok() && Bounded(g.limits, g.rates)
    && 1 <= g.minShare <= g.rates.read.rate && g.minShare <= g.rates.write.rate
  }

  /** A group that is not suspended has bandwidth, and no group is ever deep in debt. */
  ghost predicate Sound(g: Group) {
    && Sensible(g)
    && (!g.readSuspended ==> g.limits.read > 0) && (!g.writeSuspended ==> g.limits.write > 0)
    && g.limits.read > -(g.minShare as int) && g.limits.write > -(g.minShare as int)
  }

  datatype GroupMove = GTick | GRefill | GTransfer(isWrite: bool, members: nat, bytes: nat)

  function GMoved(g: Group, now: nat, m: GroupMove): Group {
    match m
    case GTick => g
    case GRefill => GRefilled(g, now % TWO_32)
    case GTransfer(w, _, bytes) => GCharged(g, w, bytes)
  }

  function GLater(now: nat, m: GroupMove): nat {
    if m.GTick? then now + 1 else now
  }

  function GSpentBy(m: GroupMove, isWrite: bool): nat {
    if m.GTransfer? && m.isWrite == isWrite then m.bytes else 0
  }

  function GSpent(moves: seq<GroupMove>, isWrite: bool): nat {
    if moves == [] then 0 else GSpentBy(moves[0], isWrite) + GSpent(moves[1..], isWrite)
  }

  function GTicks(moves: seq<GroupMove>): nat {
    if moves == [] then 0 else (if moves[0].GTick? then 1 else 0) + GTicks(moves[1..])
  }

  /** Each member transfers no more than its share at that time. */
  ghost predicate GLegal(g: Group, now: nat, moves: seq<GroupMove>)
    decreases |moves|
  {
    moves == [] ||
    (InShare(g, moves[0]) && GLegal(GMoved(g, now, moves[0]), GLater(now, moves[0]), moves[1..]))
  }

  ghost predicate InShare(g: Group, m: GroupMove) {
    m.GTransfer? ==> m.members > 0 && m.bytes <= Share(g, m.isWrite, m.members)
  }

  function GEnd(g: Group, now: nat, moves: seq<GroupMove>): Group
    decreases |moves|
  {
    if moves == [] then g else GEnd(GMoved(g, now, moves[0]), GLater(now, moves[0]), moves[1..])
  }

  /** The limit with all ticks credited that have passed. */
  ghost function Owed(g: Group, now: nat, isWrite: bool): int {
    g.limits.Of(isWrite) + Credit(now % TWO_32, g.limits.lastUpdated) * g.rates.Of(isWrite).rate
  }

  lemma RefillSound(g: Group, now: nat, isWrite: bool)
    requires Sound(g)
    ensures Sound(GRefilled(g, now % TWO_32)) && Owed(GRefilled(g, now % TWO_32), now, isWrite) <= Owed(g, now, isWrite)
    ensures g.limits.Of(isWrite) <= GRefilled(g, now % TWO_32).limits.Of(isWrite)
  {
    hide Updated, Credit;
    var r := g.rates.Of(isWrite);
    UpdateIsExact(g.limits, g.rates, now % TWO_32);
    NothingOwed(r.rate);
  }

  lemma NothingOwed(r: nat)
    ensures 0 * r == 0
  {
  }

  lemma TransferSound(g: Group, w: bool, members: nat, bytes: nat)
    requires Sound(g) && members > 0 && bytes <= Share(g, w, members)
    ensures Sound(GCharged(g, w, bytes))
  {
    if !g.Suspended(w) {
      PartLess(g.limits.Of(w), members);
    }
  }

  /** An equal part of the limit, rounded down, or the minimal share where that is more. */
  ghost predicate FairShare(s: int, limit: int, members: nat, minShare: nat) {
    s >= minShare &&
    ((s == minShare && limit < members * (minShare + 1)) || members * s <= limit < members * (s + 1))
  }

  /** A group that is not suspended gives each member its fair share. */
  lemma {:induction false} ShareIsFair(g: Group, isWrite: bool, members: nat)
    requires Sound(g) && !g.Suspended(isWrite) && members > 0
    ensures FairShare(Share(g, isWrite, members), g.limits.Of(isWrite), members, g.minShare)
  {
    hide Sound;
    SoundHas(g, isWrite);
    var l: nat, m := g.limits.Of(isWrite), g.minShare;
    DivMod(l, members);
    Distribute(members, l / members, 1);
    if l / members < m {
      ProductMonotone(members, l / members + 1, m + 1);
    }
  }

  lemma SoundHas(g: Group, isWrite: bool)
    requires Sound(g) && !g.Suspended(isWrite)
    ensures g.limits.Of(isWrite) > 0 && g.minShare > 0
  {
  }

  /** There is just one fair share. */
  lemma {:induction false} OneFairShare(s: int, t: int, limit: int, members: nat, minShare: nat)
    requires members > 0 && FairShare(s, limit, members, minShare) && FairShare(t, limit, members, minShare)
    ensures s == t
  {
    if s < t {
      ProductMonotone(members, s + 1, t);
    } else if t < s {
      ProductMonotone(members, t + 1, s);
    }
  }

  lemma PartLess(a: nat, n: nat)
    requires n > 0
    ensures a / n <= a
  {
    var q := a / n;
    assert a == n * q + a % n;
    ProductGrows(n, q);
  }

  lemma GMoveSpends(g: Group, now: nat, m: GroupMove, isWrite: bool)
    requires Sound(g) && InShare(g, m)
    ensures var h := GMoved(g, now, m);
      && Sound(h) && h.rates == g.rates && h.minShare == g.minShare
      && GSpentBy(m, isWrite) + Owed(h, GLater(now, m), isWrite)
         <= Owed(g, now, isWrite) + (if m.GTick? then g.rates.Of(isWrite).rate else 0)
  {
    hide Credit, Updated, Sound, Share;
    match m
    case GTick =>
      CreditGrows(now, g.limits.lastUpdated) by { SoundTick(g); }
      var n, k := Credit(now % TWO_32, g.limits.lastUpdated), Credit((now + 1) % TWO_32, g.limits.lastUpdated);
      ProductMonotone(g.rates.Of(isWrite).rate, k, n + 1);
      OneMore(n, g.rates.Of(isWrite).rate);
    case GRefill =>
      RefillSound(g, now, isWrite);
    case GTransfer(w, members, bytes) =>
      TransferSound(g, w, members, bytes);
  }

  lemma SoundTick(g: Group)
    requires Sound(g)
    ensures g.limits.lastUpdated < TWO_32
  {
  }

  lemma OneMore(n: nat, r: nat)
    ensures r * (n + 1) == n * r + r && forall k: nat :: r * k == k * r
  {
  }

  /**
   Whatever its members do within their shares, a group stays sound, and in any span of T ticks its
   members together transfer less than the maximum, T ticks' worth, what was not credited yet when
   the span began, and one minimal share.
   */
  lemma {:induction false} GroupSpendingIsBounded(g: Group, now: nat, moves: seq<GroupMove>, isWrite: bool)
    requires Sound(g) && GLegal(g, now, moves)
    ensures var r, c := g.rates.Of(isWrite), Credit(now % TWO_32, g.limits.lastUpdated);
      && Sound(GEnd(g, now, moves))
      && GSpent(moves, isWrite) < r.maximum + (GTicks(moves) + c) * r.rate + g.minShare
  {
    var r, c := g.rates.Of(isWrite), Credit(now % TWO_32, g.limits.lastUpdated);
    GroupSpendingStep(g, now, moves, isWrite);
    Distribute(r.rate, GTicks(moves), c);
  }

  lemma {:induction false} GroupSpendingStep(g: Group, now: nat, moves: seq<GroupMove>, isWrite: bool)
    requires Sound(g) && GLegal(g, now, moves)
    ensures Sound(GEnd(g, now, moves))
    ensures GSpent(moves, isWrite) - g.minShare < Owed(g, now, isWrite) + GTicks(moves) * g.rates.Of(isWrite).rate
    decreases |moves|
  {
    hide GMoved, GLater, InShare, Credit, Sound;
    if moves == [] {
      SoundOwes(g, now, isWrite);
    } else {
      GMoveSpends(g, now, moves[0], isWrite);
      GroupSpendingStep(GMoved(g, now, moves[0]), GLater(now, moves[0]), moves[1..], isWrite);
      TickMore(GTicks(moves[1..]), g.rates.Of(isWrite).rate);
    }
  }

  lemma SoundOwes(g: Group, now: nat, isWrite: bool)
    requires Sound(g)
    ensures Owed(g, now, isWrite) > -(g.minShare as int)
  {
    hide Credit;
    ProductGrowsFrom0(Credit(now % TWO_32, g.limits.lastUpdated), g.rates.Of(isWrite).rate);
  }

  /** The one direction is charged, and suspended just while it has nothing left. */
  lemma GroupChargeTells(g: Group, isWrite: bool, bytes: int)
    ensures var h := GCharged(g, isWrite, bytes);
      && h.limits.read == g.limits.read - (if isWrite then 0 else bytes)
      && h.limits.write == g.limits.write - (if isWrite then bytes else 0)
      && (h.readSuspended <==> if isWrite then g.readSuspended else h.limits.read <= 0)
      && (h.writeSuspended <==> if isWrite then h.limits.write <= 0 else g.writeSuspended)
      && h == g.(limits := h.limits, readSuspended := h.readSuspended, writeSuspended := h.writeSuspended)
      && h.limits.lastUpdated == g.limits.lastUpdated
    ensures var h, d := GCharged(g, isWrite, bytes), GDecremented(g, isWrite, bytes);
      if g.Suspended(isWrite) && g.limits.Of(isWrite) > 0 && h.limits.Of(isWrite) > 0 then d == g.(limits := h.limits)
      else (!g.Suspended(isWrite) ==> g.limits.Of(isWrite) > 0) ==> d == h
  {
  }

  /** The refill credits the ticks passed up to the maximum, and resumes just what then has a minimal share. */
  lemma {:induction false} RefillTells(g: Group, tick: nat, isWrite: bool)
    requires g.rates.Ok() && Bounded(g.limits, g.rates) && tick < TWO_32
    ensures var h, r := GRefilled(g, tick), g.rates.Of(isWrite);
      && h.limits.Of(isWrite) == MinInt(r.maximum, g.limits.Of(isWrite) + Credit(tick, g.limits.lastUpdated) * r.rate)
      && (h.Suspended(isWrite) <==> g.Suspended(isWrite) && h.limits.Of(isWrite) < g.minShare)
      && h.rates == g.rates && h.minShare == g.minShare && h.configured == g.configured
  {
    hide Updated, Credit;
    UpdateIsExact(g.limits, g.rates, tick);
  }

  /** A suspended group gives its members nothing, and resumes after at most two refill ticks. */
  lemma ResumedInTwoTicks(g: Group, tick1: nat, tick2: nat, isWrite: bool, members: nat)
    requires Sound(g) && g.Suspended(isWrite) && members > 0 && tick1 < TWO_32 && tick2 < TWO_32
    requires Credit(tick1, g.limits.lastUpdated) >= 1 && Credit(tick2, GRefilled(g, tick1).limits.lastUpdated) >= 1
    ensures Share(g, isWrite, members) == 0
    ensures !GRefilled(GRefilled(g, tick1), tick2).Suspended(isWrite)
  {
    hide Updated, Credit;
    var h := GRefilled(g, tick1);
    UpdateIsExact(g.limits, g.rates, tick1);
    UpdateIsExact(h.limits, h.rates, tick2);
    AtLeastOne(Credit(tick1, g.limits.lastUpdated), g.rates.Of(isWrite).rate);
    AtLeastOne(Credit(tick2, h.limits.lastUpdated), g.rates.Of(isWrite).rate);
  }

  lemma AtLeastOne(n: nat, r: nat)
    requires n >= 1
    ensures n * r >= r
  {
    ProductGrows(n, r);
  }

  /**
   Without a minimal share the refill can resume a group that has nothing: it goes wrong exactly
   when the ticks that are due make up just for the debt of a suspended direction.
   */
  lemma RefillNeedsMinShare(g: Group, tick: nat, isWrite: bool)
    requires g.rates.Ok() && Bounded(g.limits, g.rates) && tick < TWO_32
    requires !g.Suspended(isWrite) ==> g.limits.Of(isWrite) > 0
    ensures var h := GRefilled(g, tick);
      (!h.Suspended(isWrite) && h.limits.Of(isWrite) <= 0)
      <==> (g.Suspended(isWrite) && g.minShare == 0
            && g.limits.Of(isWrite) + Credit(tick, g.limits.lastUpdated) * g.rates.Of(isWrite).rate == 0)
  {
    hide Updated, Credit;
    UpdateIsExact(g.limits, g.rates, tick);
  }

  /** For one: with rates of ten and no minimal share, a decrement by twenty and one tick later the refill. */
  lemma ResumedOnNothing()
    ensures var r := Rate(10, 10);
      var g := Group(Rates(r, r), Limits(10, 10, 0), 0, 0, false, false);
      var h := GRefilled(GDecremented(g, false, 20), 1);
      GDecremented(g, false, 20).readSuspended && !h.readSuspended && h.limits.read == 0
  {
    var r := Rate(10, 10);
    var g := GDecremented(Group(Rates(r, r), Limits(10, 10, 0), 0, 0, false, false), false, 20);
    RefillNeedsMinShare(g, 1, false);
  }

  /** Direct decrements and new configurations also leave no direction running on nothing. */
  lemma NeverRunsOnNothing(g: Group, isWrite: bool, w: bool, decr: int, rates: Rates)
    requires rates.Ok() && (!g.Suspended(isWrite) ==> g.limits.Of(isWrite) > 0)
    ensures var h := GDecremented(g, w, decr); !h.Suspended(isWrite) ==> h.limits.Of(isWrite) > 0
    ensures var h := GConfigured(g, rates);
      && h.rates == rates && h.limits.lastUpdated == g.limits.lastUpdated
      && h.limits.read == (if g.limits.read > rates.read.maximum then rates.read.maximum else g.limits.read)
      && h.limits.write == (if g.limits.write > rates.write.maximum then rates.write.maximum else g.limits.write)
      && h.readSuspended == g.readSuspended && h.writeSuspended == g.writeSuspended && h.configured == g.configured
      && (h.minShare == g.configured || (h.minShare < g.configured && h.minShare in {rates.read.rate, rates.write.rate}))
    ensures var h := GConfigured(g, rates);
      (!h.Suspended(isWrite) ==> h.limits.Of(isWrite) > 0) && h.minShare <= rates.read.rate && h.minShare <= rates.write.rate
  {
  }
}
