/**
 Rate limits of one connection: its bucket, the bandwidth suspensions of its two directions, and
 the timer that refills the bucket.
 */
module RateLimit {
  import opened Bytes
  import opened Suspension
  import opened TokenBucket

  /** The rate-limiting state of a connection. */
  datatype Conn = Conn(cfg: TokenBucketCfg?, limits: Limits, read: set<Reason>, write: set<Reason>, timer: bool) {
    function Flags(isWrite: bool): set<Reason> {
      if isWrite then write else read
    }

    function Suspended(isWrite: bool, what: Reason): Conn {
      if isWrite then this.(write := write + {what}) else this.(read := read + {what})
    }

    function Unsuspended(isWrite: bool, what: Reason): Conn {
      if isWrite then this.(write := write - {what}) else this.(read := read - {what})
    }

    /** The bucket of the direction is exhausted. */
    function Exhausted(isWrite: bool): bool {
      limits.Of(isWrite) <= 0
    }
  }

  // ---- What each operation does to a connection ----

  function Charged(c: Conn, isWrite: bool, bytes: int): Conn {
    if c.cfg == null then c else
      var d := c.(limits := c.limits.With(isWrite, c.limits.Of(isWrite) - bytes));
      if d.Exhausted(isWrite) then d.Suspended(isWrite, SuspendBw).(timer := true)
      else if SuspendBw in d.Flags(isWrite) then
        d.Unsuspended(isWrite, SuspendBw).(timer := d.timer && SuspendBw in d.Flags(!isWrite))
      else d
  }

  function Decremented(c: Conn, isWrite: bool, decr: int): Conn {
    var d := c.(limits := c.limits.With(isWrite, c.limits.Of(isWrite) - decr));
    if !c.Exhausted(isWrite) && d.Exhausted(isWrite) then d.Suspended(isWrite, SuspendBw).(timer := true)
    else if c.Exhausted(isWrite) && !d.Exhausted(isWrite) then
      d.Unsuspended(isWrite, SuspendBw).(timer := d.timer && SuspendBw in d.Flags(!isWrite))
    else d
  }

  function Refreshed(c: Conn, tick: nat): Conn {
    if c.cfg == null then c else c.(limits := Updated(c.limits, c.cfg.rates, tick))
  }

  /** A direction goes on if its bucket has something again. */
  function Woken(c: Conn, isWrite: bool): Conn {
    if SuspendBw in c.Flags(isWrite) && !c.Exhausted(isWrite) then c.Unsuspended(isWrite, SuspendBw) else c
  }

  /** The refill timer fires (so it is not pending any more). */
  function Refilled(c: Conn, tick: nat): Conn {
    if c.cfg == null then c.(timer := false) else
      var d := Woken(Woken(Refreshed(c, tick), false), true);
      d.(timer := SuspendBw in d.read || SuspendBw in d.write)
  }

  function Configured(c: Conn, cfg: TokenBucketCfg?, tick: nat): Conn {
    if cfg == null then c.(cfg := null).Unsuspended(false, SuspendBw).Unsuspended(true, SuspendBw).(timer := false)
    else if c.cfg == cfg then c
    else
      var d := c.(cfg := cfg, limits := Initialized(c.limits, cfg.rates, tick, c.cfg != null));
      var e := if d.Exhausted(false) then d.Suspended(false, SuspendBw) else d.Unsuspended(false, SuspendBw);
      var f := if d.Exhausted(true) then e.Suspended(true, SuspendBw) else e.Unsuspended(true, SuspendBw);
      f.(timer := d.Exhausted(false) || d.Exhausted(true))
  }

  // ---- No lost wakeup ----

  /**
   An exhausted direction is suspended, and as long as a direction is suspended for lack of
   bandwidth the refill timer is pending. Without a configuration there is neither.
   */
  ghost predicate NoLostWakeup(c: Conn) {
    if c.cfg == null then SuspendBw !in c.read && SuspendBw !in c.write && !c.timer else
      && (c.limits.read <= 0 ==> SuspendBw in c.read)
      && (c.limits.write <= 0 ==> SuspendBw in c.write)
      && (SuspendBw in c.read || SuspendBw in c.write ==> c.timer)
      && c.cfg.rates.Ok() && Bounded(c.limits, c.cfg.rates)
  }

  datatype Event =
    | Charge(isWrite: bool, bytes: int)
    | Decrement(isWrite: bool, bytes: int)
    | Look(tick: nat)                                  // a limit is asked for
    | Fire(tick: nat)                                  // the refill timer
    | Configure(cfg: TokenBucketCfg?, tick: nat)
    | Pause(isWrite: bool, what: Reason, on: bool)     // suspensions for other reasons

  function Happened(c: Conn, e: Event): Conn {
    match e
    case Charge(w, bytes) => Charged(c, w, bytes)
    case Decrement(w, bytes) => Decremented(c, w, bytes)
    case Look(tick) => Refreshed(c, tick)
    case Fire(tick) => Refilled(c, tick)
    case Configure(cfg, tick) => Configured(c, cfg, tick)
    case Pause(w, what, on) => if on then c.Suspended(w, what) else c.Unsuspended(w, what)
  }

  /** Charges may be negative, but must not refund beyond the maximum. */
  ghost predicate Possible(c: Conn, e: Event) {
    match e
    case Charge(w, bytes) =>
      c.cfg != null ==> SSIZE_MIN <= c.limits.Of(w) - bytes <= c.cfg.rates.Of(w).maximum
    case Decrement(w, bytes) =>
      c.cfg != null && SSIZE_MIN <= c.limits.Of(w) - bytes <= c.cfg.rates.Of(w).maximum
    case Look(tick) => tick < TWO_32
    case Fire(tick) => c.timer && tick < TWO_32
    case Configure(cfg, tick) => tick < TWO_32 && (cfg != null ==> cfg.rates.Ok())
    case Pause(_, what, _) => what != SuspendBw
  }

  lemma StepKeepsWakeup(c: Conn, e: Event)
    requires NoLostWakeup(c) && Possible(c, e)
    ensures NoLostWakeup(Happened(c, e))
  {
    hide Updated;
    if c.cfg != null && (e.Look? || e.Fire?) {
      UpdateIsExact(c.limits, c.cfg.rates, e.tick);
    }
  }

  ghost predicate AllPossible(c: Conn, events: seq<Event>)
    decreases |events|
  {
    events == [] || (Possible(c, events[0]) && AllPossible(Happened(c, events[0]), events[1..]))
  }

  function AfterAll(c: Conn, events: seq<Event>): Conn
    decreases |events|
  {
    if events == [] then c else AfterAll(Happened(c, events[0]), events[1..])
  }

  /** No wakeup is lost, whatever happens in whatever order. */
  lemma {:induction false} WakeupNeverLost(c: Conn, events: seq<Event>)
    requires NoLostWakeup(c) && AllPossible(c, events)
    ensures NoLostWakeup(AfterAll(c, events))
    decreases |events|
  {
    hide NoLostWakeup, Possible, Happened;
    if events != [] {
      StepKeepsWakeup(c, events[0]);
      WakeupNeverLost(Happened(c, events[0]), events[1..]);
    }
  }

  /**
   A charge takes the bytes from the one direction, and suspends it just while it has nothing left;
   the timer stops with the last suspension, and starts with the first.
   */
  lemma ChargeTells(c: Conn, isWrite: bool, bytes: int)
    requires NoLostWakeup(c) && c.cfg != null
    ensures var d := Charged(c, isWrite, bytes);
      && d.cfg == c.cfg && d.limits.lastUpdated == c.limits.lastUpdated
      && d.limits.read == c.limits.read - (if isWrite then 0 else bytes)
      && d.limits.write == c.limits.write - (if isWrite then bytes else 0)
      && d.read == (if isWrite then c.read else if d.limits.read <= 0 then c.read + {SuspendBw} else c.read - {SuspendBw})
      && d.write == (if !isWrite then c.write else if d.limits.write <= 0 then c.write + {SuspendBw} else c.write - {SuspendBw})
      && (d.timer <==>
        SuspendBw in d.read || SuspendBw in d.write || (c.timer && SuspendBw !in c.Flags(isWrite)))
    ensures Charged(c.(cfg := null), isWrite, bytes) == c.(cfg := null)
  {
    assert SuspendBw !in c.Flags(isWrite) ==> c.Flags(isWrite) - {SuspendBw} == c.Flags(isWrite);
  }

  /**
   A direct decrement does the same, but for one thing: a direction that is still suspended with
   something left in its bucket stays so, to wait for its timer.
   */
  lemma DecrementTells(c: Conn, isWrite: bool, decr: int)
    requires NoLostWakeup(c) && c.cfg != null
    ensures var d, e := Decremented(c, isWrite, decr), Charged(c, isWrite, decr);
      if SuspendBw in c.Flags(isWrite) && !c.Exhausted(isWrite) && !d.Exhausted(isWrite)
      then d == c.(limits := e.limits)
      else d == e
  {
    assert SuspendBw in c.Flags(isWrite) ==> c.Flags(isWrite) + {SuspendBw} == c.Flags(isWrite);
  }

  /**
   A new configuration starts with one tick's worth in each direction, or with what the old one left
   if that is not over the new maximum, and suspends just the directions that have nothing.
   */
  lemma ConfigureTells(c: Conn, cfg: TokenBucketCfg?, tick: nat)
    ensures var d := Configured(c, cfg, tick);
      && d.cfg == cfg
      && d.read - {SuspendBw} == c.read - {SuspendBw} && d.write - {SuspendBw} == c.write - {SuspendBw}
      && (cfg == null ==> d.limits == c.limits && SuspendBw !in d.read && SuspendBw !in d.write && !d.timer)
      && (cfg != null && cfg == c.cfg ==> d == c)
      && (cfg != null && cfg != c.cfg ==>
        && (SuspendBw in d.read <==> d.limits.read <= 0) && (SuspendBw in d.write <==> d.limits.write <= 0)
        && (d.timer <==> d.limits.read <= 0 || d.limits.write <= 0)
        && d.limits == if c.cfg == null then Limits(cfg.rates.read.rate, cfg.rates.write.rate, tick)
          else Limits(if c.limits.read > cfg.rates.read.maximum then cfg.rates.read.maximum else c.limits.read,
                      if c.limits.write > cfg.rates.write.maximum then cfg.rates.write.maximum else c.limits.write,
                      c.limits.lastUpdated))
  {
  }

  /** A firing of the timer wakes up just the directions that have something again, and starts it again for the others. */
  lemma FiringWakes(c: Conn, tick: nat, isWrite: bool)
    requires NoLostWakeup(c) && c.cfg != null && tick < TWO_32
    ensures var d := Refilled(c, tick); var r := c.cfg.rates.Of(isWrite);
      && d.limits.Of(isWrite) == MinInt(r.maximum, c.limits.Of(isWrite) + Credit(tick, c.limits.lastUpdated) * r.rate)
      && (SuspendBw in d.Flags(isWrite) <==> SuspendBw in c.Flags(isWrite) && d.limits.Of(isWrite) <= 0)
      && d.Flags(isWrite) - {SuspendBw} == c.Flags(isWrite) - {SuspendBw}
      && (d.timer <==> SuspendBw in d.read || SuspendBw in d.write)
  {
    hide Updated;
    UpdateIsExact(c.limits, c.cfg.rates, tick);
  }

  // ---- Bandwidth ----

  /** Time passes, or somebody updates the bucket, or bytes are transferred within the limit and charged. */
  datatype Move = Tick | Refresh | Transfer(isWrite: bool, bytes: nat)

  /** What a connection without a group may transfer: bufferevent_get_rlim_max_ once updated. */
  function Cap(c: Conn, isWrite: bool): nat {
    if c.limits.Of(isWrite) < 0 then 0 else c.limits.Of(isWrite)
  }

  function Moved(c: Conn, now: nat, m: Move): Conn {
    match m
    case Tick => c
    case Refresh => Refreshed(c, now % TWO_32)
    case Transfer(w, bytes) => Charged(Refreshed(c, now % TWO_32), w, bytes)
  }

  function Later(now: nat, m: Move): nat {
    if m.Tick? then now + 1 else now
  }

  ghost predicate Legal(c: Conn, now: nat, moves: seq<Move>)
    decreases |moves|
  {
    moves == [] ||
    ((moves[0].Transfer? ==> moves[0].bytes <= Cap(Refreshed(c, now % TWO_32), moves[0].isWrite))
     && Legal(Moved(c, now, moves[0]), Later(now, moves[0]), moves[1..]))
  }

  function End(c: Conn, now: nat, moves: seq<Move>): Conn
    decreases |moves|
  {
    if moves == [] then c else End(Moved(c, now, moves[0]), Later(now, moves[0]), moves[1..])
  }

  function SpentBy(m: Move, isWrite: bool): nat {
    if m.Transfer? && m.isWrite == isWrite then m.bytes else 0
  }

  function Spent(moves: seq<Move>, isWrite: bool): nat {
    if moves == [] then 0 else SpentBy(moves[0], isWrite) + Spent(moves[1..], isWrite)
  }

  function Ticks(moves: seq<Move>): nat {
    if moves == [] then 0 else (if moves[0].Tick? then 1 else 0) + Ticks(moves[1..])
  }

  /** What a direction could have by now if it were updated. */
  ghost function Worth(c: Conn, now: nat, isWrite: bool): int
    requires c.cfg != null
  {
    var r := c.cfg.rates.Of(isWrite);
    MinInt(r.maximum, c.limits.Of(isWrite) + Credit(now % TWO_32, c.limits.lastUpdated) * r.rate)
  }

  ghost predicate Solvent(c: Conn) {
    c.cfg != null && c.cfg.rates.Ok() && Bounded(c.limits, c.cfg.rates) && c.limits.read >= 0 && c.limits.write >= 0
  }

  lemma MoveSpends(c: Conn, now: nat, m: Move, isWrite: bool)
    requires Solvent(c) && (m.Transfer? ==> m.bytes <= Cap(Refreshed(c, now % TWO_32), m.isWrite))
    ensures var d, then_ := Moved(c, now, m), Later(now, m);
      && Solvent(d) && d.cfg == c.cfg
      && SpentBy(m, isWrite) + Worth(d, then_, isWrite)
         <= Worth(c, now, isWrite) + (if m.Tick? then c.cfg.rates.Of(isWrite).rate else 0)
  {
    hide Updated, Credit, MinInt, Worth, Charged, Refreshed;
    if m.Tick? {
      TickAdds(c, now, isWrite);
    } else {
      RefreshKeepsWorth(c, now, isWrite);
      if m.Transfer? {
        ChargeTakes(Refreshed(c, now % TWO_32), now, m.isWrite, m.bytes, isWrite);
      }
    }
  }

  lemma TickAdds(c: Conn, now: nat, isWrite: bool)
    requires Solvent(c)
    ensures Worth(c, now + 1, isWrite) <= Worth(c, now, isWrite) + c.cfg.rates.Of(isWrite).rate
  {
    hide Credit, MinInt;
    var l := c.limits;
    CreditGrows(now, l.lastUpdated);
    WorthGrows(c.cfg.rates.Of(isWrite), l.Of(isWrite), Credit(now % TWO_32, l.lastUpdated), Credit((now + 1) % TWO_32, l.lastUpdated));
  }

  lemma RefreshKeepsWorth(c: Conn, now: nat, isWrite: bool)
    requires Solvent(c)
    ensures var d := Refreshed(c, now % TWO_32);
      && Solvent(d) && d.cfg == c.cfg && Credit(now % TWO_32, d.limits.lastUpdated) == 0
      && d.limits.Of(isWrite) == Worth(d, now, isWrite) == Worth(c, now, isWrite)
  {
    hide Updated, Credit, MinInt;
    UpdateIsExact(c.limits, c.cfg.rates, now % TWO_32);
    WorthNow(c.cfg.rates.Of(isWrite), Refreshed(c, now % TWO_32).limits.Of(isWrite));
  }

  lemma ChargeTakes(c: Conn, now: nat, w: bool, bytes: nat, isWrite: bool)
    requires Solvent(c) && bytes <= Cap(c, w) && Credit(now % TWO_32, c.limits.lastUpdated) == 0
    ensures var d := Charged(c, w, bytes);
      && Solvent(d) && d.cfg == c.cfg
      && Worth(d, now, isWrite) == c.limits.Of(isWrite) - if w == isWrite then bytes else 0
  {
    hide Credit, MinInt;
    WorthNow(c.cfg.rates.Of(isWrite), c.limits.Of(isWrite) - if w == isWrite then bytes else 0);
  }

  lemma WorthGrows(r: Rate, limit: int, n: nat, m: nat)
    requires m <= n + 1
    ensures MinInt(r.maximum, limit + m * r.rate) <= MinInt(r.maximum, limit + n * r.rate) + r.rate
  {
    assert m * r.rate <= (n + 1) * r.rate == n * r.rate + r.rate by {
      ProductMonotone(r.rate, m, n + 1);
    }
  }

  lemma WorthNow(r: Rate, limit: int)
    requires limit <= r.maximum
    ensures MinInt(r.maximum, limit + 0 * r.rate) == limit
  {
  }

  /**
   Whatever a connection does, in any span of T ticks (also where the tick count wraps around) it
   transfers at most the maximum and T ticks' worth, and its limits never become negative.
   */
  lemma {:induction false} SpendingIsBounded(c: Conn, now: nat, moves: seq<Move>, isWrite: bool)
    requires Solvent(c) && Legal(c, now, moves)
    ensures var r, d := c.cfg.rates.Of(isWrite), End(c, now, moves);
      && Solvent(d)
      && Spent(moves, isWrite) <= r.maximum + Ticks(moves) * r.rate
  {
    SpendingStep(c, now, moves, isWrite);
  }

  lemma {:induction false} SpendingStep(c: Conn, now: nat, moves: seq<Move>, isWrite: bool)
    requires Solvent(c) && Legal(c, now, moves)
    ensures var r, d := c.cfg.rates.Of(isWrite), End(c, now, moves);
      && Solvent(d)
      && Spent(moves, isWrite) <= Worth(c, now, isWrite) + Ticks(moves) * r.rate
    ensures Worth(c, now, isWrite) <= c.cfg.rates.Of(isWrite).maximum
    decreases |moves|
  {
    hide Moved, Later, Cap, Refreshed;
    if moves == [] {
      ProductGrowsFrom0(Credit(now % TWO_32, c.limits.lastUpdated), c.cfg.rates.Of(isWrite).rate);
    } else {
      MoveSpends(c, now, moves[0], isWrite);
      SpendingStep(Moved(c, now, moves[0]), Later(now, moves[0]), moves[1..], isWrite);
      TickMore(Ticks(moves[1..]), c.cfg.rates.Of(isWrite).rate);
    }
  }

  lemma ProductGrowsFrom0(n: nat, r: nat)
    ensures n * r >= 0
  {
  }

  lemma TickMore(n: nat, r: nat)
    ensures (1 + n) * r == r + n * r
  {
  }
}
