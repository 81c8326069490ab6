/**
 Token buckets: refilling without overflow, and how much a connection can spend over any time.
 */
module TokenBucket {
  import opened Bytes

  /** What is allowed per tick on average, and at most in any one tick, in one direction. */
  datatype Rate = Rate(rate: nat, maximum: nat) {
    /** ev_token_bucket_cfg_new refuses anything else. */
    ghost predicate Ok() {
      1 <= rate <= maximum <= SSIZE_MAX
    }
  }

  datatype Rates = Rates(read: Rate, write: Rate) {
    ghost predicate Ok() {
      read.Ok() && write.Ok()
    }

    function Of(isWrite: bool): Rate {
      if isWrite then write else read
    }
  }

  class TokenBucketCfg {
    const rates: Rates

    constructor (rates: Rates)
      ensures this.rates == rates
    {
      this.rates := rates;
    }
  }

  /** ev_token_bucket_cfg_new (the tick length is not modelled) */
  method CfgNew(readRate: nat, readBurst: nat, writeRate: nat, writeBurst: nat) returns (r: TokenBucketCfg?)
    ensures r != null <==> Rates(Rate(readRate, readBurst), Rate(writeRate, writeBurst)).Ok()
    ensures r != null ==> fresh(r) && r.rates == Rates(Rate(readRate, readBurst), Rate(writeRate, writeBurst))
  {
    if readRate > readBurst || writeRate > writeBurst || readRate < 1 || writeRate < 1 {
      return null;
    }
    if readRate > SSIZE_MAX || writeRate > SSIZE_MAX || readBurst > SSIZE_MAX || writeBurst > SSIZE_MAX {
      return null;
    }
    r := new TokenBucketCfg(Rates(Rate(readRate, readBurst), Rate(writeRate, writeBurst)));
  }

  /** A 64-bit unsigned value, and what it is as a signed one. */
  function Unsigned(x: int): nat {
    x % TWO_64
  }

  function Signed(x: int): int {
    if x % TWO_64 > SSIZE_MAX then x % TWO_64 - TWO_64 else x % TWO_64
  }

  /** One limit after `n` ticks, as the code computes it with 64-bit words. */
  function Refill(limit: int, r: Rate, n: nat): int
    requires n > 0
  {
    if Unsigned(r.maximum - limit) / n < r.rate then r.maximum
    else Signed(limit + Unsigned(n * r.rate))
  }

  function MinInt(a: int, b: int): int {
    if a <= b then a else b
  }

  /**
   The refill adds n ticks' worth and stops at the maximum, without overflow, exactly when the
   limit is not above the maximum already (or so many ticks have passed that it does not matter).
   */
  lemma RefillIsExact(limit: int, r: Rate, n: nat)
    requires r.Ok() && SSIZE_MIN <= limit <= SSIZE_MAX && 1 <= n <= INT_MAX
    ensures Refill(limit, r, n) == MinInt(r.maximum, limit + n * r.rate)
      <==> limit <= r.maximum || TWO_64 - (limit - r.maximum) <= n * r.rate
    ensures limit <= r.maximum ==> SSIZE_MIN <= Refill(limit, r, n) <= r.maximum
  {
    hide Unsigned, Signed, MinInt;
    var nr := n * r.rate;
    DivLess(Unsigned(r.maximum - limit), n, r.rate);
    ProductGrows(n, r.rate);
    RefillWraps(limit, r.maximum, nr);
    assert Refill(limit, r, n) == if Unsigned(r.maximum - limit) < nr then r.maximum else Signed(limit + Unsigned(nr));
  }

  /** For one: a limit of twenty above a maximum of ten, as refunds leave it, goes up to twenty-five in a tick. */
  lemma OverfullGrows()
    ensures Refill(20, Rate(5, 10), 1) == 25
  {
    UnsignedIs(10 - 20);
  }

  lemma RefillWraps(limit: int, maximum: nat, nr: nat)
    requires SSIZE_MIN <= limit <= SSIZE_MAX && maximum <= SSIZE_MAX && 0 < nr
    ensures var x := if Unsigned(maximum - limit) < nr then maximum else Signed(limit + Unsigned(nr));
      && (x == MinInt(maximum, limit + nr) <==> limit <= maximum || TWO_64 - (limit - maximum) <= nr)
      && (limit <= maximum ==> SSIZE_MIN <= x <= maximum)
  {
    UnsignedIs(maximum - limit);
    if Unsigned(maximum - limit) >= nr {
      UnsignedIs(nr);
      SignedIs(limit + nr);
    }
  }

  lemma UnsignedIs(x: int)
    requires 0 <= x + TWO_64 && x < TWO_64
    ensures Unsigned(x) == if x >= 0 then x else x + TWO_64
  {
  }

  lemma SignedIs(x: int)
    requires SSIZE_MIN <= x < SSIZE_MAX + TWO_64 + 1
    ensures Signed(x) == if x <= SSIZE_MAX then x else x - TWO_64
  {
  }

  lemma MinIs(maximum: int, limit: int, more: nat)
    requires limit <= maximum
    ensures limit <= MinInt(maximum, limit + more) <= maximum && (more == 0 ==> MinInt(maximum, limit + more) == limit)
  {
  }

  lemma ProductGrows(n: nat, r: nat)
    requires n > 0
    ensures n * r >= r
  {
  }

  /** Division is done without the product. */
  lemma DivLess(a: nat, n: nat, r: nat)
    requires n > 0
    ensures a / n < r <==> a < n * r
  {
    var q, m := a / n, a % n;
    assert a == n * q + m;
    if q < r {
      assert n * (q + 1) <= n * r by {
        ProductMonotone(n, q + 1, r);
      }
    } else {
      ProductMonotone(n, r, q);
    }
  }

  lemma ProductMonotone(n: nat, a: nat, b: nat)
    requires a <= b
    ensures n * a <= n * b
  {
  }

  /** How many ticks an update at `tick` credits: none if time seems to have rolled back. */
  function Credit(tick: nat, lastUpdated: nat): (n: nat)
    ensures n <= INT_MAX
  {
    var n := (tick - lastUpdated) % TWO_32;
    if n > INT_MAX then 0 else n
  }

  /** One more tick credits at most one more tick, also where the tick count wraps around. */
  lemma CreditGrows(now: nat, lastUpdated: nat)
    requires lastUpdated < TWO_32
    ensures Credit((now + 1) % TWO_32, lastUpdated) <= Credit(now % TWO_32, lastUpdated) + 1
    ensures Credit(now % TWO_32, now % TWO_32) == 0
  {
  }

  /**
   The credit is the time that has passed, wherever the tick count wraps around, as long as that is
   at most 2^31 - 1 ticks; for longer it reads as time rolled back.
   */
  lemma CreditIsElapsed(last: nat, elapsed: nat)
    requires elapsed < TWO_32
    ensures Credit((last + elapsed) % TWO_32, last % TWO_32) == if elapsed <= INT_MAX then elapsed else 0
  {
    var a, b := (last + elapsed) % TWO_32, last % TWO_32;
    var q := (last + elapsed) / TWO_32 - last / TWO_32;
    assert a - b == elapsed - q * TWO_32;
    assert -1 < q < 2;
  }

  datatype Limits = Limits(read: int, write: int, lastUpdated: nat) {
    function Of(isWrite: bool): int {
      if isWrite then write else read
    }

    function With(isWrite: bool, x: int): Limits {
      if isWrite then this.(write := x) else this.(read := x)
    }
  }

  function Updated(l: Limits, rates: Rates, tick: nat): Limits {
    var n := Credit(tick, l.lastUpdated);
    if n == 0 then l else Limits(Refill(l.read, rates.read, n), Refill(l.write, rates.write, n), tick)
  }

  function Initialized(l: Limits, rates: Rates, tick: nat, reinitialize: bool): Limits {
    if reinitialize then Limits(MinInt(l.read, rates.read.maximum), MinInt(l.write, rates.write.maximum), l.lastUpdated)
    else Limits(rates.read.rate, rates.write.rate, tick)
  }

  /** struct ev_token_bucket */
  class Bucket {
    var readLimit: int
    var writeLimit: int
    var lastUpdated: nat

    constructor ()
      ensures Value() == Limits(0, 0, 0)
    {
      readLimit, writeLimit, lastUpdated := 0, 0, 0;
    }

    function Value(): Limits
      reads this
    {
      Limits(readLimit, writeLimit, lastUpdated)
    }

    /** ev_token_bucket_init_ */
    method Init(rates: Rates, tick: nat, reinitialize: bool)
      modifies this
      ensures Value() == Initialized(old(Value()), rates, tick, reinitialize)
      ensures !reinitialize ==> readLimit == rates.read.rate && writeLimit == rates.write.rate && lastUpdated == tick
      ensures reinitialize ==>
        && lastUpdated == old(lastUpdated)
        && readLimit == (if old(readLimit) > rates.read.maximum then rates.read.maximum else old(readLimit))
        && writeLimit == (if old(writeLimit) > rates.write.maximum then rates.write.maximum else old(writeLimit))
    {
      if reinitialize {
        if readLimit > rates.read.maximum {
          readLimit := rates.read.maximum;
        }
        if writeLimit > rates.write.maximum {
          writeLimit := rates.write.maximum;
        }
      } else {
        readLimit := rates.read.rate;
        writeLimit := rates.write.rate;
        lastUpdated := tick;
      }
    }

    /** ev_token_bucket_update_ */
    method Update(rates: Rates, tick: nat) returns (result: int)
      modifies this
      ensures Value() == Updated(old(Value()), rates, tick)
      ensures result == if Credit(tick, old(lastUpdated)) > 0 then 1 else 0
    {
      var nTicks := (tick - lastUpdated) % TWO_32;
      if nTicks == 0 || nTicks > INT_MAX {
        return 0;
      }
      if Unsigned(rates.read.maximum - readLimit) / nTicks < rates.read.rate {
        readLimit := rates.read.maximum;
      } else {
        readLimit := Signed(readLimit + Unsigned(nTicks * rates.read.rate));
      }
      if Unsigned(rates.write.maximum - writeLimit) / nTicks < rates.write.rate {
        writeLimit := rates.write.maximum;
      } else {
        writeLimit := Signed(writeLimit + Unsigned(nTicks * rates.write.rate));
      }
      lastUpdated := tick;
      return 1;
    }

    method Charge(isWrite: bool, bytes: int)
      modifies this
      ensures Value() == old(Value()).With(isWrite, old(Value()).Of(isWrite) - bytes)
      ensures readLimit == old(readLimit) - (if isWrite then 0 else bytes) && lastUpdated == old(lastUpdated)
      ensures writeLimit == old(writeLimit) - (if isWrite then bytes else 0)
    {
      if isWrite {
        writeLimit := writeLimit - bytes;
      } else {
        readLimit := readLimit - bytes;
      }
    }
  }

  /** Both limits are where they can be refilled exactly. */
  ghost predicate Bounded(l: Limits, rates: Rates) {
    && SSIZE_MIN <= l.read <= rates.read.maximum && SSIZE_MIN <= l.write <= rates.write.maximum
    && l.lastUpdated < TWO_32
  }

  /** An update credits the ticks passed to both directions, each up to its maximum. */
  lemma UpdateIsExact(l: Limits, rates: Rates, tick: nat)
    requires rates.Ok() && Bounded(l, rates) && tick < TWO_32
    ensures var u, n := Updated(l, rates, tick), Credit(tick, l.lastUpdated);
      && u.read == MinInt(rates.read.maximum, l.read + n * rates.read.rate)
      && u.write == MinInt(rates.write.maximum, l.write + n * rates.write.rate)
      && l.read <= u.read && l.write <= u.write
      && Bounded(u, rates) && Credit(tick, u.lastUpdated) == 0
      && u.lastUpdated == if n == 0 then l.lastUpdated else tick
  {
    hide Refill, MinInt;
    var n := Credit(tick, l.lastUpdated);
    MinIs(rates.read.maximum, l.read, n * rates.read.rate);
    MinIs(rates.write.maximum, l.write, n * rates.write.rate);
    if n > 0 {
      RefillIsExact(l.read, rates.read, n);
      RefillIsExact(l.write, rates.write, n);
    }
  }
}
