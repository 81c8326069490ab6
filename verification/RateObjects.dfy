/**
 The rate limiter as it works on connections and groups: bufferevent_ratelim.c.
 */
module RateObjects {
  import opened Bytes
  import opened Suspension
  import opened TokenBucket
  import opened RateLimit
  import opened RateGroup

  class Bufferevent {
    var maxSingleRead: nat
    var maxSingleWrite: nat
    var cfg: TokenBucketCfg?
    const bucket: Bucket
    var group: RateLimitGroup?
    var readSuspended: set<Reason>
    var writeSuspended: set<Reason>
    var refillPending: bool

    constructor ()
      ensures fresh(bucket) && cfg == null && group == null && NoLostWakeup(State())
      ensures readSuspended == writeSuspended == {} && maxSingleRead == maxSingleWrite == 16384
    {
      maxSingleRead, maxSingleWrite := 16384, 16384;
      cfg := null;
      bucket := new Bucket();
      group := null;
      readSuspended, writeSuspended := {}, {};
      refillPending := false;
    }

    function State(): Conn
      reads this, bucket
    {
      Conn(cfg, bucket.Value(), readSuspended, writeSuspended, refillPending)
    }

    /** bufferevent_suspend_read_, bufferevent_suspend_write_, as far as the flags go */
    method Suspend(isWrite: bool, what: Reason)
      modifies this`readSuspended, this`writeSuspended
      ensures State() == old(State()).Suspended(isWrite, what)
    {
      if isWrite {
        writeSuspended := writeSuspended + {what};
      } else {
        readSuspended := readSuspended + {what};
      }
    }

    /** bufferevent_unsuspend_read_, bufferevent_unsuspend_write_, as far as the flags go */
    method Unsuspend(isWrite: bool, what: Reason)
      modifies this`readSuspended, this`writeSuspended
      ensures State() == old(State()).Unsuspended(isWrite, what)
    {
      if isWrite {
        writeSuspended := writeSuspended - {what};
      } else {
        readSuspended := readSuspended - {what};
      }
    }

    function Flags(isWrite: bool): set<Reason>
      reads this
    {
      if isWrite then writeSuspended else readSuspended
    }

    /** The connection's own part of bufferevent_decrement_read_buckets_ and ..._write_buckets_. */
    method ChargeOwn(isWrite: bool, bytes: int)
      modifies this, bucket
      ensures State() == Charged(old(State()), isWrite, bytes) && unchanged(`group, `cfg, `maxSingleRead, `maxSingleWrite)
    {
      if cfg != null {
        bucket.Charge(isWrite, bytes);
        if bucket.Value().Of(isWrite) <= 0 {
          Suspend(isWrite, SuspendBw);
          refillPending := true;
        } else if SuspendBw in Flags(isWrite) {
          if SuspendBw !in Flags(!isWrite) {
            refillPending := false;
          }
          Unsuspend(isWrite, SuspendBw);
        }
      }
    }

    /** bufferevent_decrement_read_limit, bufferevent_decrement_write_limit */
    method DecrementLimit(isWrite: bool, decr: int)
      requires cfg != null
      modifies this, bucket
      ensures State() == Decremented(old(State()), isWrite, decr) && unchanged(`group, `cfg, `maxSingleRead, `maxSingleWrite)
    {
      var oldLimit := bucket.Value().Of(isWrite);
      bucket.Charge(isWrite, decr);
      var newLimit := oldLimit - decr;
      if oldLimit > 0 && newLimit <= 0 {
        Suspend(isWrite, SuspendBw);
        refillPending := true;
      } else if oldLimit <= 0 && newLimit > 0 {
        if SuspendBw !in Flags(!isWrite) {
          refillPending := false;
        }
        Unsuspend(isWrite, SuspendBw);
      }
    }

    /** bufferevent_update_buckets */
    method UpdateBuckets(tick: nat)
      requires cfg != null
      modifies bucket
      ensures State() == Refreshed(old(State()), tick)
    {
      if tick != bucket.lastUpdated {
        var _ := bucket.Update(cfg.rates, tick);
      }
    }

    /** The pending refill event fires and runs bev_refill_callback_. */
    method FireRefill(tick: nat)
      requires refillPending
      modifies this, bucket
      ensures State() == Refilled(old(State()), tick) && unchanged(`group, `cfg, `maxSingleRead, `maxSingleWrite)
    {
      var again := false;
      refillPending := false;
      if cfg == null {
        return;
      }
      var _ := bucket.Update(cfg.rates, tick);
      if SuspendBw in readSuspended {
        if bucket.readLimit > 0 {
          Unsuspend(false, SuspendBw);
        } else {
          again := true;
        }
      }
      if SuspendBw in writeSuspended {
        if bucket.writeLimit > 0 {
          Unsuspend(true, SuspendBw);
        } else {
          again := true;
        }
      }
      if again {
        refillPending := true;
      }
    }

    /** bufferevent_set_rate_limit */
    method SetRateLimit(newCfg: TokenBucketCfg?, tick: nat)
      requires NoLostWakeup(State())
      modifies this, bucket
      ensures State() == Configured(old(State()), newCfg, tick) && unchanged(`group, `maxSingleRead, `maxSingleWrite)
    {
      if newCfg == null {
        cfg := null;
        Unsuspend(false, SuspendBw);
        Unsuspend(true, SuspendBw);
        refillPending := false;
        return;
      }
      if cfg == newCfg {
        return;
      }
      var reinit := cfg != null;
      var suspended := false;
      cfg := newCfg;
      bucket.Init(cfg.rates, tick, reinit);
      if reinit {
        refillPending := false;
      }
      if bucket.readLimit > 0 {
        Unsuspend(false, SuspendBw);
      } else {
        Suspend(false, SuspendBw);
        suspended := true;
      }
      if bucket.writeLimit > 0 {
        Unsuspend(true, SuspendBw);
      } else {
        Suspend(true, SuspendBw);
        suspended := true;
      }
      if suspended {
        refillPending := true;
      }
    }

    /** bufferevent_get_rlim_max_ */
    method GetRlimMax(isWrite: bool, tick: nat) returns (max: nat)
      requires group != null ==> group.Consistent() && this in group.members
      modifies bucket, this`readSuspended, this`writeSuspended
      ensures State() == Refreshed(old(State()), tick)
      ensures max == Allowed(State(), if group == null then None else Some(group.State()),
                             if group == null then 1 else |group.members|, isWrite,
                             if isWrite then maxSingleWrite else maxSingleRead)
      ensures group != null ==> group.Consistent() && group.State() == old(group.State())
    {
      var maxSoFar: int := if isWrite then maxSingleWrite else maxSingleRead;
      if cfg != null {
        UpdateBuckets(tick);
        maxSoFar := bucket.Value().Of(isWrite);
      }
      if group != null {
        var share := 0;
        if group.Suspended(isWrite) {
          Suspend(isWrite, SuspendBwGroup);
        } else {
          share := Quotient(group.bucket.Value().Of(isWrite), |group.members|);
          if share < group.minShare {
            share := group.minShare;
          }
        }
        if maxSoFar > share {
          maxSoFar := share;
        }
      }
      if maxSoFar < 0 {
        maxSoFar := 0;
      }
      return maxSoFar;
    }
  }

  /** What a connection may transfer, after its own limit, its share of its group's, and otherwise `single`. */
  function Allowed(c: Conn, g: Option<Group>, members: nat, isWrite: bool, single: nat): nat
    requires members > 0
  {
    var own := if c.cfg != null then c.limits.Of(isWrite) else single;
    var max := if g.Some? then MinInt(own, Share(g.value, isWrite, members)) else own;
    if max < 0 then 0 else max
  }

  /**
   What is allowed is never more than the connection's own limit and, of a sound group, never more
   than its share: a transfer of so much is one that the bandwidth of the connection and of the
   group are bounded for.
   */
  lemma AllowedIsLegal(c: Conn, g: Option<Group>, members: nat, now: nat, isWrite: bool, single: nat, bytes: nat)
    requires members > 0 && bytes <= Allowed(Refreshed(c, now % TWO_32), g, members, isWrite, single)
    ensures c.cfg != null ==>
      bytes <= Cap(Refreshed(c, now % TWO_32), isWrite) && Legal(c, now, [Transfer(isWrite, bytes)])
    ensures g.Some? && Sound(g.value) ==>
      && bytes <= Share(g.value, isWrite, members) && InShare(g.value, GTransfer(isWrite, members, bytes))
      && (g.value.Suspended(isWrite) ==> bytes == 0)
    ensures c.cfg == null && g.None? ==> bytes <= single
  {
    hide Updated, Quotient;
    assert [Transfer(isWrite, bytes)][1..] == [];
  }

  /**
   What is allowed: the least of the connection's own limit and its fair share, where it has them;
   so something, as long as its own limit and the group have something.
   */
  lemma {:induction false} AllowedIsLeast(c: Conn, g: Group, members: nat, isWrite: bool, single: nat)
    requires members > 0 && Sound(g)
    ensures var own := if c.cfg != null then c.limits.Of(isWrite) else single;
      var max := Allowed(c, Some(g), members, isWrite, single);
      && Allowed(c, None, members, isWrite, single) == (if own < 0 then 0 else own)
      && (g.Suspended(isWrite) ==> max == 0)
      && (!g.Suspended(isWrite) ==> (max > 0 <==> own > 0))
      && forall s :: !g.Suspended(isWrite) && FairShare(s, g.limits.Of(isWrite), members, g.minShare) ==>
        (max == if own < 0 then 0 else if own < s then own else s)
    ensures !g.Suspended(isWrite) ==> exists s :: s > 0 && FairShare(s, g.limits.Of(isWrite), members, g.minShare)
  {
    hide FairShare, Sound, Share;
    if !g.Suspended(isWrite) {
      var t := Share(g, isWrite, members);
      ShareIsFair(g, isWrite, members);
      FairIsSome(t, g.limits.Of(isWrite), members, g.minShare) by { SoundHas(g, isWrite); }
      forall s | FairShare(s, g.limits.Of(isWrite), members, g.minShare)
        ensures s == t
      {
        OneFairShare(s, t, g.limits.Of(isWrite), members, g.minShare);
      }
    } else {
      SuspendedShare(g, isWrite, members);
    }
  }

  lemma SuspendedShare(g: Group, isWrite: bool, members: nat)
    requires g.Suspended(isWrite) && members > 0
    ensures Share(g, isWrite, members) == 0
  {
  }

  lemma FairIsSome(s: int, limit: int, members: nat, minShare: nat)
    requires FairShare(s, limit, members, minShare) && minShare > 0
    ensures s > 0
  {
  }

  class RateLimitGroup {
    var rates: Rates
    const bucket: Bucket
    var members: seq<Bufferevent>
    var minShare: nat
    var configuredMinShare: nat
    var readSuspended: bool
    var writeSuspended: bool

    function State(): Group
      reads this, bucket
    {
      Group(rates, bucket.Value(), minShare, configuredMinShare, readSuspended, writeSuspended)
    }

    function Suspended(isWrite: bool): bool
      reads this
    {
      if isWrite then writeSuspended else readSuspended
    }

    /** Members know their group, and are suspended for it just as it is. */
    ghost predicate Consistent()
      reads this, members
    {
      && (forall i, j :: 0 <= i < j < |members| ==> members[i] != members[j])
      && (forall b :: b in members ==> b.group == this && b.bucket != bucket)
      && (forall b :: b in members ==> (SuspendBwGroup in b.readSuspended <==> readSuspended))
      && (forall b :: b in members ==> (SuspendBwGroup in b.writeSuspended <==> writeSuspended))
    }

    /** bufferevent_rate_limit_group_new */
    constructor (rates: Rates, tick: nat)
      requires rates.Ok()
      ensures fresh(bucket) && Consistent() && members == []
      ensures State() == Group(rates, Limits(rates.read.rate, rates.write.rate, tick), ShareFor(rates, 64), 64, false, false)
    {
      this.rates := rates;
      bucket := new Bucket();
      members := [];
      minShare := 0;
      configuredMinShare := 0;
      readSuspended, writeSuspended := false, false;
      new;
      bucket.Init(rates, tick, false);
      var _ := SetMinShare(64);
    }

    /** bufferevent_rate_limit_group_set_min_share */
    method SetMinShare(share: nat) returns (result: int)
      modifies this`minShare, this`configuredMinShare
      ensures result == if share > SSIZE_MAX then -1 else 0
      ensures State() == if share > SSIZE_MAX then old(State())
                         else old(State()).(minShare := ShareFor(rates, share), configured := share)
      ensures result == 0 ==> minShare <= share && minShare <= rates.read.rate && minShare <= rates.write.rate
      ensures result == 0 ==> minShare in {share, rates.read.rate, rates.write.rate} && configuredMinShare == share
    {
      if share > SSIZE_MAX {
        return -1;
      }
      configuredMinShare := share;
      var s := share;
      if s > rates.read.rate {
        s := rates.read.rate;
      }
      if s > rates.write.rate {
        s := rates.write.rate;
      }
      minShare := s;
      return 0;
    }

    /** bev_group_suspend_reading_, bev_group_suspend_writing_ (all members' locks are free) */
    method SuspendAll(isWrite: bool)
      requires Consistent()
      modifies this`readSuspended, this`writeSuspended, Members()`readSuspended, Members()`writeSuspended
      ensures Consistent() && State() == old(State()).Set(isWrite, true)
      ensures forall b :: b in members ==> Own(b.State()) == old(Own(b.State()))
    {
      if isWrite {
        writeSuspended := true;
      } else {
        readSuspended := true;
      }
      MarkRange(members, 0, |members|, isWrite, true);
    }

    /**
     bev_group_unsuspend_reading_, bev_group_unsuspend_writing_: from a random member on, then the
     members before it.
     */
    method UnsuspendAll(isWrite: bool, first: nat)
      requires Consistent() && first <= |members|
      modifies this`readSuspended, this`writeSuspended, Members()`readSuspended, Members()`writeSuspended
      ensures Consistent() && State() == old(State()).Set(isWrite, false)
      ensures forall b :: b in members ==> Own(b.State()) == old(Own(b.State()))
    {
      if isWrite {
        writeSuspended := false;
      } else {
        readSuspended := false;
      }
      MarkRange(members, first, |members|, isWrite, false);
      MarkRange(members, 0, first, isWrite, false);
    }

    /** The group's part of bufferevent_decrement_read_buckets_ and ..._write_buckets_. */
    method Charge(isWrite: bool, bytes: int, first: nat)
      requires Consistent() && first <= |members|
      modifies this`readSuspended, this`writeSuspended, bucket, Members()`readSuspended, Members()`writeSuspended
      ensures Consistent() && State() == GCharged(old(State()), isWrite, bytes)
      ensures forall b :: b in members ==> Own(b.State()) == old(Own(b.State()))
    {
      bucket.Charge(isWrite, bytes);
      if bucket.Value().Of(isWrite) <= 0 {
        SuspendAll(isWrite);
      } else if Suspended(isWrite) {
        UnsuspendAll(isWrite, first);
      }
    }

    /** bufferevent_rate_limit_group_decrement_read, bufferevent_rate_limit_group_decrement_write */
    method Decrement(isWrite: bool, decr: int, first: nat)
      requires Consistent() && first <= |members|
      modifies this`readSuspended, this`writeSuspended, bucket, Members()`readSuspended, Members()`writeSuspended
      ensures Consistent() && State() == GDecremented(old(State()), isWrite, decr)
      ensures forall b :: b in members ==> Own(b.State()) == old(Own(b.State()))
    {
      var oldLimit := bucket.Value().Of(isWrite);
      bucket.Charge(isWrite, decr);
      var newLimit := oldLimit - decr;
      if oldLimit > 0 && newLimit <= 0 {
        SuspendAll(isWrite);
      } else if oldLimit <= 0 && newLimit > 0 {
        UnsuspendAll(isWrite, first);
      }
    }

    /** bev_group_refill_callback_ (no unsuspension is ever left pending, as all locks are free) */
    method Refill(tick: nat, first: nat)
      requires Consistent() && first <= |members|
      modifies this`readSuspended, this`writeSuspended, bucket, Members()`readSuspended, Members()`writeSuspended
      ensures Consistent() && State() == GRefilled(old(State()), tick)
      ensures forall b :: b in members ==> Own(b.State()) == old(Own(b.State()))
    {
      var _ := bucket.Update(rates, tick);
      if readSuspended && bucket.readLimit >= minShare {
        UnsuspendAll(false, first);
      }
      if writeSuspended && bucket.writeLimit >= minShare {
        UnsuspendAll(true, first);
      }
    }

    /** bufferevent_rate_limit_group_set_cfg */
    method SetCfg(newRates: Rates)
      requires configuredMinShare <= SSIZE_MAX
      modifies this`rates, this`minShare, this`configuredMinShare, bucket
      ensures State() == GConfigured(old(State()), newRates)
    {
      rates := newRates;
      if bucket.readLimit > rates.read.maximum {
        bucket.readLimit := rates.read.maximum;
      }
      if bucket.writeLimit > rates.write.maximum {
        bucket.writeLimit := rates.write.maximum;
      }
      var _ := SetMinShare(configuredMinShare);
    }

    ghost function Members(): set<Bufferevent>
      reads this
    {
      set b | b in members
    }
  }

  /** A connection's state but for its group's flags, which the group determines. */
  function Own(c: Conn): Conn {
    c.(read := c.read - {SuspendBwGroup}, write := c.write - {SuspendBwGroup})
  }

  lemma MarkedOwn(c: Conn, isWrite: bool, on: bool)
    ensures Own(Marked(c, isWrite, on)) == Own(c)
  {
    assert c.read + {SuspendBwGroup} - {SuspendBwGroup} == c.read - {SuspendBwGroup};
    assert c.write + {SuspendBwGroup} - {SuspendBwGroup} == c.write - {SuspendBwGroup};
    assert c.read - {SuspendBwGroup} - {SuspendBwGroup} == c.read - {SuspendBwGroup};
    assert c.write - {SuspendBwGroup} - {SuspendBwGroup} == c.write - {SuspendBwGroup};
  }

  function Marked(c: Conn, isWrite: bool, on: bool): Conn {
    if on then c.Suspended(isWrite, SuspendBwGroup) else c.Unsuspended(isWrite, SuspendBwGroup)
  }

  /** Set or clear the group's flag on the members of a range. */
  method MarkRange(members: seq<Bufferevent>, lo: nat, hi: nat, isWrite: bool, on: bool)
    requires lo <= hi <= |members| && forall i, j :: 0 <= i < j < |members| ==> members[i] != members[j]
    modifies (set b | b in members)`readSuspended, (set b | b in members)`writeSuspended
    ensures forall j :: 0 <= j < |members| ==>
      members[j].State() == if lo <= j < hi then Marked(old(members[j].State()), isWrite, on) else old(members[j].State())
    ensures forall j :: 0 <= j < |members| ==> Own(members[j].State()) == old(Own(members[j].State()))
  {
    hide Bufferevent.State, Own;
    for i := lo to hi
      invariant forall j :: 0 <= j < |members| ==>
        members[j].State() == if lo <= j < i then Marked(old(members[j].State()), isWrite, on) else old(members[j].State())
    {
      if on {
        members[i].Suspend(isWrite, SuspendBwGroup);
      } else {
        members[i].Unsuspend(isWrite, SuspendBwGroup);
      }
    }
    forall j | 0 <= j < |members|
      ensures Own(members[j].State()) == old(Own(members[j].State()))
    {
      MarkedOwn(old(members[j].State()), isWrite, on);
    }
  }

  /** bufferevent_decrement_read_buckets_, bufferevent_decrement_write_buckets_ */
  method DecrementBuckets(b: Bufferevent, isWrite: bool, bytes: int, first: nat)
    requires b.group != null ==> b.group.Consistent() && b in b.group.members && first <= |b.group.members|
    modifies b, b.bucket, b.group, if b.group == null then {} else {b.group.bucket}
    modifies if b.group == null then {} else b.group.Members()
    ensures b.group == old(b.group) && Own(b.State()) == Own(Charged(old(b.State()), isWrite, bytes))
    ensures b.group != null ==>
      && b.group.Consistent() && b.group.State() == GCharged(old(b.group.State()), isWrite, bytes)
      && b.group.members == old(b.group.members)
      && forall m :: m in b.group.members && m != b && m.bucket != b.bucket ==> Own(m.State()) == old(Own(m.State()))
  {
    b.ChargeOwn(isWrite, bytes);
    if b.group != null {
      b.group.Charge(isWrite, bytes, first);
    }
  }

  /** bufferevent_remove_from_rate_limit_group */
  method RemoveFromGroup(b: Bufferevent)
    requires b.group != null ==> b.group.Consistent() && b in b.group.members
    modifies b`group, b`readSuspended, b`writeSuspended, b.group
    ensures b.group == null && SuspendBwGroup !in b.readSuspended && SuspendBwGroup !in b.writeSuspended
    ensures Own(b.State()) == Own(old(b.State()))
    ensures old(b.group) != null ==> old(b.group).Consistent() && Without(old(b.group.members), old(b.group).members, b)
    ensures old(b.group) != null ==> old(b.group).State() == old(b.group.State())
  {
    if b.group != null {
      var g := b.group;
      b.group := null;
      RemovedIs(g.members, b);
      g.members := Removed(g.members, b);
    }
    b.Unsuspend(false, SuspendBwGroup);
    b.Unsuspend(true, SuspendBwGroup);
  }

  function IndexOf<T(==)>(s: seq<T>, x: T): (i: nat)
    requires x in s
    ensures i < |s| && s[i] == x
  {
    if s[0] == x then 0 else 1 + IndexOf(s[1..], x)
  }

  /** LIST_REMOVE */
  function Removed<T(==)>(s: seq<T>, x: T): seq<T>
    requires x in s
  {
    s[..IndexOf(s, x)] + s[IndexOf(s, x) + 1..]
  }

  lemma RemovedIs<T>(s: seq<T>, x: T)
    requires x in s && forall i, j :: 0 <= i < j < |s| ==> s[i] != s[j]
    ensures Without(s, Removed(s, x), x)
  {
    hide IndexOf;
    var i, r := IndexOf(s, x), Removed(s, x);
    forall k | 0 <= k < |r|
      ensures r[k] != x
    {
      assert r[k] == if k < i then s[k] else s[k + 1];
    }
  }

  /** `after` is `before` without `x`, in the same order. */
  ghost predicate Without<T>(before: seq<T>, after: seq<T>, x: T) {
    x !in after && exists i :: 0 <= i < |before| && before[i] == x && after == before[..i] + before[i + 1..]
  }

  /** The part of bufferevent_add_to_rate_limit_group that enters the new group. */
  method JoinGroup(b: Bufferevent, g: RateLimitGroup)
    requires g.Consistent() && b.bucket != g.bucket && b !in g.members && b.group == null
    requires SuspendBwGroup !in b.readSuspended && SuspendBwGroup !in b.writeSuspended
    modifies b`group, b`readSuspended, b`writeSuspended, g`members
    ensures b.group == g && g.Consistent() && Own(b.State()) == Own(old(b.State()))
    ensures g.members == [b] + old(g.members) && g.State() == old(g.State())
  {
    b.group := g;
    g.members := [b] + g.members;
    if g.readSuspended {
      b.Suspend(false, SuspendBwGroup);
    }
    if g.writeSuspended {
      b.Suspend(true, SuspendBwGroup);
    }
  }

  /** bufferevent_add_to_rate_limit_group */
  method AddToGroup(b: Bufferevent, g: RateLimitGroup)
    requires g.Consistent() && b.bucket != g.bucket && (b in g.members ==> b.group == g)
    requires b.group != null ==> b.group.Consistent() && b in b.group.members
    requires b.group == null ==> SuspendBwGroup !in b.readSuspended && SuspendBwGroup !in b.writeSuspended
    modifies b`group, b`readSuspended, b`writeSuspended, b.group, g`members
    ensures b.group == g && g.Consistent() && Own(b.State()) == Own(old(b.State()))
    ensures g.members == if old(b.group) == g then old(g.members) else [b] + old(g.members)
    ensures g.State() == old(g.State())
    ensures old(b.group) != null && old(b.group) != g ==> old(b.group).Consistent() && b !in old(b.group).members
  {
    if b.group == g {
      return;
    }
    if b.group != null {
      RemoveFromGroup(b);
    }
    assert g.Consistent();
    JoinGroup(b, g);
  }

  /** Each of the two members of a new group of a thousand bytes a tick gets five hundred. */
  method ShareOfTwo() returns (share: nat)
    ensures share == 500
  {
    var g := new RateLimitGroup(Rates(Rate(1000, 1000), Rate(1000, 1000)), 0);
    var a := new Bufferevent();
    var b := new Bufferevent();
    AddToGroup(a, g);
    AddToGroup(b, g);
    share := a.GetRlimMax(false, 0);
  }
}
