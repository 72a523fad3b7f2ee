/**
 * One rate-limited bufferevent without a group: buckets, the BEV_SUSPEND_BW bits and the refill
 * timer.  Adding the timer event is taken to succeed.
 */
module RateLimit {
  import opened Bytes
  import opened Counting
  import opened Options
  import opened TokenBucket

  class Limiter {
    var limited: bool          // the rate-limiting state was allocated
    var cfg: Cfg?
    const limit: Bucket
    var readSuspended: bool
    var writeSuspended: bool
    var pending: bool          // the refill timer is scheduled
    var queued: bool           // the timer fired, and its callback has still to get the lock

    /** What the other fields must always satisfy. */
    ghost predicate Base()
      reads this, limit
    {
      && limit.Valid()
      && (cfg != null ==> limited && cfg.Ok())
      && (cfg == null ==> !readSuspended && !writeSuspended && !pending)
    }

    /** An exhausted direction is suspended, and who is suspended has a refill to come. */
    ghost predicate NoLostRefill()
      reads this, limit
    {
      cfg != null ==>
        && (limit.readLimit <= 0 ==> readSuspended)
        && (limit.writeLimit <= 0 ==> writeSuspended)
        && (readSuspended || writeSuspended ==> pending || queued)
    }

    ghost predicate Inv()
      reads this, limit
    {
      Base() && NoLostRefill()
    }

    constructor ()
      ensures Inv() && cfg == null && fresh(limit) && limit.readLimit == 0 && limit.writeLimit == 0
      ensures !limited && !queued
    {
      limited, cfg, readSuspended, writeSuspended, pending, queued := false, null, false, false, false, false;
      limit := new Bucket();
    }

    /** The timer goes on as long as a direction is suspended; when the last one resumes it is taken out. */
    predicate TimerAfter(suspended: bool, was: bool, other: bool, pending0: bool, queued0: bool)
      reads this
    {
      if suspended then pending && queued == queued0
      else if was && !other then !pending && (queued ==> queued0)
      else pending == pending0 && queued == queued0
    }

    /** bufferevent_decrement_read_buckets_ */
    method DecrementReadBuckets(bytes: int)
      requires Inv() && (cfg != null ==> Signed(limit.readLimit - bytes))
      modifies this, limit
      ensures limited == old(limited) && limit.lastUpdated == old(limit.lastUpdated)
      ensures Inv() && cfg == old(cfg) && limit.writeLimit == old(limit.writeLimit)
      ensures writeSuspended == old(writeSuspended)
      ensures cfg == null ==> unchanged(this, limit)
      ensures cfg != null ==> limit.readLimit == old(limit.readLimit) - bytes && readSuspended == (limit.readLimit <= 0)
      ensures cfg != null ==> TimerAfter(readSuspended, old(readSuspended), writeSuspended, old(pending), old(queued))
    {
      if !limited {
        return;
      }
      if cfg != null {
        limit.readLimit := limit.readLimit - bytes;
        if limit.readLimit <= 0 {
          readSuspended := true;
          pending := true;
        } else if readSuspended {
          if !writeSuspended {
            DropTimer();
          }
          readSuspended := false;
        }
      }
    }

    /** bufferevent_decrement_write_buckets_ */
    method DecrementWriteBuckets(bytes: int)
      requires Inv() && (cfg != null ==> Signed(limit.writeLimit - bytes))
      modifies this, limit
      ensures limited == old(limited) && limit.lastUpdated == old(limit.lastUpdated)
      ensures Inv() && cfg == old(cfg) && limit.readLimit == old(limit.readLimit)
      ensures readSuspended == old(readSuspended)
      ensures cfg == null ==> unchanged(this, limit)
      ensures cfg != null ==>
                limit.writeLimit == old(limit.writeLimit) - bytes &&
                writeSuspended == (limit.writeLimit <= 0)
      ensures cfg != null ==> TimerAfter(writeSuspended, old(writeSuspended), readSuspended, old(pending), old(queued))
    {
      if !limited {
        return;
      }
      if cfg != null {
        limit.writeLimit := limit.writeLimit - bytes;
        if limit.writeLimit <= 0 {
          writeSuspended := true;
          pending := true;
        } else if writeSuspended {
          if !readSuspended {
            DropTimer();
          }
          writeSuspended := false;
        }
      }
    }

    /** bufferevent_decrement_read_limit: acts only when the limit crosses zero. */
    method DecrementReadLimit(decr: int)
      requires Inv() && cfg != null && Signed(limit.readLimit - decr)
      modifies this, limit
      ensures limited == old(limited) && limit.lastUpdated == old(limit.lastUpdated)
      ensures Inv() && cfg == old(cfg) && limit.readLimit == old(limit.readLimit) - decr
      ensures limit.writeLimit == old(limit.writeLimit) && writeSuspended == old(writeSuspended)
      ensures var crosses := old(limit.readLimit) > 0 <==> limit.readLimit <= 0;
              && readSuspended == (if crosses then limit.readLimit <= 0 else old(readSuspended))
              && (crosses ==> TimerAfter(readSuspended, !readSuspended, writeSuspended, old(pending), old(queued)))
              && (!crosses ==> unchanged(this))
    {
      var oldLimit := limit.readLimit;
      limit.readLimit := limit.readLimit - decr;
      if oldLimit > 0 && limit.readLimit <= 0 {
        readSuspended := true;
        pending := true;
      } else if oldLimit <= 0 && limit.readLimit > 0 {
        if !writeSuspended {
          DropTimer();
        }
        readSuspended := false;
      }
    }

    /** bufferevent_decrement_write_limit */
    method DecrementWriteLimit(decr: int)
      requires Inv() && cfg != null && Signed(limit.writeLimit - decr)
      modifies this, limit
      ensures limited == old(limited) && limit.lastUpdated == old(limit.lastUpdated)
      ensures Inv() && cfg == old(cfg) && limit.writeLimit == old(limit.writeLimit) - decr
      ensures limit.readLimit == old(limit.readLimit) && readSuspended == old(readSuspended)
      ensures var crosses := old(limit.writeLimit) > 0 <==> limit.writeLimit <= 0;
              && writeSuspended == (if crosses then limit.writeLimit <= 0 else old(writeSuspended))
              && (crosses ==> TimerAfter(writeSuspended, !writeSuspended, readSuspended, old(pending), old(queued)))
              && (!crosses ==> unchanged(this))
    {
      var oldLimit := limit.writeLimit;
      limit.writeLimit := limit.writeLimit - decr;
      if oldLimit > 0 && limit.writeLimit <= 0 {
        writeSuspended := true;
        pending := true;
      } else if oldLimit <= 0 && limit.writeLimit > 0 {
        if !readSuspended {
          DropTimer();
        }
        writeSuspended := false;
      }
    }

    predicate RefillWraps(now: tick)
      requires cfg != null
      reads this, limit
    {
      var n := Elapsed(limit.lastUpdated, now);
      && n > 0
      && (|| Wraps(readSuspended, limit.readLimit, cfg.readMaximum, cfg.readRate, n)
          || Wraps(writeSuspended, limit.writeLimit, cfg.writeMaximum, cfg.writeRate, n))
    }

    /** bufferevent_update_buckets */
    method UpdateBuckets(now: tick)
      requires Inv() && cfg != null
      modifies limit
      ensures Base() && (NoLostRefill() <==> !old(RefillWraps(now)))
      ensures limit.readLimit == Filled(old(limit.readLimit), cfg.readMaximum, cfg.readRate,
              Elapsed(old(limit.lastUpdated), now))
      ensures limit.writeLimit == Filled(old(limit.writeLimit), cfg.writeMaximum, cfg.writeRate,
              Elapsed(old(limit.lastUpdated), now))
      ensures limit.lastUpdated == if Elapsed(old(limit.lastUpdated), now) > 0 then now else old(limit.lastUpdated)
    {
      hide Refill, Wraps;
      ghost var n := Elapsed(limit.lastUpdated, now);
      if n > 0 {
        RefillKeeps(readSuspended, limit.readLimit, cfg.readMaximum, cfg.readRate, n);
        RefillKeeps(writeSuspended, limit.writeLimit, cfg.writeMaximum, cfg.writeRate, n);
      }
      if now != limit.lastUpdated {
        var r := limit.Update(cfg, now);
      }
    }

    /** The limit of a direction, if there is one, is within the cap on single reads or writes once it is refilled. */
    predicate CapHolds(isWrite: bool, maxSingle: nat, now: tick)
      reads this, limit
    {
      cfg != null ==>
        var n := Elapsed(limit.lastUpdated, now);
        if isWrite then Filled(limit.writeLimit, cfg.writeMaximum, cfg.writeRate, n) <= maxSingle
        else Filled(limit.readLimit, cfg.readMaximum, cfg.readRate, n) <= maxSingle
    }

    /** bufferevent_get_rlim_max_: refill first; the new limit is the allowance, and the cap on single reads and
        writes applies only where there is no limit; then the share of a group is a bound. */
    method GetMax(isWrite: bool, maxSingle: nat, now: tick, group: Option<GroupView>) returns (max: int)
      requires Inv() && (group.Some? ==> limited && group.value.members > 0)
      modifies limit
      ensures Base() && (NoLostRefill() <==> !(cfg != null && old(RefillWraps(now))))
      ensures cfg == null ==> unchanged(limit)
      ensures cfg != null ==>
        var n := Elapsed(old(limit.lastUpdated), now);
        && limit.readLimit == Filled(old(limit.readLimit), cfg.readMaximum, cfg.readRate, n)
        && limit.writeLimit == Filled(old(limit.writeLimit), cfg.writeMaximum, cfg.writeRate, n)
        && limit.lastUpdated == (if n > 0 then now else old(limit.lastUpdated))
      ensures group == None ==> (max <= maxSingle <==> old(CapHolds(isWrite, maxSingle, now)))
      ensures var own := if cfg == null then maxSingle else if isWrite then limit.writeLimit else limit.readLimit;
              && (max == if group == None then Max0(own) else Max0(Min(own, group.value.Share())))
    {
      max := maxSingle;
      if !limited {
        return;
      }
      if cfg != null {
        UpdateBuckets(now);
        max := if isWrite then limit.writeLimit else limit.readLimit;
      }
      if group.Some? {
        var share := group.value.Share();
        if max > share {
          max := share;
        }
      }
      if max < 0 {
        max := 0;
      }
    }

    /** event_del takes the timer out, and also a callback that was about to run, unless that has begun. */
    method DropTimer()
      modifies this`pending, this`queued
      ensures !pending && (queued ==> old(queued))
    {
      pending := false;
      if * {
        queued := false;
      }
    }

    /** The event loop takes the timer out and is about to run the callback; until that has the lock,
        anything else may happen. */
    method TimerFires()
      requires Inv() && pending
      modifies this`pending, this`queued
      ensures Inv() && !pending && queued
    {
      pending := false;
      queued := true;
    }

    /** Refill, then resume each direction that has credit again, and keep the timer going while one
        has not. */
    method RefillCallback(now: tick)
      requires Inv() && queued
      modifies this, limit
      ensures limited == old(limited)
      ensures Base() && cfg == old(cfg) && !queued && (NoLostRefill() <==> !(cfg != null && old(RefillWraps(now))))
      ensures cfg == null ==> unchanged(limit)
      ensures cfg != null ==>
        var n := Elapsed(old(limit.lastUpdated), now);
        && limit.readLimit == Filled(old(limit.readLimit), cfg.readMaximum, cfg.readRate, n)
        && limit.writeLimit == Filled(old(limit.writeLimit), cfg.writeMaximum, cfg.writeRate, n)
        && limit.lastUpdated == (if n > 0 then now else old(limit.lastUpdated))
        && readSuspended == (old(readSuspended) && limit.readLimit <= 0)
        && writeSuspended == (old(writeSuspended) && limit.writeLimit <= 0)
        && pending == (old(pending) || readSuspended || writeSuspended)
    {
      hide Refill, Wraps, Elapsed;
      if !limited || cfg == null {
        queued := false;
        return;
      }
      UpdateBuckets(now);
      queued := false;
      var again := false;
      if readSuspended {
        if limit.readLimit > 0 {
          readSuspended := false;
        } else {
          again := true;
        }
      }
      if writeSuspended {
        if limit.writeLimit > 0 {
          writeSuspended := false;
        } else {
          again := true;
        }
      }
      if again {
        pending := true;
      }
    }

    /** bufferevent_set_rate_limit */
    method SetRateLimit(newCfg: Cfg?, now: tick)
      requires Inv() && (newCfg != null ==> newCfg.Ok())
      modifies this, limit
      ensures Inv() && cfg == newCfg && limited == (old(limited) || newCfg != null)
      ensures newCfg == old(cfg) && newCfg != null ==> unchanged(this, limit)
      ensures newCfg == null ==> unchanged(limit) && !readSuspended && !writeSuspended && !pending
      ensures newCfg != null && newCfg != old(cfg) ==>
        && limit.readLimit == (if old(cfg) == null then newCfg.readRate
           else Min(old(limit.readLimit), newCfg.readMaximum))
        && limit.writeLimit == (if old(cfg) == null then newCfg.writeRate
           else Min(old(limit.writeLimit), newCfg.writeMaximum))
        && readSuspended == (limit.readLimit <= 0) && writeSuspended == (limit.writeLimit <= 0)
        && pending == (readSuspended || writeSuspended)
        && limit.lastUpdated == (if old(cfg) == null then now else old(limit.lastUpdated))
    {
      if newCfg == null {
        if limited {
          cfg := null;
          readSuspended := false;
          writeSuspended := false;
          DropTimer();
        }
        return;
      }
      if limited && cfg == newCfg {
        return;
      }
      limited := true;
      var reinit := cfg != null;
      cfg := newCfg;
      limit.Init(cfg, now, reinit);
      if reinit {
        DropTimer();
      }
      var suspended := false;
      if limit.readLimit > 0 {
        readSuspended := false;
      } else {
        readSuspended := true;
        suspended := true;
      }
      if limit.writeLimit > 0 {
        writeSuspended := false;
      } else {
        writeSuspended := true;
        suspended := true;
      }
      if suspended {
        pending := true;
      }
    }
  }

  /** What a member reads of its group: the bit is set if it is suspended, and then there is no share. */
  datatype GroupView = GroupView(suspended: bool, limit: int, members: nat, minShare: nat) {

    /** A suspended group gives nothing.  Otherwise the limit is divided among the members as far as it goes, but
        nobody gets less than the smallest share. */
    function Share(): (share: int)
      requires members > 0
      ensures suspended ==> share == 0
      ensures !suspended ==> share >= minShare && members * (share + 1) > limit
      ensures share > minShare ==> members * share <= limit
    {
      if suspended then 0
      else
        var share := Quotient(limit, members);
        if share < minShare then minShare else share
    }

    /** All members together get no more than the limit exactly when there is enough for the smallest share. */
    lemma SharesFit()
      requires members > 0 && !suspended && limit >= 0
      ensures members * Share() <= limit <==> members * minShare <= limit
    {
      if limit / members < minShare {
        assert members * (limit / members + 1) <= members * minShare;
        assert limit < members * (limit / members + 1);
      } else {
        assert members * minShare <= members * (limit / members);
      }
    }
  }

  /** Division in C drops the fraction. */
  function Quotient(a: int, n: nat): int
    requires n > 0
  {
    if a >= 0 then a / n else 0 - (0 - a) / n
  }

  /** The cap on single reads is ignored where there is a limit: with 20000 in the bucket and a cap of 16384
      the allowance is 20000. */
  method CapIgnored() returns (max: int)
    ensures max == 20000 > 16384
  {
    var cfg := new Cfg(20000, 20000, 20000, 20000, 1000);
    var l := new Limiter();
    l.SetRateLimit(cfg, 0);
    max := l.GetMax(false, 16384, 0, None);
  }

  function Max0(x: int): int {
    if x < 0 then 0 else x
  }

  /** The limit after a refill for n ticks, if any passed. */
  function Filled(value: int, maximum: nat, rate: nat, n: nat): int {
    if n == 0 then value else Refill(value, maximum, rate, n)
  }

  /** A direction that is not suspended and whose limit, above the maximum, wraps around to zero or
      less when n ticks are added: the one way in which a refill can exhaust a bucket. */
  predicate Wraps(suspended: bool, value: int, maximum: nat, rate: nat, n: nat) {
    !suspended && value > maximum && SSIZE_MAX < value + n * rate <= WORD
  }

  lemma RefillKeeps(suspended: bool, value: int, maximum: nat, rate: nat, n: nat)
    requires Signed(value) && 1 <= rate <= maximum <= SSIZE_MAX && n > 0 && (value <= 0 ==> suspended)
    ensures (Refill(value, maximum, rate, n) <= 0 ==> suspended) <==> !Wraps(suspended, value, maximum, rate, n)
  {
    hide Refill;
    if value > 0 { RefillPositive(value, maximum, rate, n); }
  }

  /** A limit refunded to the largest value, with a maximum of 100, is negative one tick later and
      nothing is suspended. */
  lemma WrapExample()
    ensures Wraps(false, SSIZE_MAX, 100, 1, 1) && Refill(SSIZE_MAX, 100, 1, 1) == 0 - SSIZE_MAX - 1
  {
    assert ToWord(100 - SSIZE_MAX) == WORD + 100 - SSIZE_MAX;
    assert (WORD + 100 - SSIZE_MAX) / 1 == WORD + 100 - SSIZE_MAX;
  }

  /** A suspended direction whose timer fires after ns ticks each time resumes with the first
      firing at which the ticks so far outweigh what it owes, and not before. */
  lemma ResumesWhenPaid(value: int, maximum: nat, rate: nat, ns: seq<nat>)
    requires Signed(value) && value <= 0 && 1 <= rate <= maximum <= SSIZE_MAX
    ensures Refills(value, maximum, rate, ns) > 0 <==> Sum(ns) * rate > 0 - value
  {
    RefillsCombine(value, maximum, rate, ns);
  }

  // ---------- Runs ----------

  datatype Op =
    | ReadBuckets(bytes: int)
    | WriteBuckets(bytes: int)
    | ReadLimit(decr: int)
    | WriteLimit(decr: int)
    | Fire
    | Callback(now: tick)
    | Ask(isWrite: bool, now: tick)
    | Configure(cfg: Cfg?, now: tick)

  function Amount(op: Op): int {
    match op
    case ReadBuckets(b) => b
    case WriteBuckets(b) => b
    case ReadLimit(b) => b
    case WriteLimit(b) => b
    case _ => 0
  }

  /** Without refunds: how much is taken at most. */
  function Costs(ops: seq<Op>): nat {
    if ops == [] then 0 else Max0(Amount(ops[0])) + Costs(ops[1..])
  }

  /** The call overflows a limit, or refills a bucket whose limit wraps around. */
  predicate Spoils(l: Limiter, op: Op)
    reads l, l.limit
  {
    l.cfg != null &&
    match op
    case ReadBuckets(bytes) => !Signed(l.limit.readLimit - bytes)
    case WriteBuckets(bytes) => !Signed(l.limit.writeLimit - bytes)
    case ReadLimit(decr) => !Signed(l.limit.readLimit - decr)
    case WriteLimit(decr) => !Signed(l.limit.writeLimit - decr)
    case Fire => false
    case Callback(now) => l.queued && l.RefillWraps(now)
    case Ask(_, now) => l.RefillWraps(now)
    case Configure(_, _) => false
  }

  /** No limit is above its maximum, nor further below zero than debt. */
  ghost predicate Within(l: Limiter, debt: nat)
    reads l, l.limit
  {
    && 0 - debt <= l.limit.readLimit && 0 - debt <= l.limit.writeLimit
    && (l.cfg != null ==> l.limit.readLimit <= l.cfg.readMaximum && l.limit.writeLimit <= l.cfg.writeMaximum)
  }

  lemma FilledWithin(value: int, maximum: nat, rate: nat, n: nat)
    requires Signed(value) && value <= maximum && 1 <= rate <= maximum <= SSIZE_MAX
    ensures value <= Filled(value, maximum, rate, n) <= maximum
  {
    if n > 0 {
      RefillExact(value, maximum, rate, n);
      assert n * rate > 0;
    }
  }

  /** Where nothing is refunded and little is owed, no call spoils anything. */
  lemma NothingSpoils(l: Limiter, op: Op, debt: nat)
    requires l.Inv() && Within(l, debt) && Amount(op) >= 0 && debt + Amount(op) <= SSIZE_MAX
    ensures !Spoils(l, op)
  {
  }

  /** What a call does to the two limits and the configuration. */
  twostate predicate Effect(l: Limiter, op: Op)
    reads l, l.limit
  {
    var cfg, r, w := old(l.cfg), old(l.limit.readLimit), old(l.limit.writeLimit);
    && l.cfg == (if op.Configure? then op.cfg else cfg)
    && (cfg == null && !op.Configure? ==> l.limit.readLimit == r && l.limit.writeLimit == w)
    && (cfg != null ==>
          match op
          case ReadBuckets(bytes) => l.limit.readLimit == r - bytes && l.limit.writeLimit == w
          case WriteBuckets(bytes) => l.limit.readLimit == r && l.limit.writeLimit == w - bytes
          case ReadLimit(decr) => l.limit.readLimit == r - decr && l.limit.writeLimit == w
          case WriteLimit(decr) => l.limit.readLimit == r && l.limit.writeLimit == w - decr
          case Fire =>
            && l.limit.readLimit == r && l.limit.writeLimit == w
            && !l.pending && l.queued == (old(l.pending) || old(l.queued))
          case Callback(now) =>
            if old(l.queued) then Refilled(l, now) else l.limit.readLimit == r && l.limit.writeLimit == w
          case Ask(_, now) => Refilled(l, now)
          case Configure(_, _) => true)
  }

  twostate predicate Refilled(l: Limiter, now: tick)
    requires old(l.cfg) != null
    reads l, l.limit
  {
    var cfg, n := old(l.cfg), Elapsed(old(l.limit.lastUpdated), now);
    && l.limit.readLimit == Filled(old(l.limit.readLimit), cfg.readMaximum, cfg.readRate, n)
    && l.limit.writeLimit == Filled(old(l.limit.writeLimit), cfg.writeMaximum, cfg.writeRate, n)
  }

  /** A call that does not spoil the buckets keeps the invariant. */
  method Perform(l: Limiter, op: Op, ghost debt: nat)
    requires l.Inv() && !Spoils(l, op)
    requires op.Configure? && op.cfg != null ==> op.cfg.Ok()
    modifies l, l.limit
    ensures l.Inv() && Effect(l, op)
    ensures Amount(op) >= 0 && old(Within(l, debt)) ==> Within(l, debt + Amount(op))
  {
    hide Refill, Elapsed, Wraps;
    if l.cfg != null && (op.Callback? || op.Ask?) && Within(l, debt) {
      ghost var n := Elapsed(l.limit.lastUpdated, op.now);
      FilledWithin(l.limit.readLimit, l.cfg.readMaximum, l.cfg.readRate, n);
      FilledWithin(l.limit.writeLimit, l.cfg.writeMaximum, l.cfg.writeRate, n);
    }
    match op
    case ReadBuckets(bytes) => l.DecrementReadBuckets(bytes);
    case WriteBuckets(bytes) => l.DecrementWriteBuckets(bytes);
    case ReadLimit(decr) => if l.cfg != null { l.DecrementReadLimit(decr); }
    case WriteLimit(decr) => if l.cfg != null { l.DecrementWriteLimit(decr); }
    case Fire => if l.pending { l.TimerFires(); }
    case Callback(now) => if l.queued { l.RefillCallback(now); }
    case Ask(isWrite, now) => var max := l.GetMax(isWrite, 16384, now, None);
    case Configure(cfg, now) => l.SetRateLimit(cfg, now);
  }

  /** No run loses a refill before a limit overflows or wraps: until then an exhausted direction is suspended and
      whoever is suspended has a refill to come.  Without refunds, and with less than 2^63 bytes in all, it never
      comes to that. */
  method Run(ops: seq<Op>) returns (l: Limiter, k: nat)
    requires forall i :: 0 <= i < |ops| && ops[i].Configure? && ops[i].cfg != null ==> ops[i].cfg.Ok()
    ensures fresh(l) && l.Inv() && k <= |ops| && (k < |ops| ==> Spoils(l, ops[k]))
    ensures (forall i :: 0 <= i < |ops| ==> Amount(ops[i]) >= 0) && Costs(ops) <= SSIZE_MAX ==>
              k == |ops| && Within(l, Costs(ops))
  {
    hide Limiter.Inv, Within, Spoils;
    l := new Limiter();
    k := 0;
    ghost var debt: nat := 0;
    ghost var plain := (forall i :: 0 <= i < |ops| ==> Amount(ops[i]) >= 0) && Costs(ops) <= SSIZE_MAX;
    assert Within(l, 0) by { StartWithin(l); }
    assert ops[0..] == ops;
    while k < |ops|
      invariant fresh(l) && fresh(l.limit) && l.Inv() && k <= |ops|
      invariant plain ==> Within(l, debt) && debt + Costs(ops[k..]) == Costs(ops)
    {
      assert ops[k..][0] == ops[k] && ops[k..][1..] == ops[k + 1..];
      if plain { NothingSpoils(l, ops[k], debt); }
      if Spoils(l, ops[k]) {
        return;
      }
      Perform(l, ops[k], debt);
      debt := debt + Max0(Amount(ops[k]));
      k := k + 1;
    }
  }

  lemma StartWithin(l: Limiter)
    requires l.limit.readLimit == 0 && l.limit.writeLimit == 0
    ensures Within(l, 0)
  {
  }
}
