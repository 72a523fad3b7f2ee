/**
 * Token buckets: the refill that avoids overflow, on 64-bit sizes and 32-bit tick counters.
 */
module TokenBucket {
  import opened Bytes
  import opened Counting

  const WORD: nat := 0x1_0000_0000_0000_0000
  const SSIZE_MAX: nat := 0x7FFF_FFFF_FFFF_FFFF
  const TICKS: nat := 0x1_0000_0000
  const INT_MAX: nat := 0x7FFF_FFFF
  const USEC_BITS: nat := 0x10_0000    // microseconds are the low 20 bits of their field

  type tick = t: int | 0 <= t < TICKS witness 0

  /** Values of the signed 64-bit type. */
  predicate Signed(x: int) {
    0 - SSIZE_MAX - 1 <= x <= SSIZE_MAX
  }

  function ToWord(x: int): nat {
    x % WORD
  }

  function ToSigned(x: int): (r: int)
    ensures Signed(r)
  {
    if x % WORD <= SSIZE_MAX then x % WORD else x % WORD - WORD
  }

  /** Rates and burst sizes; two configurations are the same only if they are the same object. */
  class Cfg {
    const readRate: nat
    const readMaximum: nat
    const writeRate: nat
    const writeMaximum: nat
    const msecPerTick: nat

    predicate Ok() {
      1 <= readRate <= readMaximum <= SSIZE_MAX && 1 <= writeRate <= writeMaximum <= SSIZE_MAX
    }

    constructor (readRate: nat, readMaximum: nat, writeRate: nat, writeMaximum: nat, msecPerTick: nat)
      ensures this.readRate == readRate && this.readMaximum == readMaximum
      ensures this.writeRate == writeRate && this.writeMaximum == writeMaximum
      ensures this.msecPerTick == msecPerTick
    {
      this.readRate, this.readMaximum := readRate, readMaximum;
      this.writeRate, this.writeMaximum := writeRate, writeMaximum;
      this.msecPerTick := msecPerTick;
    }
  }

  /** Refuses rates above the burst size, zero rates, and sizes that do not fit the signed type.  A tick
      below a millisecond is accepted, and has no length. */
  method CfgNew(readRate: nat, readBurst: nat, writeRate: nat, writeBurst: nat, sec: nat, usec: nat) returns (cfg: Cfg?)
    ensures cfg != null ==>
      cfg.Ok() && cfg.readRate == readRate && cfg.readMaximum == readBurst &&
      cfg.writeRate == writeRate && cfg.writeMaximum == writeBurst
    ensures cfg != null ==> cfg.msecPerTick == (sec * 1000 + usec % USEC_BITS / 1000) % TICKS
    ensures cfg != null && sec < 4000000 ==> (cfg.msecPerTick == 0 <==> sec == 0 && usec % USEC_BITS < 1000)
    ensures cfg == null ==> !(1 <= readRate <= readBurst <= SSIZE_MAX && 1 <= writeRate <= writeBurst <= SSIZE_MAX)
  {
    if readRate > readBurst || writeRate > writeBurst || readRate < 1 || writeRate < 1 {
      return null;
    }
    if readRate > SSIZE_MAX || writeRate > SSIZE_MAX || readBurst > SSIZE_MAX || writeBurst > SSIZE_MAX {
      return null;
    }
    cfg := new Cfg(readRate, readBurst, writeRate, writeBurst, (sec * 1000 + usec % USEC_BITS / 1000) % TICKS);
  }

  /** A tick of 999 microseconds. */
  method NoTickLength() returns (cfg: Cfg?)
    ensures cfg != null && cfg.msecPerTick == 0
  {
    cfg := CfgNew(1, 1, 1, 1, 0, 999);
  }

  /** The tick of a time in milliseconds; the division needs a tick of some length. */
  function TickAt(msec: nat, msecPerTick: nat): tick
    requires msecPerTick > 0
  {
    (msec / msecPerTick) % TICKS
  }

  /** Between two times the counter counts the whole ticks that passed, or one more, wherever it wraps. */
  lemma TicksPassed(m0: nat, m1: nat, per: nat)
    requires per > 0 && m0 <= m1 && (m1 - m0) / per < INT_MAX
    ensures (m1 - m0) / per <= Elapsed(TickAt(m0, per), TickAt(m1, per)) <= (m1 - m0) / per + 1
  {
    hide Elapsed;
    Quotients(m0, m1, per);
    CounterBetween(m0 / per, m1 / per, (m1 - m0) / per);
  }

  lemma Quotients(m0: nat, m1: nat, per: nat)
    requires per > 0 && m0 <= m1
    ensures m0 / per + (m1 - m0) / per <= m1 / per <= m0 / per + (m1 - m0) / per + 1
  {
    var d := m1 - m0;
    var q0, r0, q, r := m0 / per, m0 % per, d / per, d % per;
    Regroup(q0, r0, q, r, per);
    QuotientIs(m1, per, q0 + q, r0 + r);
  }

  lemma Regroup(q0: nat, r0: nat, q: nat, r: nat, per: nat)
    ensures (q0 * per + r0) + (q * per + r) == (q0 + q) * per + (r0 + r)
  {
  }

  lemma QuotientIs(m: nat, per: nat, q: nat, r: nat)
    requires per > 0 && m == q * per + r && r < 2 * per
    ensures q <= m / per <= q + 1
  {
    QuotientBelow(m, per, q);
    QuotientBelow(m, per, q + 2);
  }

  lemma CounterBetween(q0: nat, q1: nat, q: nat)
    requires q0 + q <= q1 <= q0 + q + 1 && q < INT_MAX
    ensures q <= Elapsed(q0 % TICKS, q1 % TICKS) <= q + 1
  {
    hide Elapsed;
    CounterDifference(q0, q1);
  }

  lemma CounterDifference(q0: nat, q1: nat)
    requires q0 <= q1 <= q0 + INT_MAX
    ensures Elapsed(q0 % TICKS, q1 % TICKS) == q1 - q0
  {
    var a, b := q0 % TICKS, q1 % TICKS;
    assert q1 / TICKS == q0 / TICKS || q1 / TICKS == q0 / TICKS + 1;
    Reduce(b - a);
  }

  /** How many ticks passed; a difference beyond INT_MAX counts as time going backwards. */
  function Elapsed(last: tick, now: tick): (n: nat)
    ensures n <= INT_MAX
  {
    var n := (now - last) % TICKS;
    if n > INT_MAX then 0 else n
  }

  /** One direction of a refill, in unsigned arithmetic. */
  function Refill(limit: int, maximum: nat, rate: nat, n: nat): int
    requires n > 0
  {
    if ToWord(maximum - limit) / n < rate then maximum else ToSigned(limit + n * rate)
  }

  /** a / n < r compares a with n * r. */
  lemma QuotientBelow(a: nat, n: nat, r: nat)
    requires n > 0
    ensures a / n < r <==> a < n * r
  {
    if a / n < r {
      assert n * (a / n + 1) <= n * r;
    } else {
      assert n * r <= n * (a / n);
    }
  }

  /** The refill without the division; m is what the ticks bring. */
  lemma RefillIs(limit: int, maximum: nat, rate: nat, n: nat, m: nat)
    requires n > 0 && rate > 0 && m == n * rate
    ensures m > 0 && Refill(limit, maximum, rate, n) == if ToWord(maximum - limit) < m then maximum
            else ToSigned(limit + m)
  {
    hide ToWord, ToSigned;
    QuotientBelow(ToWord(maximum - limit), n, rate);
  }

  /** The refill is min(maximum, limit + n * rate) exactly when the limit is within the maximum, or
      the ticks make up for the unsigned difference. */
  lemma RefillExact(limit: int, maximum: nat, rate: nat, n: nat)
    requires Signed(limit) && 1 <= rate <= maximum <= SSIZE_MAX && n > 0
    ensures Refill(limit, maximum, rate, n) == Min(maximum, limit + n * rate) <==>
            limit <= maximum || n * rate >= ToWord(maximum - limit)
  {
    hide Refill;
    var m := n * rate;
    RefillIs(limit, maximum, rate, n, m);
    Difference(limit, maximum);
    if limit <= maximum && limit + m <= maximum { SignedIs(limit + m); }
    if limit > maximum && m <= ToWord(maximum - limit) { SignedAbove(limit + m); }
  }

  lemma Difference(limit: int, maximum: nat)
    requires Signed(limit) && maximum <= SSIZE_MAX
    ensures ToWord(maximum - limit) == if limit <= maximum then maximum - limit else WORD + maximum - limit
  {
  }

  lemma SignedIs(x: int)
    requires Signed(x)
    ensures ToSigned(x) == x
  {
  }

  lemma SignedAbove(x: int)
    requires 0 <= x <= WORD + SSIZE_MAX
    ensures ToSigned(x) == if x <= SSIZE_MAX then x else x - WORD
  {
  }

  /** A refund that pushed the limit above the maximum: the refill then adds instead of clipping. */
  lemma RefillAboveMaximum()
    ensures Refill(101, 100, 1, 1) == 102
  {
    assert ToWord(100 - 101) == WORD - 1;
    assert (WORD - 1) / 1 == WORD - 1;
  }

  /** A bucket with credit still has some after a refill, except when a limit above the maximum
      makes the signed addition wrap around. */
  lemma RefillPositive(limit: int, maximum: nat, rate: nat, n: nat)
    requires Signed(limit) && limit > 0 && 1 <= rate <= maximum <= SSIZE_MAX && n > 0
    ensures Refill(limit, maximum, rate, n) > 0 <==>
            limit <= maximum || limit + n * rate <= SSIZE_MAX || limit + n * rate > WORD
  {
    hide Refill, ToSigned, ToWord;
    var m := n * rate;
    RefillIs(limit, maximum, rate, n, m);
    Difference(limit, maximum);
    if m <= ToWord(maximum - limit) { SignedAbove(limit + m); }
  }

  function Refills(limit: int, maximum: nat, rate: nat, ns: seq<nat>): int
    decreases |ns|
  {
    if ns == [] then limit
    else Refills(if ns[0] == 0 then limit else Refill(limit, maximum, rate, ns[0]), maximum, rate, ns[1..])
  }

  /** Several refills add up to one. */
  lemma {:induction false} RefillsCombine(limit: int, maximum: nat, rate: nat, ns: seq<nat>)
    requires Signed(limit) && limit <= maximum && 1 <= rate <= maximum <= SSIZE_MAX
    ensures Refills(limit, maximum, rate, ns) == Min(maximum, limit + Sum(ns) * rate)
    decreases |ns|
  {
    if ns != [] {
      var n, rest := ns[0], Sum(ns[1..]);
      assert (n + rest) * rate == n * rate + rest * rate;
      if n > 0 { RefillExact(limit, maximum, rate, n); }
      RefillsCombine(Min(maximum, limit + n * rate), maximum, rate, ns[1..]);
    }
  }

  class Bucket {
    var readLimit: int
    var writeLimit: int
    var lastUpdated: tick

    ghost predicate Valid()
      reads this
    {
      Signed(readLimit) && Signed(writeLimit)
    }

    constructor ()
      ensures Valid() && readLimit == 0 && writeLimit == 0
    {
      readLimit, writeLimit, lastUpdated := 0, 0, 0;
    }

    /** A new configuration: start with one tick's worth, or clip what was there. */
    method Init(cfg: Cfg, now: tick, reinitialize: bool)
      requires Valid() && cfg.Ok()
      modifies this
      ensures Valid()
      ensures !reinitialize ==> readLimit == cfg.readRate && writeLimit == cfg.writeRate && lastUpdated == now
      ensures reinitialize ==>
        && readLimit == Min(old(readLimit), cfg.readMaximum) && writeLimit == Min(old(writeLimit), cfg.writeMaximum)
        && lastUpdated == old(lastUpdated)
    {
      if reinitialize {
        if readLimit > cfg.readMaximum {
          readLimit := cfg.readMaximum;
        }
        if writeLimit > cfg.writeMaximum {
          writeLimit := cfg.writeMaximum;
        }
      } else {
        readLimit := cfg.readRate;
        writeLimit := cfg.writeRate;
        lastUpdated := now;
      }
    }

    /** Refill for the ticks that passed. */
    method Update(cfg: Cfg, now: tick) returns (r: int)
      requires Valid() && cfg.Ok()
      modifies this
      ensures Valid() && r == if Elapsed(old(lastUpdated), now) == 0 then 0 else 1
      ensures r == 0 ==> unchanged(this)
      ensures r == 1 ==>
        && lastUpdated == now
        && readLimit == Refill(old(readLimit), cfg.readMaximum, cfg.readRate, Elapsed(old(lastUpdated), now))
        && writeLimit == Refill(old(writeLimit), cfg.writeMaximum, cfg.writeRate, Elapsed(old(lastUpdated), now))
    {
      var nTicks := (now - lastUpdated) % TICKS;
      if nTicks == 0 || nTicks > INT_MAX {
        return 0;
      }
      if ToWord(cfg.readMaximum - readLimit) / nTicks < cfg.readRate {
        readLimit := cfg.readMaximum;
      } else {
        readLimit := ToSigned(readLimit + nTicks * cfg.readRate);
      }
      if ToWord(cfg.writeMaximum - writeLimit) / nTicks < cfg.writeRate {
        writeLimit := cfg.writeMaximum;
      } else {
        writeLimit := ToSigned(writeLimit + nTicks * cfg.writeRate);
      }
      lastUpdated := now;
      return 1;
    }
  }

  // ---------- The bandwidth envelope ----------

  /** A transfer of some bytes at a time, counted in ticks that never wrap: the bucket is refilled,
      the transfer may take what is in it, and is debited. */
  datatype Use = Use(now: nat, bytes: nat)

  /** One direction of a bucket. */
  datatype State = State(limit: int, last: tick) {

    function Filled(maximum: nat, rate: nat, now: nat): State {
      var n := Elapsed(last, now % TICKS);
      if n == 0 then this else State(Refill(limit, maximum, rate, n), now % TICKS)
    }

    function Used(maximum: nat, rate: nat, use: Use): State {
      var s := Filled(maximum, rate, use.now);
      s.(limit := s.limit - use.bytes)
    }

    /** The bucket was last looked at at time clock. */
    ghost predicate Settled(clock: nat) {
      Elapsed(last, clock % TICKS) == 0
    }
  }

  /** The uses come one after the other, and none takes more than it is granted. */
  ghost predicate Granted(s: State, maximum: nat, rate: nat, clock: nat, uses: seq<Use>)
    decreases |uses|
  {
    uses == [] ||
    (clock <= uses[0].now && uses[0].bytes <= s.Filled(maximum, rate, uses[0].now).limit &&
     Granted(s.Used(maximum, rate, uses[0]), maximum, rate, uses[0].now, uses[1..]))
  }

  function After(s: State, maximum: nat, rate: nat, uses: seq<Use>): State
    decreases |uses|
  {
    if uses == [] then s else After(s.Used(maximum, rate, uses[0]), maximum, rate, uses[1..])
  }

  function Spent(uses: seq<Use>): nat {
    if uses == [] then 0 else uses[0].bytes + Spent(uses[1..])
  }

  function End(clock: nat, uses: seq<Use>): nat {
    if uses == [] then clock else uses[|uses| - 1].now
  }

  /** However the tick counter wraps, a refill never counts more ticks than passed since the bucket
      was last looked at. */
  lemma ElapsedAtMost(last: tick, clock: nat, now: nat)
    requires clock <= now && Elapsed(last, clock % TICKS) == 0
    ensures Elapsed(last, now % TICKS) <= now - clock
    ensures Elapsed(last, now % TICKS) > 0 ==> Elapsed(now % TICKS, now % TICKS) == 0
  {
    var q0, r0, q1, r1 := clock / TICKS, clock % TICKS, now / TICKS, now % TICKS;
    if now - clock < TICKS {
      assert q1 == q0 || q1 == q0 + 1;
      Reduce(r0 - last);
      Reduce(r1 - last);
    }
  }

  /** The difference of two tick counters. */
  lemma Reduce(d: int)
    requires 0 - TICKS < d < TICKS
    ensures d % TICKS == if d < 0 then d + TICKS else d
  {
  }

  lemma MulLe(n: nat, k: nat, rate: nat)
    requires n <= k
    ensures n * rate <= rate * k
  {
  }

  lemma FilledWithin(s: State, maximum: nat, rate: nat, clock: nat, now: nat)
    requires 0 <= s.limit <= maximum && 1 <= rate <= maximum <= SSIZE_MAX && clock <= now && s.Settled(clock)
    ensures var f := s.Filled(maximum, rate, now);
            0 <= f.limit <= maximum && f.limit <= s.limit + rate * (now - clock) && f.Settled(now)
  {
    hide Elapsed, Refill, ToWord;
    ElapsedAtMost(s.last, clock, now);
    var n := Elapsed(s.last, now % TICKS);
    MulLe(n, now - clock, rate);
    if n > 0 {
      RefillExact(s.limit, maximum, rate, n);
      MulLe(1, n, rate);
    }
  }

  /** What was spent, and what is left, is covered by what was there and what the ticks brought. */
  lemma {:induction false} Envelope(s: State, maximum: nat, rate: nat, clock: nat, uses: seq<Use>)
    requires 0 <= s.limit <= maximum && 1 <= rate <= maximum <= SSIZE_MAX && s.Settled(clock)
    requires Granted(s, maximum, rate, clock, uses)
    ensures 0 <= After(s, maximum, rate, uses).limit <= maximum && clock <= End(clock, uses)
    ensures After(s, maximum, rate, uses).Settled(End(clock, uses))
    ensures Spent(uses) + After(s, maximum, rate, uses).limit <= s.limit + rate * (End(clock, uses) - clock)
    decreases |uses|
  {
    if uses != [] {
      var now, rest := uses[0].now, uses[1..];
      FilledWithin(s, maximum, rate, clock, now);
      Envelope(s.Used(maximum, rate, uses[0]), maximum, rate, now, rest);
      assert End(now, rest) == End(clock, uses);
      var e := End(clock, uses);
      assert rate * (e - clock) == rate * (now - clock) + rate * (e - now);
    }
  }

  lemma FirstUse(s: State, maximum: nat, rate: nat, clock: nat, uses: seq<Use>)
    requires uses != [] && Granted(s, maximum, rate, clock, uses)
    ensures clock <= uses[0].now && uses[0].bytes <= s.Filled(maximum, rate, uses[0].now).limit
    ensures Granted(s.Used(maximum, rate, uses[0]), maximum, rate, uses[0].now, uses[1..])
    ensures Spent(uses) == uses[0].bytes + Spent(uses[1..])
  {
  }

  lemma EndTail(clock: nat, uses: seq<Use>)
    requires uses != []
    ensures End(uses[0].now, uses[1..]) == End(clock, uses)
  {
  }

  /** In a window of any length the bucket lets through its maximum plus the rate for every tick. */
  lemma WindowBound(s: State, maximum: nat, rate: nat, clock: nat, start: nat, uses: seq<Use>)
    requires 0 <= s.limit <= maximum && 1 <= rate <= maximum <= SSIZE_MAX && s.Settled(clock)
    requires clock <= start && Granted(s, maximum, rate, clock, uses) && uses != [] && start <= uses[0].now
    ensures Spent(uses) <= maximum + rate * (End(clock, uses) - start)
  {
    hide Elapsed, Refill, State.Filled, After, End, Granted, Spent;
    var now, rest := uses[0].now, uses[1..];
    FirstUse(s, maximum, rate, clock, uses);
    FilledWithin(s, maximum, rate, clock, now);
    Envelope(s.Used(maximum, rate, uses[0]), maximum, rate, now, rest);
    EndTail(clock, uses);
    var f, e := s.Filled(maximum, rate, now), End(clock, uses);
    var t := s.Used(maximum, rate, uses[0]);
    Bounded(uses[0].bytes, Spent(rest), f.limit, After(t, maximum, rate, rest).limit, maximum, rate, e - now,
        e - start);
  }

  lemma Bounded(bytes: nat, rest: nat, filled: int, left: nat, maximum: nat, rate: nat, a: nat, b: nat)
    requires rest + left <= filled - bytes + rate * a && filled <= maximum && a <= b
    ensures bytes + rest <= maximum + rate * b
  {
    MulLe(a, b, rate);
    assert a * rate == rate * a;
  }

  lemma {:induction false} GrantedSplit(s: State, maximum: nat, rate: nat, clock: nat, uses: seq<Use>, a: nat)
    requires a <= |uses| && Granted(s, maximum, rate, clock, uses)
    ensures Granted(s, maximum, rate, clock, uses[..a])
    ensures Granted(After(s, maximum, rate, uses[..a]), maximum, rate, End(clock, uses[..a]), uses[a..])
    decreases a
  {
    hide State.Filled;
    if a > 0 {
      var now := uses[0].now;
      GrantedSplit(s.Used(maximum, rate, uses[0]), maximum, rate, now, uses[1..], a - 1);
      assert uses[..a][1..] == uses[1..][..a - 1] && uses[1..][a - 1..] == uses[a..];
      EndTail(clock, uses[..a]);
    } else {
      assert uses[0..] == uses;
    }
  }

  lemma {:induction false} GrantedPrefix(s: State, maximum: nat, rate: nat, clock: nat, uses: seq<Use>, k: nat)
    requires k <= |uses| && Granted(s, maximum, rate, clock, uses)
    ensures Granted(s, maximum, rate, clock, uses[..k])
  {
    GrantedSplit(s, maximum, rate, clock, uses, k);
  }

  /** The same for every window inside a run: the uses from the a-th to the b-th, in a window that begins
      after the use before them. */
  lemma WindowInRun(s: State, maximum: nat, rate: nat, clock: nat, uses: seq<Use>, a: nat, b: nat, start: nat)
    requires 0 <= s.limit <= maximum && 1 <= rate <= maximum <= SSIZE_MAX && s.Settled(clock)
    requires Granted(s, maximum, rate, clock, uses) && a < b <= |uses|
    requires End(clock, uses[..a]) <= start <= uses[a].now
    ensures Spent(uses[a..b]) <= maximum + rate * (uses[b - 1].now - start)
  {
    hide Elapsed, Refill, State.Filled, After, Granted, Spent, State.Settled;
    GrantedSplit(s, maximum, rate, clock, uses, a);
    Envelope(s, maximum, rate, clock, uses[..a]);
    var t, c := After(s, maximum, rate, uses[..a]), End(clock, uses[..a]);
    GrantedPrefix(t, maximum, rate, c, uses[a..], b - a);
    assert uses[a..][..b - a] == uses[a..b];
    WindowBound(t, maximum, rate, c, start, uses[a..b]);
  }
}
