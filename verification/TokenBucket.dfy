/** The token bucket: an update that avoids overflow, over machine words that wrap. */
module TokenBucket {
  const WORD: int := 0x1_0000_0000_0000_0000
  const SSIZE_MAX: int := 0x7fff_ffff_ffff_ffff
  const TICK: int := 0x1_0000_0000
  const INT_MAX: int := 0x7fff_ffff

  type Tick = x: int | 0 <= x < TICK

  /** One direction of a bucket: its configuration, and its state. */
  datatype Cfg = Cfg(rate: nat, maximum: nat)
  datatype Bucket = Bucket(limit: int, lastUpdated: Tick)

  /** What ev_token_bucket_cfg_new accepts. */
  predicate CfgOk(cfg: Cfg)
  {
    1 <= cfg.rate <= cfg.maximum <= SSIZE_MAX
  }

  /** Conversion to size_t and back to ev_ssize_t. */
  function Unsigned(x: int): (r: int)
    ensures 0 <= r < WORD
  {
    x % WORD
  }

  function Signed(x: int): int
  {
    var u := Unsigned(x);
    if u > SSIZE_MAX then u - WORD else u
  }

  /** Signed and unsigned words agree on what fits both ways. */
  lemma SignedExact(x: int)
    requires -SSIZE_MAX - 1 <= x <= SSIZE_MAX
    ensures Signed(x) == x && Signed(Unsigned(x)) == x
  {
    if x < 0 {
      assert x % WORD == x + WORD;
    }
  }

  function Ticks(last: Tick, now: Tick): (n: Tick)
  {
    (now - last) % TICK
  }

  /** The limit after `n` ticks, in the machine's arithmetic. */
  function Refill(cfg: Cfg, limit: int, n: int): int
    requires n > 0
  {
    if Unsigned(cfg.maximum - limit) / n < cfg.rate then cfg.maximum
    else Signed(limit + Unsigned(n * cfg.rate))
  }

  function Min(a: int, b: int): int
  {
    if a < b then a else b
  }

  lemma QuotientLess(a: int, n: int, rate: int)
    requires n > 0 && a >= 0
    ensures a / n < rate <==> a < n * rate
  {
    var q := a / n;
    assert a == n * q + a % n;
    if q < rate {
      assert n * (q + 1) <= n * rate;
    } else {
      assert n * q >= n * rate;
    }
  }

  /** The guarded update is exactly the naive one, clipped, and nothing wraps. */
  lemma RefillIsClippedSum(cfg: Cfg, limit: int, n: int)
    requires CfgOk(cfg) && 0 < n <= INT_MAX && -SSIZE_MAX - 1 <= limit <= cfg.maximum
    ensures Refill(cfg, limit, n) == Min(cfg.maximum, limit + n * cfg.rate)
  {
    QuotientLess(cfg.maximum - limit, n, cfg.rate);
    assert Unsigned(cfg.maximum - limit) == cfg.maximum - limit;
    if !(Unsigned(cfg.maximum - limit) / n < cfg.rate) {
      assert 0 <= n * cfg.rate <= cfg.maximum - limit;
      assert Unsigned(n * cfg.rate) == n * cfg.rate;
      SignedExact(limit + n * cfg.rate);
    }
  }

  // ---------- The bucket as updated in place ----------

  /** struct ev_token_bucket, one direction beside the other. */
  class TokenBuckets {
    var readLimit: int
    var writeLimit: int
    var lastUpdated: Tick

    /** ev_token_bucket_init for a new bucket. */
    constructor (read: Cfg, write: Cfg, now: Tick)
      ensures readLimit == read.rate && writeLimit == write.rate && lastUpdated == now
    {
      readLimit, writeLimit, lastUpdated := read.rate, write.rate, now;
    }

    /** ev_token_bucket_init on a bucket in use: limits are only clipped downwards. */
    method Reinit(read: Cfg, write: Cfg)
      modifies `readLimit, `writeLimit
      ensures readLimit == Min(read.maximum, old(readLimit)) && writeLimit == Min(write.maximum, old(writeLimit))
    {
      if readLimit > read.maximum {
        readLimit := read.maximum;
      }
      if writeLimit > write.maximum {
        writeLimit := write.maximum;
      }
    }

    /** What bufferevent_decrement_read_limit does to the bucket; the decrement may be negative. */
    method DecrementRead(decr: int)
      requires -SSIZE_MAX - 1 <= readLimit - decr <= SSIZE_MAX
      modifies `readLimit
      ensures readLimit == old(readLimit) - decr
    {
      readLimit := readLimit - decr;
    }

    /** ev_token_bucket_update. */
    method Update(read: Cfg, write: Cfg, now: Tick) returns (r: int)
      modifies this
      ensures r == if Counts(Ticks(old(lastUpdated), now)) then 1 else 0
      ensures Bucket(readLimit, lastUpdated) == Updated(read, Bucket(old(readLimit), old(lastUpdated)), now)
      ensures Bucket(writeLimit, lastUpdated) == Updated(write, Bucket(old(writeLimit), old(lastUpdated)), now)
    {
      var n := (now - lastUpdated) % TICK;
      if n == 0 || n > INT_MAX {
        return 0;
      }
      if Unsigned(read.maximum - readLimit) / n < read.rate {
        readLimit := read.maximum;
      } else {
        readLimit := Signed(readLimit + Unsigned(n * read.rate));
      }
      if Unsigned(write.maximum - writeLimit) / n < write.rate {
        writeLimit := write.maximum;
      } else {
        writeLimit := Signed(writeLimit + Unsigned(n * write.rate));
      }
      lastUpdated := now;
      r := 1;
    }
  }

  /** Some ticks happened, and time did not roll back. */
  predicate Counts(n: Tick)
  {
    0 < n <= INT_MAX
  }

  /** The bucket after an update at `now`. */
  function Updated(cfg: Cfg, b: Bucket, now: Tick): Bucket
  {
    if Counts(Ticks(b.lastUpdated, now)) then Bucket(Refill(cfg, b.limit, Ticks(b.lastUpdated, now)), now) else b
  }

  // ---------- Runs ----------

  /** An update when the true tick count is `now`, or `bytes` bytes charged to the bucket. */
  datatype Act = Update(now: int) | Spend(bytes: nat)

  /** `at` is the true tick count of the last update that counted. */
  datatype Clocked = Clocked(b: Bucket, at: int)

  function Word(now: int): Tick
  {
    now % TICK
  }

  function Step(cfg: Cfg, c: Clocked, a: Act): Clocked
  {
    match a
    case Spend(n) => c.(b := c.b.(limit := c.b.limit - n))
    case Update(now) =>
      if Counts(Ticks(c.b.lastUpdated, Word(now))) then Clocked(Updated(cfg, c.b, Word(now)), now) else c
  }

  function Run(cfg: Cfg, c: Clocked, acts: seq<Act>): Clocked
    decreases |acts|
  {
    if acts == [] then c else Run(cfg, Step(cfg, c, acts[0]), acts[1..])
  }

  function Spent(acts: seq<Act>): nat
  {
    if acts == [] then 0 else (if acts[0].Spend? then acts[0].bytes else 0) + Spent(acts[1..])
  }

  /** The clock may stand still or run back, but not by more than 2^31 ticks. */
  predicate SaneClock(cfg: Cfg, c: Clocked, acts: seq<Act>)
    decreases |acts|
  {
    acts == [] ||
    ((acts[0].Update? ==> acts[0].now + INT_MAX + 1 >= c.at) && SaneClock(cfg, Step(cfg, c, acts[0]), acts[1..]))
  }

  /** Across wrap-around the word difference never exceeds the true one, and equals it for gaps that fit. */
  lemma WordTicks(at: int, now: int)
    requires now + INT_MAX + 1 >= at
    ensures Counts(Ticks(Word(at), Word(now))) ==> now > at && Ticks(Word(at), Word(now)) <= now - at
    ensures 0 <= now - at < TICK ==> Ticks(Word(at), Word(now)) == now - at
  {
    var n := Ticks(Word(at), Word(now));
    var k := (now - at - n) / TICK;
    SameRemainder(at, now);
    assert n == (now - at) % TICK;
    if now < at {
      assert (now - at) % TICK == now - at + TICK;
    }
  }

  lemma SameRemainder(at: int, now: int)
    ensures (Word(now) - Word(at)) % TICK == (now - at) % TICK
  {
    var a, b := at / TICK, now / TICK;
    assert now - at == (Word(now) - Word(at)) + TICK * (b - a);
    AddMultiple(Word(now) - Word(at), b - a);
  }

  lemma AddMultiple(x: int, k: int)
    ensures (x + TICK * k) % TICK == x % TICK
  {
    var q, q' := x / TICK, (x + TICK * k) / TICK;
    assert TICK * (q' - q - k) == x % TICK - (x + TICK * k) % TICK;
  }

  ghost predicate InRange(cfg: Cfg, c: Clocked, budget: int)
  {
    && CfgOk(cfg) && c.b.lastUpdated == Word(c.at)
    && -SSIZE_MAX - 1 + budget <= c.b.limit <= cfg.maximum
  }

  lemma StepConserves(cfg: Cfg, c: Clocked, a: Act, budget: nat)
    requires InRange(cfg, c, budget) && (a.Spend? ==> a.bytes <= budget)
    requires a.Update? ==> a.now + INT_MAX + 1 >= c.at
    ensures var r := Step(cfg, c, a);
      && InRange(cfg, r, if a.Spend? then budget - a.bytes else budget) && r.at >= c.at
      && (if a.Spend? then a.bytes else 0) + r.b.limit <= c.b.limit + cfg.rate * (r.at - c.at)
  {
    if a.Spend? {
      assert cfg.rate * 0 == 0;
    } else if Counts(Ticks(c.b.lastUpdated, Word(a.now))) {
      UpdateConserves(cfg, c.b.limit, Ticks(c.b.lastUpdated, Word(a.now)), c.at, a.now);
    }
  }

  lemma UpdateConserves(cfg: Cfg, limit: int, n: Tick, at: int, now: int)
    requires CfgOk(cfg) && -SSIZE_MAX - 1 <= limit <= cfg.maximum && Counts(n)
    requires n == Ticks(Word(at), Word(now)) && now + INT_MAX + 1 >= at
    ensures at < now && limit <= Refill(cfg, limit, n) <= cfg.maximum
    ensures Refill(cfg, limit, n) <= limit + cfg.rate * (now - at)
  {
    WordTicks(at, now);
    RefillIsClippedSum(cfg, limit, n);
    TimesMore(cfg.rate, n, now - at);
  }

  lemma TimesMore(rate: nat, n: int, m: int)
    requires 0 <= n <= m
    ensures 0 <= n * rate <= rate * m
  {
    assert rate * m - n * rate == rate * (m - n);
  }

  /** Over any run: the bytes charged plus the limit left never exceed the limit at the start plus the
      rate times the ticks that passed, and the limit never exceeds the maximum. */
  lemma {:induction false} BandwidthConserved(cfg: Cfg, c: Clocked, acts: seq<Act>, budget: nat)
    requires InRange(cfg, c, budget) && Spent(acts) <= budget && SaneClock(cfg, c, acts)
    ensures var r := Run(cfg, c, acts);
      && c.at <= r.at && r.b.limit <= cfg.maximum
      && Spent(acts) + r.b.limit <= c.b.limit + cfg.rate * (r.at - c.at)
    decreases |acts|
  {
    if acts != [] {
      var d := Step(cfg, c, acts[0]);
      StepConserves(cfg, c, acts[0], budget);
      BandwidthConserved(cfg, d, acts[1..], if acts[0].Spend? then budget - acts[0].bytes else budget);
      var r := Run(cfg, c, acts);
      assert cfg.rate * (d.at - c.at) + cfg.rate * (r.at - d.at) == cfg.rate * (r.at - c.at);
    }
  }

  // ---------- Above the maximum ----------

  /** The limit plus the ticks' worth, as it comes out of the words when it does not fit them. */
  lemma Wrapped(max: int, limit: int, added: int)
    requires 1 <= max < limit <= SSIZE_MAX && 0 <= added <= WORD + max - limit
    ensures Signed(limit + added) == max <==> added == WORD + max - limit
  {
    var sum := limit + added;
    if sum < WORD {
      assert Unsigned(sum) == sum;
    } else {
      assert sum % WORD == sum - WORD;
    }
  }

  /** The guard subtracts in size_t, so a limit above the maximum makes it a test against almost 2^64: then the update is
      the clipped sum if and only if that many bytes are due at once. */
  lemma ClippedIff(cfg: Cfg, limit: int, n: int)
    requires CfgOk(cfg) && 0 < n <= INT_MAX && -SSIZE_MAX - 1 <= limit <= SSIZE_MAX
    ensures Refill(cfg, limit, n) == Min(cfg.maximum, limit + n * cfg.rate)
       <==> limit <= cfg.maximum || n * cfg.rate >= WORD - (limit - cfg.maximum)
  {
    if limit <= cfg.maximum {
      RefillIsClippedSum(cfg, limit, n);
    } else {
      var room, added := Unsigned(cfg.maximum - limit), n * cfg.rate;
      assert room == cfg.maximum - limit + WORD;
      TimesMore(cfg.rate, 0, n);
      assert added == cfg.rate * n;
      QuotientLess(room, n, cfg.rate);
      if added <= room {
        assert Unsigned(added) == added;
        Wrapped(cfg.maximum, limit, added);
      }
    }
  }

  /** A caller may refill a bucket by hand: from a new bucket, one negative decrement and one tick later the limit stands
      above the maximum, and grows with every tick. */
  method ManualRefill(cfg: Cfg, now: Tick) returns (limit: int)
    requires CfgOk(cfg) && 2 * cfg.rate + cfg.maximum <= SSIZE_MAX && now + 1 < TICK
    ensures limit == cfg.maximum + 2 * cfg.rate > cfg.maximum
  {
    var b := new TokenBuckets(cfg, cfg, now);
    b.DecrementRead(0 - cfg.maximum);
    var _ := b.Update(cfg, cfg, now + 1);
    limit := b.readLimit;
    OneTick(cfg, cfg.rate + cfg.maximum, now);
  }

  lemma OneTick(cfg: Cfg, limit: int, now: Tick)
    requires CfgOk(cfg) && cfg.maximum < limit <= SSIZE_MAX - cfg.rate && now + 1 < TICK
    ensures Updated(cfg, Bucket(limit, now), now + 1) == Bucket(limit + cfg.rate, now + 1)
  {
    assert Ticks(now, now + 1) == 1;
    assert Unsigned(cfg.maximum - limit) == cfg.maximum - limit + WORD;
    SignedExact(limit + cfg.rate);
  }
}
