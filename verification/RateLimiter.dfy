/**
 The per-requester limiter (ratelimit.go): a bounded table of token buckets with eviction.
 */
module RateLimiter {
  import opened Common
  import opened TokenBucket

  type Table = map<string, Bucket>

  /** The whole nanoseconds of a duration given in fractional ones, rounded towards zero. */
  function Truncated(x: real): int {
    if x >= 0.0 then x.Floor else -((-x).Floor)
  }

  /** How long an empty bucket takes to fill up, in whole nanoseconds. */
  function FillTime(l: Limits): int
    requires l.rate > 0.0
  {
    Truncated(l.burst / l.rate * 1_000_000_000.0)
  }

  function IdleTime(l: Limits): int
    requires l.rate > 0.0
  {
    FillTime(l) * 2
  }

  /** Twice the time that fills an empty bucket, to within two nanoseconds. */
  lemma IdleTimeIsTwiceTheFill(l: Limits)
    requires l.rate > 0.0 && l.burst >= 0.0
    ensures IdleTime(l) as real <= 2.0 * (l.burst / l.rate * 1_000_000_000.0) < IdleTime(l) as real + 2.0
  {
  }

  function Survivors(m: Table, now: int, idle: int): set<string> {
    set k | k in m && !(now - m[k].last > idle)
  }

  /** Everything an eviction may leave of a full table, whatever order the map is iterated in. */
  ghost predicate Evicted(m: Table, now: int, idle: int, max: int, kept: Table) {
    && kept.Keys <= Survivors(m, now, idle)
    && (forall k :: k in kept ==> kept[k] == m[k])
    && |kept| == if |Survivors(m, now, idle)| < max then |Survivors(m, now, idle)| else if max > 0 then max - 1 else 0
  }

  ghost predicate Room(m: Table, now: int, idle: int, max: int, kept: Table) {
    if |m| >= max then Evicted(m, now, idle, max, kept) else kept == m
  }

  /** One call of Allow: from table m to table next, with the given answer. */
  ghost predicate Step(m: Table, key: string, now: int, next: Table, ok: bool, l: Limits, max: int)
    requires l.rate > 0.0
  {
    if key in m then
      next == m[key := Take(m[key], now, l).0] && ok == Take(m[key], now, l).1
    else
      ok && exists kept :: Room(m, now, IdleTime(l), max, kept) && next == kept[key := Fresh(now, l)]
  }

  // ---------- the object ----------

  class Cell {
    var tokens: real
    var last: int

    constructor (tokens: real, last: int)
      ensures this.tokens == tokens && this.last == last
    {
      this.tokens, this.last := tokens, last;
    }
  }

  class RateLimiter {
    var buckets: map<string, Cell>
    ghost var table: Table  // what the buckets hold
    const rate: real
    const burst: real
    const max: int

    ghost predicate Valid()
      reads this, buckets.Values
    {
      && rate > 0.0
      && table.Keys == buckets.Keys
      && (forall k :: k in buckets ==> table[k] == Bucket(buckets[k].tokens, buckets[k].last))
      && (forall k, k' :: k in buckets && k' in buckets && k != k' ==> buckets[k] != buckets[k'])
    }

    function Lim(): Limits {
      Limits(rate, burst)
    }

    constructor (rate: real, burst: real, max: int)
      requires rate > 0.0
      ensures Valid() && table == map[]
      ensures this.rate == rate && this.burst == burst && this.max == max
    {
      this.rate, this.burst, this.max := rate, burst, max;
      buckets, table := map[], map[];
    }

    method Allow(key: string, now: int) returns (ok: bool)
      requires Valid()
      modifies this, buckets.Values
      ensures Valid() && fresh(buckets.Values - old(buckets.Values))
      ensures Step(old(table), key, now, table, ok, Lim(), max)
    {
      if key !in buckets {
        MakeRoom(now);
        Open(key, now);
        return true;
      }
      ok := Draw(key, now);
    }

    method MakeRoom(now: int)
      requires Valid()
      modifies this`buckets, this`table
      ensures Valid() && SubMap(buckets, old(buckets))
      ensures Room(old(table), now, IdleTime(Lim()), max, table)
    {
      assert |table| == |table.Keys| == |buckets.Keys| == |buckets|;
      if |buckets| >= max {
        EvictLocked(now, IdleTime(Lim()));
      }
    }

    /** A new bucket, which has paid for the call that opens it. */
    method Open(key: string, now: int)
      requires Valid() && key !in buckets
      modifies this`buckets, this`table
      ensures Valid() && fresh(buckets.Values - old(buckets.Values))
      ensures table == old(table)[key := Fresh(now, Lim())]
    {
      var cell := new Cell(burst - 1.0, now);
      buckets := buckets[key := cell];
      table := table[key := Fresh(now, Lim())];
    }

    /** A call on an existing bucket, updated in place. */
    method Draw(key: string, now: int) returns (ok: bool)
      requires Valid() && key in buckets
      modifies this`table, buckets[key]
      ensures Valid()
      ensures table == old(table)[key := Take(old(table)[key], now, Lim()).0]
      ensures ok == Take(old(table)[key], now, Lim()).1
    {
      var b := buckets[key];
      table := table[key := Take(table[key], now, Lim()).0];
      b.tokens := b.tokens + (now - b.last) as real / 1_000_000_000.0 * rate;
      if b.tokens > burst {
        b.tokens := burst;
      }
      b.last := now;
      if b.tokens < 1.0 {
        return false;
      }
      b.tokens := b.tokens - 1.0;
      return true;
    }

    /** Idle buckets go first, then buckets in the order the iteration happens to yield them. */
    method EvictLocked(now: int, idle: int)
      requires Valid()
      modifies this`buckets, this`table
      ensures Valid() && SubMap(buckets, old(buckets))
      ensures Evicted(old(table), now, idle, max, table)
    {
      DropIdle(now, idle);
      DropToFit();
    }

    method DropIdle(now: int, idle: int)
      requires Valid()
      modifies this`buckets, this`table
      ensures Valid() && SubMap(buckets, old(buckets))
      ensures SubMap(table, old(table)) && table.Keys == Survivors(old(table), now, idle)
    {
      ghost var cells, full := buckets, table;
      var todo := buckets.Keys;
      while todo != {}
        invariant table == full && SubMap(buckets, cells)
        invariant forall k :: k in todo ==> k in buckets
        invariant forall k :: k in full ==> (k in buckets <==> k in todo || !(now - full[k].last > idle))
        decreases |todo|
      {
        var k :| k in todo;
        todo := todo - {k};
        assert buckets[k] == cells[k] && buckets[k].last == full[k].last;
        if now - buckets[k].last > idle {
          buckets := buckets - {k};
        }
      }
      assert buckets.Keys == Survivors(full, now, idle);
      table := Restrict(full, buckets.Keys);
    }

    method DropToFit()
      requires Valid()
      modifies this`buckets, this`table
      ensures Valid() && SubMap(buckets, old(buckets)) && SubMap(table, old(table))
      ensures |table| == if |old(table)| < max then |old(table)| else if max > 0 then max - 1 else 0
    {
      ghost var cells := buckets;
      assert |table| == |table.Keys| == |buckets.Keys| == |buckets|;
      var todo := buckets.Keys;
      while todo != {}
        invariant table == old(table) && todo == buckets.Keys && SubMap(buckets, cells)
        invariant |buckets| == |cells| || |buckets| >= max - 1
        decreases |todo|
      {
        if |buckets| < max {
          break;
        }
        var k :| k in todo;
        todo := todo - {k};
        buckets := buckets - {k};
      }
      table := Restrict(table, buckets.Keys);
      assert table.Keys == buckets.Keys;
      assert |table| == |table.Keys| == |buckets.Keys| == |buckets|;
    }
  }

  ghost function Restrict(t: Table, keys: set<string>): (r: Table)
    ensures SubMap(r, t) && r.Keys == t.Keys * keys
  {
    map k | k in t && k in keys :: t[k]
  }

  ghost predicate SubMap<K, V>(a: map<K, V>, b: map<K, V>) {
    forall k :: k in a ==> k in b && a[k] == b[k]
  }

  /**
   What an eviction leaves, bucket by bucket: no idle bucket; every other one, unchanged, if fewer than max of
   these remain; else max - 1 of them.
   */
  lemma EvictionWrittenOut(m: Table, now: int, idle: int, max: int, kept: Table)
    requires Evicted(m, now, idle, max, kept)
    ensures forall k :: k in kept ==> k in m && kept[k] == m[k] && now - m[k].last <= idle
    ensures var busy := set k | k in m && now - m[k].last <= idle;
            if |busy| < max then kept.Keys == busy else |kept| == if max > 0 then max - 1 else 0
  {
    var busy := set k | k in m && now - m[k].last <= idle;
    assert Survivors(m, now, idle) == busy;
    assert |kept| == |kept.Keys|;
    if |busy| < max {
      SubsetSize(kept.Keys, busy);
    }
  }

  // ---------- the table is bounded ----------

  lemma StepIsBounded(m: Table, key: string, now: int, next: Table, ok: bool, l: Limits, max: int)
    requires l.rate > 0.0 && Step(m, key, now, next, ok, l, max)
    requires |m| <= if max > 1 then max else 1
    ensures |next| <= if max > 1 then max else 1
  {
    if key in m {
      assert next.Keys == m.Keys;
      assert |next| == |next.Keys| && |m| == |m.Keys|;
    } else {
      var kept :| Room(m, now, IdleTime(l), max, kept) && next == kept[key := Fresh(now, l)];
      assert next.Keys == kept.Keys + {key};
      assert |next| == |next.Keys| && |kept| == |kept.Keys|;
    }
  }

  // ---------- runs ----------

  datatype CallAt = CallAt(key: string, now: int)

  /** tables[i] is the table before call i; answers[i] is what call i was told. */
  ghost predicate IsRun(calls: seq<CallAt>, tables: seq<Table>, answers: seq<bool>, l: Limits, max: int)
    requires l.rate > 0.0
  {
    && |tables| == |calls| + 1 && |answers| == |calls|
    && tables[0] == map[]
    && forall i :: 0 <= i < |calls| ==> Step(tables[i], calls[i].key, calls[i].now, tables[i + 1], answers[i], l, max)
  }

  lemma {:induction false} RunIsBounded(
      calls: seq<CallAt>, tables: seq<Table>, answers: seq<bool>, l: Limits, max: int, i: nat)
    requires l.rate > 0.0 && IsRun(calls, tables, answers, l, max) && i <= |calls|
    ensures |tables[i]| <= if max > 1 then max else 1
  {
    if i > 0 {
      RunIsBounded(calls, tables, answers, l, max, i - 1);
      StepIsBounded(tables[i - 1], calls[i - 1].key, calls[i - 1].now, tables[i], answers[i - 1], l, max);
    }
  }

  // ---------- the limiter that never evicts ----------

  function FreeStep(m: Table, c: CallAt, l: Limits): (Table, bool) {
    if c.key in m then
      var (b, ok) := Take(m[c.key], c.now, l);
      (m[c.key := b], ok)
    else
      (m[c.key := Fresh(c.now, l)], true)
  }

  /** The table after the first n calls, from table m on, when nothing is ever evicted. */
  function TableFrom(m: Table, calls: seq<CallAt>, n: nat, l: Limits): Table
    requires n <= |calls|
  {
    if n == 0 then m else FreeStep(TableFrom(m, calls, n - 1, l), calls[n - 1], l).0
  }

  function AnswerFrom(m: Table, calls: seq<CallAt>, n: nat, l: Limits): bool
    requires n < |calls|
  {
    FreeStep(TableFrom(m, calls, n, l), calls[n], l).1
  }

  /** The unbounded limiter's table after the first n calls. */
  function FreeTable(calls: seq<CallAt>, n: nat, l: Limits): Table
    requires n <= |calls|
  {
    TableFrom(map[], calls, n, l)
  }

  function FreeAnswer(calls: seq<CallAt>, n: nat, l: Limits): bool
    requires n < |calls|
  {
    AnswerFrom(map[], calls, n, l)
  }

  /** Stamps run back by no more than skew: each call reads its time before it waits for the lock. */
  predicate SkewedBy(calls: seq<CallAt>, skew: int) {
    forall i, j :: 0 <= i <= j < |calls| ==> calls[i].now - skew <= calls[j].now
  }

  /** Whenever call i finds the table full, dropping the idle buckets makes room. */
  predicate IdlePassSuffices(tables: seq<Table>, calls: seq<CallAt>, l: Limits, max: int)
    requires l.rate > 0.0 && |tables| == |calls| + 1
  {
    forall i :: 0 <= i < |calls| && calls[i].key !in tables[i] && |tables[i]| >= max
                ==> |Survivors(tables[i], calls[i].now, IdleTime(l))| < max
  }

  /** A bucket that would be full at time t or later: no different from a fresh one. */
  predicate Full(b: Bucket, t: int, l: Limits) {
    b.tokens + Earned(t - b.last, l) >= l.burst
  }

  /** Every bucket of m that is not in next would be full at time t. */
  predicate DropsOnlyFull(m: Table, next: Table, t: int, l: Limits) {
    forall k :: k in m && k !in next ==> Full(m[k], t, l)
  }

  /** The bucket would be full at every call on its key from call `from` on. */
  predicate FullForTheRest(b: Bucket, key: string, calls: seq<CallAt>, from: nat, l: Limits) {
    forall j :: from <= j < |calls| && calls[j].key == key ==> Full(b, calls[j].now, l)
  }

  /** So would every bucket that the step from m to next drops. */
  predicate DropsFullForTheRest(m: Table, next: Table, calls: seq<CallAt>, from: nat, l: Limits) {
    forall k :: k in m && k !in next ==> FullForTheRest(m[k], k, calls, from, l)
  }

  /** Every bucket that the run drops would be full at every stamp of its key still to come, however these run. */
  predicate RunDropsOnlyFull(tables: seq<Table>, calls: seq<CallAt>, l: Limits)
    requires |tables| == |calls| + 1
  {
    forall i :: 0 <= i < |calls| ==> DropsFullForTheRest(tables[i], tables[i + 1], calls, i + 1, l)
  }

  /** m agrees with the unbounded table u, up to buckets that would be full at the rest of the calls. */
  ghost predicate Agrees(m: Table, u: Table, calls: seq<CallAt>, from: nat, l: Limits) {
    SubMap(m, u) && DropsFullForTheRest(u, m, calls, from, l)
  }

  lemma EarnedMonotone(d: int, e: int, l: Limits)
    requires d <= e && l.rate > 0.0
    ensures Earned(d, l) <= Earned(e, l)
  {
    EarnedAdds(d, e - d, l);
    var x := (e - d) as real / 1_000_000_000.0;
    assert x * l.rate >= 0.0;
  }

  /** What more than the fill time earns is a full bucket, also after the fill time was rounded. */
  lemma FillTimeFills(d: int, l: Limits)
    requires l.rate > 0.0 && l.burst >= 1.0 && d > FillTime(l)
    ensures Earned(d, l) >= l.burst && FillTime(l) >= 0
  {
    var x := l.burst / l.rate * 1_000_000_000.0;
    QuotientTimesRate(l.burst, l.rate);
    assert x >= 0.0;
    var q := x.Floor;
    assert q as real <= x < q as real + 1.0;
    assert d as real >= x;
    var y := d as real / 1_000_000_000.0;
    assert y >= l.burst / l.rate;
    ScaleBound(y, l.burst / l.rate, l.rate);
  }

  /**
   A bucket is full whenever it is idle exactly when it is full a nanosecond past the idle time: which it is
   unless stamps that ran back have left it owing more than the fill time earns.
   */
  lemma IdleIsFull(b: Bucket, l: Limits)
    requires l.rate > 0.0 && l.burst >= 1.0
    ensures (forall now :: now - b.last > IdleTime(l) ==> Full(b, now, l)) <==> Full(b, b.last + IdleTime(l) + 1, l)
    ensures b.tokens >= -Earned(FillTime(l), l) ==> Full(b, b.last + IdleTime(l) + 1, l)
  {
    var soonest := b.last + IdleTime(l) + 1;
    assert soonest - b.last == IdleTime(l) + 1;
    forall now | now - b.last > IdleTime(l) && Full(b, soonest, l) ensures Full(b, now, l) {
      FullStays(b, soonest, now, l);
    }
    EarnedAdds(FillTime(l) + 1, FillTime(l), l);
    FillTimeFills(FillTime(l) + 1, l);
  }

  lemma FullStays(b: Bucket, t: int, later: int, l: Limits)
    requires l.rate > 0.0 && Full(b, t, l) && t <= later
    ensures Full(b, later, l)
  {
    EarnedMonotone(t - b.last, later - b.last, l);
  }

  lemma QuotientTimesRate(b: real, r: real)
    requires r > 0.0 && b >= 0.0
    ensures b / r * r == b && b / r >= 0.0
  {
  }

  lemma ScaleBound(x: real, y: real, r: real)
    requires x >= y && r > 0.0
    ensures x * r >= y * r
  {
    assert (x - y) * r >= 0.0;
  }

  /** A bucket that has filled up answers, and is left, like a new one. */
  lemma FullTakesLikeFresh(b: Bucket, now: int, l: Limits)
    requires l.burst >= 1.0 && Full(b, now, l)
    ensures Take(b, now, l) == (Fresh(now, l), true)
  {
  }

  lemma FreeStepsAgree(m: Table, u: Table, calls: seq<CallAt>, i: nat, l: Limits)
    requires l.burst >= 1.0 && i < |calls| && Agrees(m, u, calls, i, l)
    ensures FreeStep(m, calls[i], l).1 == FreeStep(u, calls[i], l).1
    ensures Agrees(FreeStep(m, calls[i], l).0, FreeStep(u, calls[i], l).0, calls, i + 1, l)
  {
    var c := calls[i];
    if c.key !in m && c.key in u {
      assert FullForTheRest(u[c.key], c.key, calls, i, l);
      FullTakesLikeFresh(u[c.key], c.now, l);
    }
    forall k | k in FreeStep(u, c, l).0 && k !in FreeStep(m, c, l).0
      ensures FullForTheRest(FreeStep(u, c, l).0[k], k, calls, i + 1, l)
    {
      assert FullForTheRest(u[k], k, calls, i, l);
    }
  }

  lemma StepsAgree(m: Table, u: Table, calls: seq<CallAt>, i: nat, next: Table, ok: bool, l: Limits, max: int)
    requires l.rate > 0.0 && l.burst >= 1.0 && i < |calls| && Agrees(m, u, calls, i, l)
    requires Step(m, calls[i].key, calls[i].now, next, ok, l, max)
    requires DropsFullForTheRest(m, next, calls, i + 1, l)
    ensures ok == FreeStep(u, calls[i], l).1
    ensures Agrees(next, FreeStep(u, calls[i], l).0, calls, i + 1, l)
  {
    FreeStepsAgree(m, u, calls, i, l);
    var free := FreeStep(u, calls[i], l).0;
    forall k | k in free && k !in next ensures FullForTheRest(free[k], k, calls, i + 1, l) {
      assert k in m ==> FullForTheRest(m[k], k, calls, i + 1, l);
    }
  }

  lemma {:induction false} RunAgrees(
      calls: seq<CallAt>, tables: seq<Table>, answers: seq<bool>, l: Limits, max: int, i: nat)
    requires l.rate > 0.0 && l.burst >= 1.0
    requires IsRun(calls, tables, answers, l, max) && RunDropsOnlyFull(tables, calls, l)
    requires i <= |calls|
    ensures Agrees(tables[i], FreeTable(calls, i, l), calls, i, l)
  {
    if i > 0 {
      var k := i - 1;
      RunAgrees(calls, tables, answers, l, max, k);
      assert DropsFullForTheRest(tables[k], tables[k + 1], calls, k + 1, l);
      StepsAgree(tables[k], FreeTable(calls, k, l), calls, k, tables[k + 1], answers[k], l, max);
    }
  }

  /**
   While evictions drop only buckets that are full at the stamps of their key still to come, every call on
   every key is answered as if nothing were ever evicted, in whatever order the stamps come.
   */
  lemma FullEvictionIsUnobservable(
      calls: seq<CallAt>, tables: seq<Table>, answers: seq<bool>, l: Limits, max: int, i: nat)
    requires l.rate > 0.0 && l.burst >= 1.0
    requires IsRun(calls, tables, answers, l, max) && RunDropsOnlyFull(tables, calls, l)
    requires i < |calls|
    ensures answers[i] == FreeAnswer(calls, i, l)
  {
    RunAgrees(calls, tables, answers, l, max, i);
    assert DropsFullForTheRest(tables[i], tables[i + 1], calls, i + 1, l);
    StepsAgree(tables[i], FreeTable(calls, i, l), calls, i, tables[i + 1], answers[i], l, max);
  }

  /**
   So idle eviction is unobservable while the idle pass makes room and stamps run back by no more than a
   quarter of the idle time.
   */
  lemma IdleEvictionIsUnobservable(
      calls: seq<CallAt>, tables: seq<Table>, answers: seq<bool>, l: Limits, max: int, skew: nat, i: nat)
    requires l.rate > 0.0 && l.burst >= 1.0 && SkewedBy(calls, skew) && 4 * skew <= IdleTime(l)
    requires IsRun(calls, tables, answers, l, max) && IdlePassSuffices(tables, calls, l, max)
    requires i < |calls|
    ensures answers[i] == FreeAnswer(calls, i, l)
  {
    IdleRunDropsOnlyFull(calls, tables, answers, l, max, skew);
    FullEvictionIsUnobservable(calls, tables, answers, l, max, i);
  }

  lemma IdleRunDropsOnlyFull(
      calls: seq<CallAt>, tables: seq<Table>, answers: seq<bool>, l: Limits, max: int, skew: nat)
    requires l.rate > 0.0 && l.burst >= 1.0 && SkewedBy(calls, skew) && 4 * skew <= IdleTime(l)
    requires IsRun(calls, tables, answers, l, max) && IdlePassSuffices(tables, calls, l, max)
    ensures RunDropsOnlyFull(tables, calls, l)
  {
    forall i | 0 <= i < |calls| ensures DropsFullForTheRest(tables[i], tables[i + 1], calls, i + 1, l) {
      assert Step(tables[i], calls[i].key, calls[i].now, tables[i + 1], answers[i], l, max);
      forall k | k in tables[i] && k !in tables[i + 1] ensures FullForTheRest(tables[i][k], k, calls, i + 1, l) {
        DroppedIsIdle(tables[i], calls[i], tables[i + 1], answers[i], l, max, k);
        BucketsAreInCredit(calls, tables, answers, l, max, i, k);
        IdleIsFullForTheRest(tables[i][k], k, calls, i, skew, l);
      }
    }
  }

  lemma DroppedIsIdle(m: Table, c: CallAt, next: Table, ok: bool, l: Limits, max: int, k: string)
    requires l.rate > 0.0 && Step(m, c.key, c.now, next, ok, l, max) && k in m && k !in next
    requires c.key !in m && |m| >= max ==> |Survivors(m, c.now, IdleTime(l))| < max
    ensures c.now - m[k].last > IdleTime(l)
  {
    var kept :| Room(m, c.now, IdleTime(l), max, kept) && next == kept[c.key := Fresh(c.now, l)];
    if |m| >= max {
      SubsetSize(kept.Keys, Survivors(m, c.now, IdleTime(l)));
    }
  }

  /** The bucket was last used at one of the first n calls, and owes no more than stamps have run back since another. */
  predicate InCredit(b: Bucket, calls: seq<CallAt>, n: nat, l: Limits)
    requires n <= |calls|
  {
    exists p, q :: 0 <= p <= q < n && CreditSince(b, calls[p].now, calls[q].now, l)
  }

  predicate CreditSince(b: Bucket, since: int, last: int, l: Limits) {
    b.last == last && b.tokens >= Earned(last - since, l)
  }

  lemma DrawKeepsCredit(b: Bucket, calls: seq<CallAt>, n: nat, l: Limits)
    requires l.burst >= 1.0 && n < |calls| && InCredit(b, calls, n, l)
    ensures InCredit(Take(b, calls[n].now, l).0, calls, n + 1, l)
  {
    var p, q :| 0 <= p <= q < n && CreditSince(b, calls[p].now, calls[q].now, l);
    var next := Take(b, calls[n].now, l).0;
    EarnedAdds(b.last - calls[p].now, calls[n].now - b.last, l);
    assert Earned(0, l) == 0.0;
    var since := if Refilled(b, calls[n].now, l) < 1.0 then p else n;
    assert CreditSince(next, calls[since].now, calls[n].now, l);
  }

  lemma {:induction false} BucketsAreInCredit(
      calls: seq<CallAt>, tables: seq<Table>, answers: seq<bool>, l: Limits, max: int, n: nat, key: string)
    requires l.rate > 0.0 && l.burst >= 1.0 && IsRun(calls, tables, answers, l, max)
    requires n <= |calls| && key in tables[n]
    ensures InCredit(tables[n][key], calls, n, l)
  {
    if n > 0 {
      var c := calls[n - 1];
      assert Step(tables[n - 1], c.key, c.now, tables[n], answers[n - 1], l, max);
      if key in tables[n - 1] {
        BucketsAreInCredit(calls, tables, answers, l, max, n - 1, key);
        var p, q :| 0 <= p <= q < n - 1 && CreditSince(tables[n - 1][key], calls[p].now, calls[q].now, l);
        if key == c.key {
          DrawKeepsCredit(tables[n - 1][key], calls, n - 1, l);
        }
      } else {
        assert Earned(0, l) == 0.0;
        assert CreditSince(tables[n][key], calls[n - 1].now, calls[n - 1].now, l);
      }
    }
  }

  /** A bucket that is idle at call i is full at all later calls, if stamps run back by no more than skew. */
  lemma IdleIsFullForTheRest(b: Bucket, key: string, calls: seq<CallAt>, i: nat, skew: nat, l: Limits)
    requires l.rate > 0.0 && l.burst >= 1.0 && SkewedBy(calls, skew) && 4 * skew <= IdleTime(l)
    requires i < |calls| && InCredit(b, calls, i, l) && calls[i].now - b.last > IdleTime(l)
    ensures FullForTheRest(b, key, calls, i + 1, l)
  {
    var p, q :| 0 <= p <= q < i && CreditSince(b, calls[p].now, calls[q].now, l);
    forall j | i + 1 <= j < |calls| ensures Full(b, calls[j].now, l) {
      EarnedAdds(b.last - calls[p].now, calls[j].now - b.last, l);
      assert calls[j].now >= calls[i].now - skew && calls[q].now >= calls[p].now - skew;
      FillTimeFills(calls[j].now - calls[p].now, l);
    }
  }

  /** The shortest witness: one token a second, one at most, and room for two. */
  const ONE := Limits(1.0, 1.0)
  const SECOND := 1_000_000_000
  const LATE: seq<CallAt> :=
    [CallAt("a", 0), CallAt("d", 0), CallAt("b", 3 * SECOND), CallAt("a", SECOND / 2)]

  /** With stamps that run back further it can be observed: an idle bucket is opened anew before it is full. */
  lemma IdleEvictionCanShow() returns (tables: seq<Table>)
    ensures IsRun(LATE, tables, [true, true, true, true], ONE, 2) && IdlePassSuffices(tables, LATE, ONE, 2)
    ensures !FreeAnswer(LATE, 3, ONE)
  {
    var first: Table := map["a" := Fresh(0, ONE)];
    var full: Table := first["d" := Fresh(0, ONE)];
    var late: Table := map["b" := Fresh(3 * SECOND, ONE)];
    tables := [map[], first, full, late, late["a" := Fresh(SECOND / 2, ONE)]];
    assert map[]["a" := Fresh(0, ONE)] == first;
    OpensWithRoom(map[], LATE[0], ONE, 2);
    OpensWithRoom(first, LATE[1], ONE, 2);
    OneFillsInASecond();
    OpensAfterIdlePass(full, LATE[2], ONE, 2);
    OpensWithRoom(late, LATE[3], ONE, 2);
    LateIsRefused();
  }

  lemma OneFillsInASecond()
    ensures IdleTime(ONE) == 2 * SECOND
  {
    assert ONE.burst / ONE.rate * 1_000_000_000.0 == 1_000_000_000.0;
  }

  lemma LateIsRefused()
    ensures !FreeAnswer(LATE, 3, ONE)
  {
    FreeTableHoldsLives(LATE, 3, "a", ONE);
    assert TimesOf(LATE, 0, 1, "a") == [0];
    assert TimesOf(LATE, 0, 3, "a") == [0];
    assert Refilled(Fresh(0, ONE), SECOND / 2, ONE) == 0.5;
  }

  // ---------- exactly which evictions can be observed ----------

  /** Calls stamped t or later, in any order. */
  predicate StampedFrom(calls: seq<CallAt>, t: int) {
    forall i :: 0 <= i < |calls| ==> calls[i].now >= t
  }

  /** No calls stamped t or later are answered differently after m was cut down to kept. */
  ghost predicate Unobservable(m: Table, kept: Table, t: int, l: Limits) {
    forall calls, i: nat :: StampedFrom(calls, t) && i < |calls|
                            ==> AnswerFrom(m, calls, i, l) == AnswerFrom(kept, calls, i, l)
  }

  /**
   With t a bound on the stamps still to come, in whatever order: dropping buckets is unobservable if all of
   them would be full at t; and, the burst being a whole number, only if.
   */
  lemma EvictionIsUnobservableIffFull(m: Table, kept: Table, t: int, l: Limits)
    requires l.rate > 0.0 && l.burst >= 1.0 && SubMap(kept, m)
    ensures DropsOnlyFull(m, kept, t, l) ==> Unobservable(m, kept, t, l)
    ensures l.burst.Floor as real == l.burst && Unobservable(m, kept, t, l) ==> DropsOnlyFull(m, kept, t, l)
  {
    if DropsOnlyFull(m, kept, t, l) {
      forall calls, i: nat | StampedFrom(calls, t) && i < |calls|
        ensures AnswerFrom(m, calls, i, l) == AnswerFrom(kept, calls, i, l)
      {
        ContinuationAgrees(m, kept, t, calls, i, l);
        FreeStepsAgree(TableFrom(kept, calls, i, l), TableFrom(m, calls, i, l), calls, i, l);
      }
    }
    if l.burst.Floor as real == l.burst && !DropsOnlyFull(m, kept, t, l) {
      var k :| k in m && k !in kept && !Full(m[k], t, l);
      DroppedBucketShows(m, kept, k, t, l);
    }
  }

  lemma {:induction false} ContinuationAgrees(
      m: Table, kept: Table, t: int, calls: seq<CallAt>, i: nat, l: Limits)
    requires l.rate > 0.0 && l.burst >= 1.0 && SubMap(kept, m) && DropsOnlyFull(m, kept, t, l)
    requires StampedFrom(calls, t) && i <= |calls|
    ensures Agrees(TableFrom(kept, calls, i, l), TableFrom(m, calls, i, l), calls, i, l)
  {
    if i == 0 {
      forall k, j | k in m && k !in kept && 0 <= j < |calls| ensures Full(m[k], calls[j].now, l) {
        FullStays(m[k], t, calls[j].now, l);
      }
    } else {
      ContinuationAgrees(m, kept, t, calls, i - 1, l);
      FreeStepsAgree(TableFrom(kept, calls, i - 1, l), TableFrom(m, calls, i - 1, l), calls, i - 1, l);
    }
  }

  /** A burst of calls on one key at one time. */
  function Volley(key: string, t: int, n: nat): seq<CallAt> {
    seq(n, _ => CallAt(key, t))
  }

  /** Calls at one time draw a bucket down one token each, as long as there is a whole one. */
  lemma {:induction false} VolleyDraws(m: Table, key: string, t: int, n: nat, i: nat, l: Limits)
    requires key in m && i <= n && i as real <= Refilled(m[key], t, l)
    ensures var u := TableFrom(m, Volley(key, t, n), i, l);
            key in u && Refilled(u[key], t, l) == Refilled(m[key], t, l) - i as real
  {
    assert Earned(0, l) == 0.0;
    if i > 0 {
      VolleyDraws(m, key, t, n, i - 1, l);
    }
  }

  lemma {:induction false} FreshVolleyDraws(m: Table, key: string, t: int, n: nat, i: nat, l: Limits)
    requires key !in m && 0 < i <= n && i as real <= l.burst
    ensures var u := TableFrom(m, Volley(key, t, n), i, l);
            key in u && Refilled(u[key], t, l) == l.burst - i as real
  {
    assert Earned(0, l) == 0.0;
    if i > 1 {
      FreshVolleyDraws(m, key, t, n, i - 1, l);
    } else {
      assert TableFrom(m, Volley(key, t, n), 0, l) == m;
    }
  }

  /** A bucket that is not full refuses a call of a volley that a fresh one still allows. */
  lemma DroppedBucketShows(m: Table, kept: Table, key: string, t: int, l: Limits)
    requires l.rate > 0.0 && l.burst >= 1.0 && l.burst.Floor as real == l.burst
    requires key in m && key !in kept && !Full(m[key], t, l)
    ensures !Unobservable(m, kept, t, l)
  {
    var r := Refilled(m[key], t, l);
    var q: nat := if r < 1.0 then 0 else r.Floor;
    var calls := Volley(key, t, q + 1);
    if q > 0 {
      VolleyDraws(m, key, t, q + 1, q, l);
      assert q + 1 <= l.burst.Floor;
      FreshVolleyDraws(kept, key, t, q + 1, q, l);
    } else {
      assert TableFrom(m, calls, 0, l) == m && TableFrom(kept, calls, 0, l) == kept;
    }
    assert !AnswerFrom(m, calls, q, l);
    assert AnswerFrom(kept, calls, q, l);
    assert StampedFrom(calls, t);
  }

  /** Eviction of a bucket that is not idle can be observed: a spent key that another key pushed out is served again. */
  lemma ArbitraryEvictionIsObservable()
    ensures exists calls: seq<CallAt>, tables: seq<Table>, answers: seq<bool> ::
              && IsRun(calls, tables, answers, Limits(1.0, 1.0), 1) && SkewedBy(calls, 0)
              && |calls| == 3 && answers[2] && !FreeAnswer(calls, 2, Limits(1.0, 1.0))
  {
    var l := Limits(1.0, 1.0);
    var spent := Fresh(0, l);
    var calls := [CallAt("a", 0), CallAt("b", 0), CallAt("a", 0)];
    var tables: seq<Table> := [map[], map["a" := spent], map["b" := spent], map["a" := spent]];
    PushOut(map[], "a", l);
    PushOut(map["a" := spent], "b", l);
    PushOut(map["b" := spent], "a", l);
    assert IsRun(calls, tables, [true, true, true], l, 1);
    assert FreeTable(calls, 1, l) == map["a" := spent];
    assert FreeTable(calls, 2, l) == map["a" := spent, "b" := spent];
    assert Earned(0, l) == 0.0;
    assert !FreeAnswer(calls, 2, l);
  }

  lemma OpensWithRoom(m: Table, c: CallAt, l: Limits, max: int)
    requires l.rate > 0.0 && c.key !in m && |m| < max
    ensures Step(m, c.key, c.now, m[c.key := Fresh(c.now, l)], true, l, max)
  {
    assert Room(m, c.now, IdleTime(l), max, m);
  }

  lemma OpensAfterIdlePass(m: Table, c: CallAt, l: Limits, max: int)
    requires l.rate > 0.0 && c.key !in m && max > 0
    requires |m| >= max && forall k :: k in m ==> c.now - m[k].last > IdleTime(l)
    ensures Step(m, c.key, c.now, map[c.key := Fresh(c.now, l)], true, l, max)
    ensures Survivors(m, c.now, IdleTime(l)) == {}
  {
    var none: Table := map[];
    assert Survivors(m, c.now, IdleTime(l)) == {};
    assert Room(m, c.now, IdleTime(l), max, none);
    assert map[c.key := Fresh(c.now, l)] == none[c.key := Fresh(c.now, l)];
  }

  /** In a table for one bucket, a new key takes the place of whatever was there. */
  lemma PushOut(m: Table, key: string, l: Limits)
    requires l.rate > 0.0 && key !in m && |m| <= 1
    ensures Step(m, key, 0, map[key := Fresh(0, l)], true, l, 1)
  {
    var none: Table := map[];
    assert Room(m, 0, IdleTime(l), 1, none) by {
      if |m| >= 1 {
        var s := Survivors(m, 0, IdleTime(l));
        assert s <= m.Keys;
        assert m.Keys == s + (m.Keys - s) && |m.Keys| == |m|;
      } else {
        assert m == none;
      }
    }
    assert map[key := Fresh(0, l)] == none[key := Fresh(0, l)];
  }

  // ---------- the limiter as a bound on every key's calls ----------

  /** The times of the calls on one key among calls from, ..., n - 1. */
  function TimesOf(calls: seq<CallAt>, from: nat, n: nat, key: string): seq<int>
    requires n <= |calls|
  {
    if n <= from then []
    else if calls[n - 1].key == key then TimesOf(calls, from, n - 1, key) + [calls[n - 1].now]
    else TimesOf(calls, from, n - 1, key)
  }

  /** The calls on one key, among calls m, ..., n - 1, that were allowed. */
  function AllowedCalls(calls: seq<CallAt>, answers: seq<bool>, key: string, m: nat, n: nat): set<nat>
    requires n <= |calls| && n <= |answers|
  {
    set k: nat | m <= k < n && calls[k].key == key && answers[k]
  }

  /** Call i was answered as a bucket answers that was opened no earlier than call from. */
  predicate AnsweredByLife(calls: seq<CallAt>, answers: seq<bool>, from: nat, i: nat, l: Limits)
    requires from <= i < |calls| && i < |answers|
  {
    var times := TimesOf(calls, from, i + 1, calls[i].key);
    |times| > 0 && (answers[i] <==> Allows(times, |times| - 1, l))
  }

  /** Later calls do not change what was allowed. */
  lemma {:induction false} AllowedPrefix(times: seq<int>, t: int, i: nat, j: nat, l: Limits)
    requires i <= j <= |times|
    ensures Allowed(times + [t], i, j, l) == Allowed(times, i, j, l)
    decreases j
  {
    if i < j {
      AllowedPrefix(times, t, i, j - 1, l);
      assert (times + [t])[..j - 1] == times[..j - 1];
    }
  }

  lemma {:induction false} EarlierTimes(calls: seq<CallAt>, from: nat, m: nat, n: nat, key: string)
    requires from <= m <= n <= |calls|
    ensures TimesOf(calls, from, m, key) <= TimesOf(calls, from, n, key)
  {
    if m < n {
      EarlierTimes(calls, from, m, n - 1, key);
    }
  }

  /** Call m on the key comes after the calls on it before m. */
  lemma TimeAt(calls: seq<CallAt>, from: nat, m: nat, n: nat, key: string)
    requires from <= m < n <= |calls| && calls[m].key == key
    ensures var j := |TimesOf(calls, from, m, key)|;
            j < |TimesOf(calls, from, n, key)| && TimesOf(calls, from, n, key)[j] == calls[m].now
  {
    EarlierTimes(calls, from, m + 1, n, key);
  }

  /** Every place in the times of a key is that of one of its calls. */
  lemma {:induction false} CallAtPlace(calls: seq<CallAt>, from: nat, n: nat, key: string, j: nat) returns (m: nat)
    requires from <= n <= |calls| && j < |TimesOf(calls, from, n, key)|
    ensures from <= m < n && calls[m].key == key && |TimesOf(calls, from, m, key)| == j
  {
    if j < |TimesOf(calls, from, n - 1, key)| {
      m := CallAtPlace(calls, from, n - 1, key, j);
    } else {
      m := n - 1;
    }
  }

  /** One more call on the key, or on another. */
  lemma CountGrows(calls: seq<CallAt>, answers: seq<bool>, key: string, m: nat, k: nat)
    requires m <= k < |calls| && k < |answers|
    ensures |AllowedCalls(calls, answers, key, m, k + 1)| ==
            |AllowedCalls(calls, answers, key, m, k)| + if calls[k].key == key && answers[k] then 1 else 0
  {
    var before := AllowedCalls(calls, answers, key, m, k);
    assert AllowedCalls(calls, answers, key, m, k + 1) ==
           if calls[k].key == key && answers[k] then before + {k} else before;
  }

  lemma LifeGrows(calls: seq<CallAt>, answers: seq<bool>, from: nat, j: nat, k: nat, key: string, l: Limits)
    requires from <= k < |calls| && k < |answers| && calls[k].key == key && AnsweredByLife(calls, answers, from, k, l)
    requires j <= |TimesOf(calls, from, k, key)|
    ensures var times, next := TimesOf(calls, from, k, key), TimesOf(calls, from, k + 1, key);
            && |next| == |times| + 1
            && Allowed(next, j, |next|, l) == Allowed(times, j, |times|, l) + if answers[k] then 1 else 0
  {
    var times := TimesOf(calls, from, k, key);
    AllowedPrefix(times, calls[k].now, j, |times|, l);
  }

  /** What a bucket's life allowed since call m is what was answered with yes. */
  lemma {:induction false} AllowedIsCounted(
      calls: seq<CallAt>, answers: seq<bool>, from: nat, m: nat, n: nat, key: string, l: Limits)
    requires from <= m <= n <= |calls| && n <= |answers|
    requires forall k :: from <= k < n && calls[k].key == key ==> AnsweredByLife(calls, answers, from, k, l)
    ensures |TimesOf(calls, from, m, key)| <= |TimesOf(calls, from, n, key)|
    ensures var times := TimesOf(calls, from, n, key);
            Allowed(times, |TimesOf(calls, from, m, key)|, |times|, l) == |AllowedCalls(calls, answers, key, m, n)|
    decreases n
  {
    if n == m {
      assert AllowedCalls(calls, answers, key, m, n) == {};
    } else {
      var k := n - 1;
      AllowedIsCounted(calls, answers, from, m, k, key, l);
      CountGrows(calls, answers, key, m, k);
      if calls[k].key == key {
        assert AnsweredByLife(calls, answers, from, k, l);
        LifeGrows(calls, answers, from, |TimesOf(calls, from, m, key)|, k, key, l);
      }
    }
  }

  /** With call i, the window from call m on holds no more calls on the key than it may. */
  predicate FitsSince(calls: seq<CallAt>, answers: seq<bool>, m: nat, i: nat, l: Limits)
    requires m <= i < |calls| && i <= |answers|
  {
    |AllowedCalls(calls, answers, calls[i].key, m, i)| as real + 1.0
    <= l.burst + Earned(calls[i].now - calls[m].now, l)
  }

  /** The place of call m among the times of call i's key, and what was allowed from there on. */
  lemma PlaceOfCall(calls: seq<CallAt>, answers: seq<bool>, from: nat, m: nat, i: nat, l: Limits)
    requires from <= m <= i < |calls| && i < |answers| && calls[m].key == calls[i].key
    requires forall k :: from <= k < i && calls[k].key == calls[i].key ==> AnsweredByLife(calls, answers, from, k, l)
    ensures var times := TimesOf(calls, from, i + 1, calls[i].key);
            var j, n := |TimesOf(calls, from, m, calls[i].key)|, |times| - 1;
            && 0 <= j <= n && times[j] == calls[m].now && times[n] == calls[i].now
            && Allowed(times, j, n, l) == |AllowedCalls(calls, answers, calls[i].key, m, i)|
  {
    var key := calls[i].key;
    TimeAt(calls, from, m, i + 1, key);
    AllowedIsCounted(calls, answers, from, m, i, key, l);
    var before := TimesOf(calls, from, i, key);
    AllowedPrefix(before, calls[i].now, |TimesOf(calls, from, m, key)|, |before|, l);
  }

  lemma ShareOfCall(calls: seq<CallAt>, answers: seq<bool>, from: nat, m: nat, i: nat, l: Limits)
    requires from <= m <= i < |calls| && i < |answers| && calls[m].key == calls[i].key
    requires forall k :: from <= k < i && calls[k].key == calls[i].key ==> AnsweredByLife(calls, answers, from, k, l)
    ensures var times := TimesOf(calls, from, i + 1, calls[i].key);
            var j, n := |TimesOf(calls, from, m, calls[i].key)|, |times| - 1;
            0 <= j <= n && (WithinShare(times, j, n, l) <==> FitsSince(calls, answers, m, i, l))
  {
    PlaceOfCall(calls, answers, from, m, i, l);
  }

  /** The windows of a bucket's life, read off the log of calls and answers. */
  lemma WindowsOnTheLog(calls: seq<CallAt>, answers: seq<bool>, from: nat, i: nat, l: Limits)
    requires l.burst >= 1.0 && from <= i < |calls| && i < |answers|
    requires forall k :: from <= k <= i && calls[k].key == calls[i].key ==> AnsweredByLife(calls, answers, from, k, l)
    ensures answers[i] <==>
            forall m :: from <= m <= i && calls[m].key == calls[i].key ==> FitsSince(calls, answers, m, i, l)
  {
    var key := calls[i].key;
    var times := TimesOf(calls, from, i + 1, key);
    var n := |times| - 1;
    assert AnsweredByLife(calls, answers, from, i, l);
    AllowsIffWithinShares(times, n, l);
    forall m | from <= m <= i && calls[m].key == key
      ensures var j := |TimesOf(calls, from, m, key)|;
              j <= n && (WithinShare(times, j, n, l) <==> FitsSince(calls, answers, m, i, l))
    {
      ShareOfCall(calls, answers, from, m, i, l);
    }
    if forall m :: from <= m <= i && calls[m].key == key ==> FitsSince(calls, answers, m, i, l) {
      forall j | 0 <= j <= n ensures WithinShare(times, j, n, l) {
        var m := CallAtPlace(calls, from, i + 1, key, j);
        assert FitsSince(calls, answers, m, i, l);
      }
    }
  }

  lemma FitWrittenOut(calls: seq<CallAt>, m: nat, i: nat, l: Limits, count: real)
    requires m <= i < |calls|
    ensures count <= l.burst + Earned(calls[i].now - calls[m].now, l) <==>
            count <= l.burst + (calls[i].now - calls[m].now) as real / 1_000_000_000.0 * l.rate
  {
  }

  lemma FitsWrittenOut(calls: seq<CallAt>, answers: seq<bool>, from: nat, i: nat, l: Limits)
    requires from <= i < |calls| && i < |answers|
    ensures (forall m :: from <= m <= i && calls[m].key == calls[i].key ==> FitsSince(calls, answers, m, i, l)) <==>
            forall m :: from <= m <= i && calls[m].key == calls[i].key ==>
              |AllowedCalls(calls, answers, calls[i].key, m, i)| as real + 1.0
              <= l.burst + (calls[i].now - calls[m].now) as real / 1_000_000_000.0 * l.rate
  {
    forall m | from <= m <= i && calls[m].key == calls[i].key
      ensures FitsSince(calls, answers, m, i, l) <==>
              |AllowedCalls(calls, answers, calls[i].key, m, i)| as real + 1.0
              <= l.burst + (calls[i].now - calls[m].now) as real / 1_000_000_000.0 * l.rate
    {
      FitWrittenOut(calls, m, i, l, |AllowedCalls(calls, answers, calls[i].key, m, i)| as real + 1.0);
    }
  }

  /** Without eviction, each key's bucket lives through exactly that key's calls. */
  lemma {:induction false} FreeTableHoldsLives(calls: seq<CallAt>, n: nat, key: string, l: Limits)
    requires n <= |calls|
    ensures key in FreeTable(calls, n, l) <==> TimesOf(calls, 0, n, key) != []
    ensures key in FreeTable(calls, n, l) ==> FreeTable(calls, n, l)[key] == After(TimesOf(calls, 0, n, key), l)
  {
    if n > 0 {
      FreeTableHoldsLives(calls, n - 1, key, l);
      var before := TimesOf(calls, 0, n - 1, key);
      if calls[n - 1].key == key {
        assert (before + [calls[n - 1].now])[..|before|] == before;
      }
    }
  }

  lemma FreeAnswerIsAllows(calls: seq<CallAt>, n: nat, l: Limits)
    requires n < |calls|
    ensures var times := TimesOf(calls, 0, n + 1, calls[n].key);
            times != [] && (FreeAnswer(calls, n, l) <==> Allows(times, |times| - 1, l))
  {
    var key, now := calls[n].key, calls[n].now;
    var before := TimesOf(calls, 0, n, key);
    FreeTableHoldsLives(calls, n, key, l);
    LastCall(before, now, l);
  }

  /** The last call of a key: a fresh bucket at the first, else a draw on the bucket of the earlier ones. */
  lemma LastCall(before: seq<int>, now: int, l: Limits)
    ensures Allows(before + [now], |before|, l)
            <==> before == [] || Take(After(before, l), now, l).1
  {
    assert (before + [now])[..|before|] == before;
  }

  /**
   What the bounded limiter promises while it drops only buckets that are full at the stamps of their key
   still to come. On the log of calls and answers alone: a call is allowed exactly when, with it, no window of
   its key's calls, over the whole history of the limiter, holds more allowed calls than the burst plus the
   rate times the seconds the window lasts.
   */
  lemma LimiterIsExact(calls: seq<CallAt>, tables: seq<Table>, answers: seq<bool>, l: Limits, max: int, i: nat)
    requires l.rate > 0.0 && l.burst >= 1.0
    requires IsRun(calls, tables, answers, l, max) && RunDropsOnlyFull(tables, calls, l)
    requires i < |calls|
    ensures answers[i] <==>
            forall m :: 0 <= m <= i && calls[m].key == calls[i].key ==>
              |AllowedCalls(calls, answers, calls[i].key, m, i)| as real + 1.0
              <= l.burst + (calls[i].now - calls[m].now) as real / 1_000_000_000.0 * l.rate
  {
    forall k | 0 <= k <= i ensures AnsweredByLife(calls, answers, 0, k, l) {
      FullEvictionIsUnobservable(calls, tables, answers, l, max, k);
      FreeAnswerIsAllows(calls, k, l);
    }
    WindowsOnTheLog(calls, answers, 0, i, l);
    FitsWrittenOut(calls, answers, 0, i, l);
  }

  // ---------- any run: times in any order, any eviction ----------

  /** The times of the calls on one key since its bucket was last opened; none when it has no bucket. */
  function LifeOf(calls: seq<CallAt>, tables: seq<Table>, n: nat, key: string): seq<int>
    requires n <= |calls| && |tables| == |calls| + 1
  {
    if n == 0 || key !in tables[n] then []
    else if calls[n - 1].key != key then LifeOf(calls, tables, n - 1, key)
    else if key in tables[n - 1] then LifeOf(calls, tables, n - 1, key) + [calls[n - 1].now]
    else [calls[n - 1].now]
  }

  /** In any run every bucket is what the calls since it was opened made of it. */
  lemma {:induction false} BucketsHoldTheirLives(
      calls: seq<CallAt>, tables: seq<Table>, answers: seq<bool>, l: Limits, max: int, n: nat, key: string)
    requires l.rate > 0.0 && IsRun(calls, tables, answers, l, max) && n <= |calls|
    ensures key in tables[n] <==> LifeOf(calls, tables, n, key) != []
    ensures key in tables[n] ==> tables[n][key] == After(LifeOf(calls, tables, n, key), l)
  {
    if n > 0 {
      BucketsHoldTheirLives(calls, tables, answers, l, max, n - 1, key);
      var c := calls[n - 1];
      assert Step(tables[n - 1], c.key, c.now, tables[n], answers[n - 1], l, max);
      var before := LifeOf(calls, tables, n - 1, key);
      assert (before + [c.now])[..|before|] == before;
    }
  }

  /** The bucket of call i's key was opened by call `from`, and has not been evicted since. */
  predicate OpenedBy(calls: seq<CallAt>, tables: seq<Table>, from: nat, i: nat)
    requires i < |calls| && |tables| == |calls| + 1
  {
    && from <= i && calls[from].key == calls[i].key && calls[i].key !in tables[from]
    && forall k :: from < k <= i ==> calls[i].key in tables[k]
  }

  lemma {:induction false} LifeSinceOpening(calls: seq<CallAt>, tables: seq<Table>, from: nat, n: nat, key: string)
    requires from < n <= |calls| && |tables| == |calls| + 1
    requires calls[from].key == key && key !in tables[from] && forall k :: from < k <= n ==> key in tables[k]
    ensures LifeOf(calls, tables, n, key) == TimesOf(calls, from, n, key)
  {
    if n == from + 1 {
      assert TimesOf(calls, from, from, key) == [];
    } else {
      LifeSinceOpening(calls, tables, from, n - 1, key);
    }
  }

  lemma AnswerIsAllows(
      calls: seq<CallAt>, tables: seq<Table>, answers: seq<bool>, l: Limits, max: int, from: nat, i: nat)
    requires l.rate > 0.0 && IsRun(calls, tables, answers, l, max) && i < |calls| && OpenedBy(calls, tables, from, i)
    ensures AnsweredByLife(calls, answers, from, i, l)
  {
    var c := calls[i];
    assert Step(tables[i], c.key, c.now, tables[i + 1], answers[i], l, max);
    BucketsHoldTheirLives(calls, tables, answers, l, max, i, c.key);
    LifeSinceOpening(calls, tables, from, i + 1, c.key);
    LastCall(if c.key in tables[i] then LifeOf(calls, tables, i, c.key) else [], c.now, l);
  }

  /** Every call is one on a bucket that some call opened, itself or an earlier one. */
  lemma {:induction false} OpenerOf(
      calls: seq<CallAt>, tables: seq<Table>, answers: seq<bool>, l: Limits, max: int, n: nat, key: string)
    returns (from: nat)
    requires l.rate > 0.0 && IsRun(calls, tables, answers, l, max) && 0 < n <= |calls| && key in tables[n]
    ensures from < n && calls[from].key == key && key !in tables[from] && forall k :: from < k <= n ==> key in tables[k]
  {
    var c := calls[n - 1];
    assert Step(tables[n - 1], c.key, c.now, tables[n], answers[n - 1], l, max);
    if key in tables[n - 1] {
      from := OpenerOf(calls, tables, answers, l, max, n - 1, key);
    } else {
      from := n - 1;
    }
  }

  /**
   Every answer of every run, with times in any order and whatever is evicted. On the log alone: a call is
   allowed exactly when, with it, no window since the call that opened its bucket holds more allowed calls on
   its key than the burst plus the rate times the seconds the window lasts.
   */
  lemma AnswersAreExactWithinLives(
      calls: seq<CallAt>, tables: seq<Table>, answers: seq<bool>, l: Limits, max: int, i: nat)
    returns (from: nat)
    requires l.rate > 0.0 && l.burst >= 1.0 && IsRun(calls, tables, answers, l, max) && i < |calls|
    ensures OpenedBy(calls, tables, from, i)
    ensures answers[i] <==>
            forall m :: from <= m <= i && calls[m].key == calls[i].key ==>
              |AllowedCalls(calls, answers, calls[i].key, m, i)| as real + 1.0
              <= l.burst + (calls[i].now - calls[m].now) as real / 1_000_000_000.0 * l.rate
  {
    var c := calls[i];
    assert Step(tables[i], c.key, c.now, tables[i + 1], answers[i], l, max);
    from := OpenerOf(calls, tables, answers, l, max, i + 1, c.key);
    forall k | from <= k <= i && calls[k].key == c.key ensures AnsweredByLife(calls, answers, from, k, l) {
      AnswerIsAllows(calls, tables, answers, l, max, from, k);
    }
    WindowsOnTheLog(calls, answers, from, i, l);
    FitsWrittenOut(calls, answers, from, i, l);
  }
}
