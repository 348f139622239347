/**
 The set of recently seen keys (uaSeenSet in ua.go): a sliding lifetime and a cap, with the oldest
 entry evicted when dropping the expired ones does not make room.
 */
module SeenSet {
  import opened Common

  type Table = map<string, int>

  function Live(m: Table, now: int, ttl: int): Table {
    map k | k in m && now - m[k] < ttl :: m[k]
  }

  /** The entry the eviction loop remembers as oldest, when it meets the keys in the given order. */
  function Oldest(order: seq<string>, m: Table, now: int, ttl: int): (string, int)
    requires forall k :: k in order ==> k in m
  {
    if order == [] then ("", 0)
    else
      var (o, t) := Oldest(order[..|order| - 1], m, now, ttl);
      var k := order[|order| - 1];
      if now - m[k] >= ttl then (o, t)
      else if o == "" || m[k] < t then (k, m[k])
      else (o, t)
  }

  /** An iteration meets every key once. */
  ghost predicate IsOrder(order: seq<string>, m: Table) {
    && (forall k :: k in order <==> k in m)
    && forall i, j :: 0 <= i < j < |order| ==> order[i] != order[j]
  }

  function Trim(order: seq<string>, m: Table, now: int, ttl: int, cap: int): Table
    requires forall k :: k in order ==> k in m
  {
    var live, o := Live(m, now, ttl), Oldest(order, m, now, ttl).0;
    if |live| > cap && o != "" then live - {o} else live
  }

  /** One call of firstSeen: from m to next, with its answer, for some order of the iteration. */
  ghost predicate Step(m: Table, key: string, now: int, next: Table, isNew: bool, cap: int, ttl: int) {
    if key in m && now - m[key] < ttl then
      !isNew && next == m[key := now]
    else
      var full := m[key := now];
      && isNew
      && if |full| > cap then exists order :: IsOrder(order, full) && next == Trim(order, full, now, ttl, cap)
         else next == full
  }

  // ---------- the object ----------

  class SeenSet {
    var items: Table
    const cap: int
    const ttl: int

    constructor (cap: int, ttl: int)
      ensures items == map[] && this.cap == cap && this.ttl == ttl
    {
      items := map[];
      this.cap, this.ttl := cap, ttl;
    }

    method FirstSeen(key: string, now: int) returns (isNew: bool)
      modifies this
      ensures Step(old(items), key, now, items, isNew, cap, ttl)
    {
      if key in items && now - items[key] < ttl {
        items := items[key := now];
        return false;
      }
      items := items[key := now];
      if |items| > cap {
        ghost var order := Evict(now);
      }
      return true;
    }

    method Evict(now: int) returns (ghost order: seq<string>)
      modifies this
      ensures IsOrder(order, old(items)) && items == Trim(order, old(items), now, ttl, cap)
    {
      ghost var full := items;
      var oldest, oldestT := "", 0;
      var todo := items.Keys;
      order := [];
      while todo != {}
        invariant Swept(items, full, todo, now, ttl)
        invariant Visited(order, full, todo)
        invariant (oldest, oldestT) == Oldest(order, full, now, ttl)
        decreases |todo|
      {
        var k :| k in todo;
        var t := items[k];
        SweepNext(items, full, todo, k, now, ttl);
        VisitNext(order, full, todo, k);
        OldestSnoc(order, k, full, now, ttl);
        todo := todo - {k};
        order := order + [k];
        if now - t >= ttl {
          items := items - {k};
          continue;
        }
        if oldest == "" || t < oldestT {
          oldest, oldestT := k, t;
        }
      }
      assert items == Live(full, now, ttl);
      if |items| > cap && oldest != "" {
        items := items - {oldest};
      }
    }
  }

  /** The keys met so far, each once, and not those still to do. */
  ghost predicate Visited(order: seq<string>, m: Table, todo: set<string>) {
    && (forall k :: k in order <==> k in m && k !in todo)
    && forall i, j :: 0 <= i < j < |order| ==> order[i] != order[j]
  }

  lemma VisitNext(order: seq<string>, m: Table, todo: set<string>, k: string)
    requires Visited(order, m, todo) && k in m && k in todo
    ensures Visited(order + [k], m, todo - {k})
  {
    assert k !in order;
  }

  /** The expired entries are gone, except for those still to do. */
  ghost predicate Swept(items: Table, m: Table, todo: set<string>, now: int, ttl: int) {
    && items.Keys <= m.Keys
    && todo <= items.Keys
    && forall k :: k in m ==>
         && (k in items <==> k in todo || now - m[k] < ttl)
         && (k in items ==> items[k] == m[k])
  }

  lemma SweepNext(items: Table, m: Table, todo: set<string>, k: string, now: int, ttl: int)
    requires Swept(items, m, todo, now, ttl) && k in todo
    ensures items[k] == m[k]
    ensures Swept(if now - m[k] >= ttl then items - {k} else items, m, todo - {k}, now, ttl)
  {
  }

  lemma OldestSnoc(order: seq<string>, k: string, m: Table, now: int, ttl: int)
    requires k in m && forall l :: l in order ==> l in m
    ensures var (o, t) := Oldest(order, m, now, ttl);
            var older := now - m[k] < ttl && (o == "" || m[k] < t);
            Oldest(order + [k], m, now, ttl) == if older then (k, m[k]) else (o, t)
  {
    assert (order + [k])[..|order|] == order;
  }

  // ---------- what the loop finds ----------

  /** Among nonempty keys the loop finds an oldest live one, if there is a live one at all. */
  lemma {:induction false} OldestIsOldest(order: seq<string>, m: Table, now: int, ttl: int)
    requires forall k :: k in order ==> k in m && k != ""
    ensures var (o, t) := Oldest(order, m, now, ttl);
            if o == "" then forall k :: k in order ==> now - m[k] >= ttl
            else
              && o in order && m[o] == t && now - t < ttl
              && forall k :: k in order && now - m[k] < ttl ==> t <= m[k]
  {
    if order != [] {
      var init := order[..|order| - 1];
      assert order == init + [order[|order| - 1]];
      assert forall k :: k in init ==> k in order;
      OldestIsOldest(init, m, now, ttl);
    }
  }

  lemma TrimmedSize(order: seq<string>, m: Table, now: int, ttl: int, cap: int)
    requires IsOrder(order, m) && "" !in m && 0 <= cap && |m| <= cap + 1
    ensures |Trim(order, m, now, ttl, cap)| <= cap
  {
    var live := Live(m, now, ttl);
    LiveSize(m, now, ttl);
    OldestIsOldest(order, m, now, ttl);
    var (o, t) := Oldest(order, m, now, ttl);
    if o == "" {
      assert forall k :: k in m ==> k in order;
      assert live == map[];
    } else {
      RemoveSize(live, o);
    }
  }

  lemma LiveSize(m: Table, now: int, ttl: int)
    ensures |Live(m, now, ttl)| <= |m|
  {
    var live := Live(m, now, ttl);
    SubsetSize(live.Keys, m.Keys);
    assert |m| == |m.Keys| && |live| == |live.Keys|;
  }

  lemma RemoveSize(m: Table, k: string)
    requires k in m
    ensures |m - {k}| == |m| - 1
  {
    assert (m - {k}).Keys == m.Keys - {k};
    assert |m| == |m.Keys| && |m - {k}| == |(m - {k}).Keys|;
  }

  lemma InsertSize(m: Table, k: string, t: int)
    ensures |m[k := t]| == if k in m then |m| else |m| + 1
  {
    assert m[k := t].Keys == m.Keys + {k};
    assert |m| == |m.Keys| && |m[k := t]| == |m[k := t].Keys|;
  }

  /** The set stays within its cap, for nonempty keys. */
  lemma StepIsBounded(m: Table, key: string, now: int, next: Table, isNew: bool, cap: int, ttl: int)
    requires Step(m, key, now, next, isNew, cap, ttl)
    requires 0 <= cap && |m| <= cap && "" !in m && key != ""
    ensures |next| <= cap && "" !in next
  {
    InsertSize(m, key, now);
    if !(key in m && now - m[key] < ttl) && |m[key := now]| > cap {
      var full := m[key := now];
      var order :| IsOrder(order, full) && next == Trim(order, full, now, ttl, cap);
      TrimmedSize(order, full, now, ttl, cap);
    }
  }

  // ---------- the empty key ----------

  /** The empty key would be the one to evict: nothing has expired, and every other entry is younger. */
  predicate EmptyKeyIsOldest(full: Table, now: int, ttl: int) {
    && "" in full
    && (forall k :: k in full ==> now - full[k] < ttl)
    && forall k :: k in full && k != "" ==> full[""] < full[k]
  }

  /**
   The empty key is mistaken for "nothing found yet". A set within its cap can outgrow it exactly when a
   new key comes to a full set in which the empty key is the oldest and nothing has expired.
   */
  lemma CapFailsIffEmptyKeyIsOldest(m: Table, key: string, now: int, cap: int, ttl: int)
    requires 0 <= cap && |m| <= cap
    ensures (exists next, isNew :: Step(m, key, now, next, isNew, cap, ttl) && |next| > cap)
            <==> key !in m && |m| == cap && EmptyKeyIsOldest(m[key := now], now, ttl)
  {
    var full := m[key := now];
    InsertSize(m, key, now);
    forall next, isNew | Step(m, key, now, next, isNew, cap, ttl) && |next| > cap
      ensures key !in m && |m| == cap && EmptyKeyIsOldest(full, now, ttl)
    {
      assert |full| > cap;
      var order :| IsOrder(order, full) && next == Trim(order, full, now, ttl, cap);
      OvergrownTrim(order, full, now, ttl, cap);
    }
    if key !in m && |m| == cap && EmptyKeyIsOldest(full, now, ttl) {
      var order := EmptyKeyLast(full);
      EmptyKeyStays(order, full, now, ttl);
      assert Live(full, now, ttl) == full;
      assert Step(m, key, now, full, true, cap, ttl);
    }
  }

  lemma OvergrownTrim(order: seq<string>, full: Table, now: int, ttl: int, cap: int)
    requires IsOrder(order, full) && 0 <= cap && |full| == cap + 1 && |Trim(order, full, now, ttl, cap)| > cap
    ensures EmptyKeyIsOldest(full, now, ttl)
  {
    var live := Live(full, now, ttl);
    LiveSize(full, now, ttl);
    assert |live| == |full|;
    SameSizeSameKeys(live, full);
    var o := Oldest(order, full, now, ttl).0;
    if o != "" {
      OldestIsLive(order, full, now, ttl);
      RemoveSize(live, o);
    }
    EmptyOrder(order, full);
    EmptyKeyWasLast(order, full, now, ttl);
  }

  lemma EmptyOrder(order: seq<string>, m: Table)
    requires IsOrder(order, m)
    ensures order == [] ==> |m| == 0
  {
    if order == [] {
      assert m.Keys == {};
      assert |m| == |m.Keys|;
    }
  }

  lemma SameSizeSameKeys(a: Table, b: Table)
    requires a.Keys <= b.Keys && |a| == |b|
    ensures a.Keys == b.Keys
  {
    assert |b| == |b.Keys| && |a| == |a.Keys|;
    SubsetSize(a.Keys, b.Keys);
  }

  lemma {:induction false} OldestIsLive(order: seq<string>, m: Table, now: int, ttl: int)
    requires forall k :: k in order ==> k in m
    ensures var o := Oldest(order, m, now, ttl).0; o != "" ==> o in m && now - m[o] < ttl
  {
    if order != [] {
      OldestIsLive(order[..|order| - 1], m, now, ttl);
    }
  }

  /** The loop ends with no candidate only if the empty key came last and displaced an older candidate. */
  lemma EmptyKeyWasLast(order: seq<string>, full: Table, now: int, ttl: int)
    requires IsOrder(order, full) && order != [] && Oldest(order, full, now, ttl).0 == ""
    requires forall k :: k in full ==> now - full[k] < ttl
    ensures EmptyKeyIsOldest(full, now, ttl)
  {
    var n := |order| - 1;
    var init := order[..n];
    assert order == init + [order[n]];
    assert order[n] == "";
    forall k | k in init ensures k in full && k != "" {
      var i :| 0 <= i < n && init[i] == k;
      assert order[i] == k;
    }
    OldestIsOldest(init, full, now, ttl);
    forall k | k in full && k != "" ensures full[""] < full[k] {
      assert k in order;
      assert k in init;
    }
  }

  lemma EmptyKeyStays(order: seq<string>, full: Table, now: int, ttl: int)
    requires IsOrder(order, full) && order != [] && order[|order| - 1] == "" && EmptyKeyIsOldest(full, now, ttl)
    ensures Oldest(order, full, now, ttl).0 == ""
  {
    var n := |order| - 1;
    var init := order[..n];
    assert order == init + [""];
    forall k | k in init ensures k in full && k != "" {
      var i :| 0 <= i < n && init[i] == k;
      assert order[i] == k;
    }
    OldestIsOldest(init, full, now, ttl);
  }

  lemma EmptyKeyLast(full: Table) returns (order: seq<string>)
    requires "" in full
    ensures IsOrder(order, full) && order != [] && order[|order| - 1] == ""
  {
    order := SomeOrder(full.Keys - {""});
    order := order + [""];
  }

  lemma {:induction false} SomeOrder(keys: set<string>) returns (order: seq<string>)
    ensures forall k :: k in order <==> k in keys
    ensures forall i, j :: 0 <= i < j < |order| ==> order[i] != order[j]
    decreases |keys|
  {
    if keys == {} {
      return [];
    }
    var k :| k in keys;
    order := SomeOrder(keys - {k});
    assert k !in order;
    order := order + [k];
  }

  // ---------- runs, against the log of all calls ----------

  datatype CallAt = CallAt(key: string, now: int)

  ghost predicate IsRun(calls: seq<CallAt>, tables: seq<Table>, answers: seq<bool>, cap: int, ttl: int) {
    && |tables| == |calls| + 1 && |answers| == |calls|
    && tables[0] == map[]
    && forall i :: 0 <= i < |calls| ==> Step(tables[i], calls[i].key, calls[i].now, tables[i + 1], answers[i], cap, ttl)
  }

  /** From an empty set of cap one: the empty key and then another, before the first has expired. */
  lemma EmptyKeyOutgrowsTheCap(ttl: int) returns (calls: seq<CallAt>, tables: seq<Table>, answers: seq<bool>)
    requires ttl > 1
    ensures IsRun(calls, tables, answers, 1, ttl) && |calls| == 2 && |tables[2]| > 1
    ensures calls[0].now <= calls[1].now
  {
    var one: Table := map["" := 0];
    FirstEmptyKey(one, ttl);
    var next := SecondKey(one, ttl);
    calls := [CallAt("", 0), CallAt("b", 1)];
    tables, answers := [map[], one, next.0], [true, next.1];
  }

  lemma FirstEmptyKey(one: Table, ttl: int)
    requires one == map["" := 0]
    ensures Step(map[], "", 0, one, true, 1, ttl)
  {
    InsertSize(map[], "", 0);
    assert one == map[]["" := 0];
  }

  lemma SecondKey(one: Table, ttl: int) returns (next: (Table, bool))
    requires one == map["" := 0] && ttl > 1
    ensures Step(one, "b", 1, next.0, next.1, 1, ttl) && |next.0| > 1
  {
    InsertSize(map[], "", 0);
    assert one == map[]["" := 0];
    CapFailsIffEmptyKeyIsOldest(one, "b", 1, 1, ttl);
    var table, isNew :| Step(one, "b", 1, table, isNew, 1, ttl) && |table| > 1;
    next := (table, isNew);
  }

  predicate Orderly(calls: seq<CallAt>) {
    && (forall i, j :: 0 <= i <= j < |calls| ==> calls[i].now <= calls[j].now)
    && forall i :: 0 <= i < |calls| ==> calls[i].key != ""
  }

  /** When the key was last seen among the first n calls. */
  function LastSeen(calls: seq<CallAt>, n: nat, key: string): Option<int>
    requires n <= |calls|
  {
    if n == 0 then None
    else if calls[n - 1].key == key then Some(calls[n - 1].now)
    else LastSeen(calls, n - 1, key)
  }

  /** The other keys seen at time t or later, among the first n calls. */
  function OthersSince(calls: seq<CallAt>, n: nat, key: string, t: int): set<string>
    requires n <= |calls|
  {
    set i | 0 <= i < n && calls[i].key != key && calls[i].now >= t :: calls[i].key
  }

  predicate SeenWithin(calls: seq<CallAt>, n: nat, key: string, now: int, ttl: int)
    requires n <= |calls|
  {
    LastSeen(calls, n, key).Some? && now - LastSeen(calls, n, key).value < ttl
  }

  lemma {:induction false} LastSeenIsACall(calls: seq<CallAt>, n: nat, key: string) returns (i: nat)
    requires n <= |calls| && LastSeen(calls, n, key).Some?
    ensures i < n && calls[i] == CallAt(key, LastSeen(calls, n, key).value)
  {
    if calls[n - 1].key == key {
      i := n - 1;
    } else {
      i := LastSeenIsACall(calls, n - 1, key);
    }
  }

  lemma StepAnswer(m: Table, key: string, now: int, next: Table, isNew: bool, cap: int, ttl: int)
    requires Step(m, key, now, next, isNew, cap, ttl)
    ensures isNew <==> !(key in m && now - m[key] < ttl)
  {
  }

  /** A key of the log is in the table with its last time, or expired by time `now`, or crowded out. */
  ghost predicate Accounted(calls: seq<CallAt>, n: nat, m: Table, now: int, key: string, cap: int, ttl: int)
    requires n <= |calls|
  {
    match LastSeen(calls, n, key)
    case None => key !in m
    case Some(t) =>
      if key in m then m[key] == t
      else now - t >= ttl || |OthersSince(calls, n, key, t)| >= cap
  }

  ghost predicate Ledger(calls: seq<CallAt>, n: nat, m: Table, now: int, cap: int, ttl: int)
    requires n <= |calls|
  {
    && |m| <= cap && "" !in m
    && forall key :: Accounted(calls, n, m, now, key, cap, ttl)
  }

  lemma OthersGrow(calls: seq<CallAt>, n: nat, key: string, t: int)
    requires n < |calls|
    ensures |OthersSince(calls, n, key, t)| <= |OthersSince(calls, n + 1, key, t)|
  {
    SubsetSize(OthersSince(calls, n, key, t), OthersSince(calls, n + 1, key, t));
  }

  /** Inserting the current call accounts for every key again, before any eviction. */
  lemma InsertAccounts(calls: seq<CallAt>, n: nat, m: Table, now: int, key: string, cap: int, ttl: int)
    requires n < |calls| && now <= calls[n].now && Accounted(calls, n, m, now, key, cap, ttl)
    ensures Accounted(calls, n + 1, m[calls[n].key := calls[n].now], calls[n].now, key, cap, ttl)
  {
    if key != calls[n].key && LastSeen(calls, n, key).Some? {
      OthersGrow(calls, n, key, LastSeen(calls, n, key).value);
    }
  }

  /** The evicted entry leaves at least `cap` keys behind that were seen no earlier than it. */
  lemma EvictedIsCrowdedOut(calls: seq<CallAt>, n: nat, full: Table, order: seq<string>, now: int, cap: int, ttl: int)
    requires n <= |calls| && IsOrder(order, full) && "" !in full
    requires forall key :: Accounted(calls, n, full, now, key, cap, ttl)
    requires |Live(full, now, ttl)| > cap && Oldest(order, full, now, ttl).0 != ""
    ensures var o := Oldest(order, full, now, ttl).0; o in full && |OthersSince(calls, n, o, full[o])| >= cap
  {
    OldestIsOldest(order, full, now, ttl);
    var (o, t) := Oldest(order, full, now, ttl);
    var live := Live(full, now, ttl);
    RemoveSize(live, o);
    var rest := (live - {o}).Keys;
    forall k | k in rest ensures k in OthersSince(calls, n, o, t) {
      assert Accounted(calls, n, full, now, k, cap, ttl);
      assert k in order;
      var i := LastSeenIsACall(calls, n, k);
    }
    SubsetSize(rest, OthersSince(calls, n, o, t));
    assert |rest| == |live - {o}|;
  }

  lemma TrimAccounts(
      calls: seq<CallAt>, n: nat, full: Table, order: seq<string>, now: int, key: string, cap: int, ttl: int)
    requires n <= |calls| && IsOrder(order, full) && "" !in full
    requires forall key :: Accounted(calls, n, full, now, key, cap, ttl)
    ensures Accounted(calls, n, Trim(order, full, now, ttl, cap), now, key, cap, ttl)
  {
    assert Accounted(calls, n, full, now, key, cap, ttl);
    if |Live(full, now, ttl)| > cap && Oldest(order, full, now, ttl).0 != "" {
      EvictedIsCrowdedOut(calls, n, full, order, now, cap, ttl);
    }
  }

  lemma StepKeepsLedger(calls: seq<CallAt>, n: nat, m: Table, now: int, next: Table, isNew: bool, cap: int, ttl: int)
    requires n < |calls| && 0 <= cap && now <= calls[n].now && calls[n].key != ""
    requires Ledger(calls, n, m, now, cap, ttl)
    requires Step(m, calls[n].key, calls[n].now, next, isNew, cap, ttl)
    ensures Ledger(calls, n + 1, next, calls[n].now, cap, ttl)
  {
    var c := calls[n];
    var full, t, k := m[c.key := c.now], c.now, n + 1;
    StepIsBounded(m, c.key, t, next, isNew, cap, ttl);
    forall key ensures Accounted(calls, k, full, t, key, cap, ttl) {
      InsertAccounts(calls, n, m, now, key, cap, ttl);
    }
    if !(c.key in m && t - m[c.key] < ttl) && |full| > cap {
      var order :| IsOrder(order, full) && next == Trim(order, full, t, ttl, cap);
      forall key ensures Accounted(calls, k, next, t, key, cap, ttl) {
        TrimAccounts(calls, k, full, order, t, key, cap, ttl);
      }
    }
  }

  lemma LedgerLater(calls: seq<CallAt>, n: nat, m: Table, now: int, later: int, cap: int, ttl: int)
    requires n <= |calls| && Ledger(calls, n, m, now, cap, ttl) && now <= later
    ensures Ledger(calls, n, m, later, cap, ttl)
  {
    forall key ensures Accounted(calls, n, m, later, key, cap, ttl) {
      assert Accounted(calls, n, m, now, key, cap, ttl);
    }
  }

  lemma {:induction false} RunKeepsLedger(
      calls: seq<CallAt>, tables: seq<Table>, answers: seq<bool>, cap: int, ttl: int, i: nat)
    requires 0 <= cap && Orderly(calls) && IsRun(calls, tables, answers, cap, ttl) && i < |calls|
    ensures Ledger(calls, i, tables[i], calls[i].now, cap, ttl)
  {
    if i > 0 {
      RunKeepsLedger(calls, tables, answers, cap, ttl, i - 1);
      var c := calls[i - 1];
      assert Step(tables[i - 1], c.key, c.now, tables[i], answers[i - 1], cap, ttl);
      StepKeepsLedger(calls, i - 1, tables[i - 1], c.now, tables[i], answers[i - 1], cap, ttl);
      LedgerLater(calls, i, tables[i], calls[i - 1].now, calls[i].now, cap, ttl);
    }
  }

  /** The set never exceeds its cap. */
  lemma RunIsBounded(calls: seq<CallAt>, tables: seq<Table>, answers: seq<bool>, cap: int, ttl: int, i: nat)
    requires 0 <= cap && Orderly(calls) && IsRun(calls, tables, answers, cap, ttl) && i <= |calls|
    ensures |tables[i]| <= cap
  {
    if i > 0 {
      LedgerAfter(calls, tables, answers, cap, ttl, i - 1);
    }
  }

  lemma LedgerAfter(calls: seq<CallAt>, tables: seq<Table>, answers: seq<bool>, cap: int, ttl: int, i: nat)
    requires 0 <= cap && Orderly(calls) && IsRun(calls, tables, answers, cap, ttl) && i < |calls|
    ensures Ledger(calls, i + 1, tables[i + 1], calls[i].now, cap, ttl)
  {
    RunKeepsLedger(calls, tables, answers, cap, ttl, i);
    var c := calls[i];
    assert Step(tables[i], c.key, c.now, tables[i + 1], answers[i], cap, ttl);
    StepKeepsLedger(calls, i, tables[i], c.now, tables[i + 1], answers[i], cap, ttl);
  }

  /**
   A key reported as seen was seen within the lifetime; a key reported as new was not, unless at least
   `cap` other keys were seen at or after its last sighting.
   */
  lemma AnswersAreJustified(calls: seq<CallAt>, tables: seq<Table>, answers: seq<bool>, cap: int, ttl: int, i: nat)
    requires 0 <= cap && Orderly(calls) && IsRun(calls, tables, answers, cap, ttl) && i < |calls|
    ensures !answers[i] ==> SeenWithin(calls, i, calls[i].key, calls[i].now, ttl)
    ensures answers[i] && SeenWithin(calls, i, calls[i].key, calls[i].now, ttl)
            ==> |OthersSince(calls, i, calls[i].key, LastSeen(calls, i, calls[i].key).value)| >= cap
  {
    RunKeepsLedger(calls, tables, answers, cap, ttl, i);
    StepAnswer(tables[i], calls[i].key, calls[i].now, tables[i + 1], answers[i], cap, ttl);
    LedgerAnswers(calls, i, tables[i], calls[i].key, calls[i].now, cap, ttl);
  }

  lemma LedgerAnswers(calls: seq<CallAt>, n: nat, m: Table, key: string, now: int, cap: int, ttl: int)
    requires n <= |calls| && Ledger(calls, n, m, now, cap, ttl)
    ensures key in m && now - m[key] < ttl ==> SeenWithin(calls, n, key, now, ttl)
    ensures !(key in m && now - m[key] < ttl) && SeenWithin(calls, n, key, now, ttl)
            ==> |OthersSince(calls, n, key, LastSeen(calls, n, key).value)| >= cap
  {
    assert Accounted(calls, n, m, now, key, cap, ttl);
  }

  function KeysOf(calls: seq<CallAt>): set<string> {
    set i | 0 <= i < |calls| :: calls[i].key
  }

  /** With no more keys than the cap, every answer is the one a scan of the full log gives. */
  lemma FewKeysMeanExactAnswers(calls: seq<CallAt>, tables: seq<Table>, answers: seq<bool>, cap: int, ttl: int, i: nat)
    requires 0 <= cap && Orderly(calls) && IsRun(calls, tables, answers, cap, ttl) && i < |calls|
    requires |KeysOf(calls)| <= cap
    ensures answers[i] <==> !SeenWithin(calls, i, calls[i].key, calls[i].now, ttl)
  {
    AnswersAreJustified(calls, tables, answers, cap, ttl, i);
    if SeenWithin(calls, i, calls[i].key, calls[i].now, ttl) {
      var key := calls[i].key;
      var others := OthersSince(calls, i, key, LastSeen(calls, i, key).value);
      SubsetSize(others, KeysOf(calls) - {key});
      assert key in KeysOf(calls);
    }
  }
}
