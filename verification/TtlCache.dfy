/**
 The bounded TTL cache (cache.go) as an object: each method below is one critical section, run while
 its mutex is held. SingleFlight puts the same sections into a protocol of concurrent threads, and
 SingleFlightSections shows that they have the same effect there.
 Times and durations are integer nanoseconds.
 */
module TtlCache {
  import opened Common

  datatype Entry<+V> = Entry(val: V, expires: int)

  function LiveKeys<V>(m: map<string, Entry<V>>, now: int): set<string> {
    set k | k in m && now < m[k].expires
  }

  /** Everything an eviction at time `now` may leave of m, whatever order the map is iterated in. */
  ghost predicate Evicted<V(!new)>(m: map<string, Entry<V>>, now: int, max: int, kept: map<string, Entry<V>>) {
    if max <= 0 || |m| <= max then kept == m
    else
      && kept.Keys <= LiveKeys(m, now)
      && (forall k :: k in kept ==> kept[k] == m[k])
      && |kept| == if |LiveKeys(m, now)| <= max then |LiveKeys(m, now)| else max
  }

  /**
   Eviction only removes entries, obeys the cap, and drops no live entry while the live ones fit. A cap of zero
   or less is none.
   */
  lemma EvictionIsExact<V(!new)>(m: map<string, Entry<V>>, now: int, max: int, kept: map<string, Entry<V>>)
    requires Evicted(m, now, max, kept)
    ensures kept.Keys <= m.Keys && forall k :: k in kept ==> kept[k] == m[k]
    ensures max <= 0 || |m| <= max ==> kept == m
    ensures max > 0 ==> |kept| <= max
    ensures var live := set k | k in m && now < m[k].expires;
            && (0 < max < |m| ==> kept.Keys <= live)
            && (|live| <= max ==> live <= kept.Keys)
            && (0 < max < |m| && |live| > max ==> |kept| == max)
  {
    var live := set k | k in m && now < m[k].expires;
    assert live == LiveKeys(m, now);
    assert |kept| == |kept.Keys|;
    if 0 < max < |m| && |live| <= max {
      SubsetSize(kept.Keys, live);
    }
  }

  /** A computation under way: whether it is over, and what it came to. */
  class Call<V> {
    var done: bool
    var val: Option<V>

    constructor ()
      ensures !done && val == None
    {
      done, val := false, None;
    }

    method Close()
      modifies this`done
      ensures done
    {
      done := true;
    }
  }

  datatype Admission<V, C> = Hit(val: V) | Join(call: C) | Lead(call: C)

  /** What the first section of Do may do: a live entry wins, then a call under way, else the caller leads a new one. */
  ghost predicate Begins<V(!new), C>(m: map<string, Entry<V>>, inflight: map<string, C>, key: string, now: int,
                                     next: map<string, C>, a: Admission<V, C>)
  {
    match a
    case Hit(val) => key in m && now < m[key].expires && val == m[key].val && next == inflight
    case Join(call) =>
      !(key in m && now < m[key].expires) && key in inflight && call == inflight[key] && next == inflight
    case Lead(call) => !(key in m && now < m[key].expires) && key !in inflight && next == inflight[key := call]
  }

  /** What its second section may do to the entries: store, only for a positive lifetime, and evict. */
  ghost predicate Stores<V(!new)>(m: map<string, Entry<V>>, key: string, val: V, ttl: int,
                                  now: int, evictAt: int, max: int, kept: map<string, Entry<V>>)
  {
    if ttl > 0 then Evicted(m[key := Entry(val, now + ttl)], evictAt, max, kept) else kept == m
  }

  lemma LiveAfterStore<V>(m: map<string, Entry<V>>, key: string, e: Entry<V>, at: int)
    requires at < e.expires
    ensures LiveKeys(m[key := e], at) == {key} + LiveKeys(m, at)
  {
  }

  /**
   What that means for a reader: nothing is stored for a lifetime of zero or less; else the value is there, to
   expire a lifetime from now, unless more entries are live than fit; other entries may only go.
   */
  lemma StoredIsServed<V(!new)>(m: map<string, Entry<V>>, key: string, val: V, ttl: int,
                                now: int, evictAt: int, max: int, kept: map<string, Entry<V>>)
    requires Stores(m, key, val, ttl, now, evictAt, max, kept)
    ensures ttl <= 0 ==> kept == m
    ensures ttl > 0 && key in kept ==> kept[key] == Entry(val, now + ttl)
    ensures forall k :: k in kept && k != key ==> k in m && kept[k] == m[k]
    ensures var live := {key} + set k | k in m && evictAt < m[k].expires;
            ttl > 0 && evictAt < now + ttl && (max <= 0 || |live| <= max) ==> live <= kept.Keys
  {
    if ttl > 0 {
      EvictionIsExact(m[key := Entry(val, now + ttl)], evictAt, max, kept);
      if evictAt < now + ttl {
        LiveAfterStore(m, key, Entry(val, now + ttl), evictAt);
      }
    }
  }

  class TtlCache<V(!new)> {
    var m: map<string, Entry<V>>
    var inflight: map<string, Call<V>>
    const max: int

    constructor (max: int)
      ensures m == map[] && inflight == map[] && this.max == max
    {
      m, inflight := map[], map[];
      this.max := max;
    }

    /** A stored value is returned exactly while it is live. */
    method Get(key: string, now: int) returns (r: Option<V>)
      ensures r == if key in m && now < m[key].expires then Some(m[key].val) else None
    {
      if key !in m || !(now < m[key].expires) {
        return None;
      }
      return Some(m[key].val);
    }

    /** The first section of Do. */
    method Begin(key: string, now: int) returns (a: Admission<V, Call<V>>)
      modifies this`inflight
      ensures Begins(m, old(inflight), key, now, inflight, a)
      ensures a.Lead? ==> fresh(a.call) && !a.call.done && a.call.val == None
    {
      if key in m && now < m[key].expires {
        return Hit(m[key].val);
      }
      if key in inflight {
        return Join(inflight[key]);
      }
      var call := new Call<V>();
      inflight := inflight[key := call];
      return Lead(call);
    }

    /** The second section of Do, after fn returned (val, ttl): publish, evict, and step down as leader. */
    method Finish(key: string, call: Call<V>, val: V, ttl: int, now: int, evictAt: int)
      modifies this, call`val
      ensures call.val == Some(val)
      ensures inflight == old(inflight) - {key}
      ensures Stores(old(m), key, val, ttl, now, evictAt, max, m)
    {
      call.val := Some(val);
      if ttl > 0 {
        m := m[key := Entry(val, now + ttl)];
        EvictLocked(evictAt);
      }
      inflight := inflight - {key};
    }

    /** Drops what has expired; beyond that, whatever the iteration yields, until the cap is met. */
    method EvictLocked(now: int)
      modifies this`m
      ensures Evicted(old(m), now, max, m)
    {
      if max <= 0 || |m| <= max {
        return;
      }
      ghost var before := m;
      DropExpired(now);
      ghost var live := m;
      assert live.Keys == LiveKeys(before, now);
      var todo := m.Keys;
      while todo != {}
        invariant todo == m.Keys <= live.Keys
        invariant forall k :: k in m ==> m[k] == live[k]
        invariant |m| == |live| || |m| >= max
        decreases |todo|
      {
        if |m| <= max {
          break;
        }
        var k :| k in todo;
        todo := todo - {k};
        m := m - {k};
      }
    }

    method DropExpired(now: int)
      modifies this`m
      ensures m.Keys == LiveKeys(old(m), now)
      ensures forall k :: k in m ==> m[k] == old(m)[k]
    {
      var todo := m.Keys;
      while todo != {}
        invariant todo <= m.Keys
        invariant m.Keys == LiveKeys(old(m), now) + todo
        invariant forall k :: k in m ==> k in old(m) && m[k] == old(m)[k]
        decreases |todo|
      {
        var k :| k in todo;
        todo := todo - {k};
        if !(now < m[k].expires) {
          m := m - {k};
        }
      }
    }
  }
}
