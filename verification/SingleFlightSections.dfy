/**
 The sections under a cache's mutex are atomic: whatever other threads do meanwhile, the protocol's steps
 have the effect of the two sections of Do (cache.go) as the cache object performs them.
 */
module SingleFlightSections {
  import opened Common
  import opened TtlCache
  import opened SingleFlight
  import opened SingleFlightSafety
  import opened SingleFlightRuns

  /** What a frame does next after the first section. */
  predicate Admitted(a: Admission<Value, nat>, p: Phase) {
    match a
    case Hit(val) => p == Returned(val)
    case Join(call) => p == Await(call)
    case Lead(call) => p == Run(call)
  }

  /** Look is the first section of Do: it admits the frame as Begin does, and a new call is one not used before. */
  lemma LookBegins(s: State, f: nat) returns (a: Admission<Value, nat>)
    requires Enabled(s, Look(f))
    ensures var fr, t := s.frames[f], After(s, Look(f));
            && Begins(s.At(fr.cache).m, s.At(fr.cache).inflight, fr.key, s.clock, t.At(fr.cache).inflight, a)
            && t.At(fr.cache).m == s.At(fr.cache).m
            && Admitted(a, t.frames[f].phase)
            && (a.Lead? ==> a.call == |s.calls|)
  {
    var fr := s.frames[f];
    var c := s.At(fr.cache);
    if fr.key in LiveKeys(c.m, s.clock) {
      a := Hit(c.m[fr.key].val);
    } else if fr.key in c.inflight {
      a := Join(c.inflight[fr.key]);
    } else {
      a := Lead(|s.calls|);
    }
  }

  /** While frame f holds a cache's mutex, the actions of others leave that cache alone. */
  lemma OnlyTheHolderTouches(s: State, a: Action, f: nat, c: Cache)
    requires Core(s) && Enabled(s, a) && s.At(c).holder == Some(f) && (a.Tick? || a.f != f)
    ensures After(s, a).At(c) == s.At(c)
  {
    if !a.Tick? {
      assert LockOk(s, a.f);
      if InSection(a) {
        OtherSectionElsewhere(s, a, f, c);
      } else {
        OutsideLeavesCaches(s, a);
      }
    }
  }

  lemma OtherSectionElsewhere(s: State, a: Action, f: nat, c: Cache)
    requires Enabled(s, a) && InSection(a) && LockOk(s, a.f) && s.At(c).holder == Some(f) && a.f != f
    ensures After(s, a).At(c) == s.At(c)
  {
    assert s.frames[a.f].cache != c;
    if a.Look? {
      LookElsewhere(s, a.f, c);
    } else if a.StoreValue? {
      StoreElsewhere(s, a.f, c);
    }
  }

  lemma LookElsewhere(s: State, f: nat, c: Cache)
    requires Enabled(s, Look(f)) && s.frames[f].cache != c
    ensures AfterLook(s, f).At(c) == s.At(c)
  {
  }

  lemma StoreElsewhere(s: State, f: nat, c: Cache)
    requires Enabled(s, StoreValue(f)) && s.frames[f].cache != c
    ensures AfterStore(s, f).At(c) == s.At(c)
  {
  }

  // ---------- the second section ----------

  /** How far frame f has come in the section it began in state s, and what it has done to its cache so far. */
  ghost predicate Underway(s: State, t: State, f: nat)
    requires f < |s.frames| && s.frames[f].phase.Store?
  {
    && f < |t.frames| && s.clock <= t.clock
    && var fr, p := s.frames[f], t.frames[f].phase;
       var c, d := s.At(fr.cache), t.At(fr.cache);
       && t.frames[f].cache == fr.cache && t.frames[f].key == fr.key
       && (p.HoldsLock() ==> d.holder == Some(f) && d.inflight == c.inflight)
       && if p.Store? then p == fr.phase && d.m == c.m
          else if p.Evict? then fr.phase.ttl > 0 && exists now :: PublishedAt(s, t, f, now)
          else if p.Remove? then exists now, evictAt :: StoredAt(s, t, f, now, evictAt)
          else p.Close? || p.Returned?
  }

  predicate PublishedAt(s: State, t: State, f: nat, now: int)
    requires f < |s.frames| && s.frames[f].phase.Store?
  {
    var fr := s.frames[f];
    && s.clock <= now <= t.clock
    && t.At(fr.cache).m == s.At(fr.cache).m[fr.key := Entry(fr.phase.val, now + fr.phase.ttl)]
  }

  /** The value was published at `now`, and the eviction ran at evictAt. */
  ghost predicate StoredAt(s: State, t: State, f: nat, now: int, evictAt: int)
    requires f < |s.frames| && s.frames[f].phase.Store?
  {
    var fr := s.frames[f];
    && s.clock <= now <= evictAt <= t.clock
    && Stores(s.At(fr.cache).m, fr.key, fr.phase.val, fr.phase.ttl,
              now, evictAt, MaxEntries(fr.cache), t.At(fr.cache).m)
  }

  /** Time and the other threads leave the section where it is. */
  lemma OthersLeaveItUnderway(s: State, t: State, u: State, f: nat)
    requires f < |s.frames| && s.frames[f].phase.Store? && Underway(s, t, f)
    requires f < |u.frames| && u.frames[f] == t.frames[f] && t.clock <= u.clock
    requires t.frames[f].phase.HoldsLock() ==> u.At(s.frames[f].cache) == t.At(s.frames[f].cache)
    ensures Underway(s, u, f)
  {
    var p := t.frames[f].phase;
    if p.Evict? {
      var now :| PublishedAt(s, t, f, now);
      assert PublishedAt(s, u, f, now);
    } else if p.Remove? {
      var now, evictAt :| StoredAt(s, t, f, now, evictAt);
      assert StoredAt(s, u, f, now, evictAt);
    }
  }

  lemma StoreGoesOn(s: State, t: State, f: nat)
    requires f < |s.frames| && s.frames[f].phase.Store? && Underway(s, t, f) && Enabled(t, StoreValue(f))
    ensures Underway(s, AfterStore(t, f), f)
  {
    var u := AfterStore(t, f);
    StoredTable(t, f, s.frames[f].cache);
    if s.frames[f].phase.ttl > 0 {
      assert PublishedAt(s, u, f, t.clock);
    } else {
      assert StoredAt(s, u, f, t.clock, t.clock);
    }
    StoreLeavesInFlight(t, f);
  }

  lemma StoreLeavesInFlight(t: State, f: nat)
    requires Enabled(t, StoreValue(f))
    ensures var u, fr := AfterStore(t, f), t.frames[f];
            && u.At(fr.cache).inflight == t.At(fr.cache).inflight
            && f < |u.frames| && u.frames[f].cache == fr.cache && u.frames[f].key == fr.key
            && (fr.phase.ttl > 0 ==> u.frames[f].phase.Evict?) && (fr.phase.ttl <= 0 ==> u.frames[f].phase.Remove?)
  {
  }

  lemma EvictionGoesOn(s: State, t: State, f: nat, kept: map<string, Entry<Value>>)
    requires f < |s.frames| && s.frames[f].phase.Store? && Underway(s, t, f) && Enabled(t, EvictEntries(f, kept))
    ensures Underway(s, After(t, EvictEntries(f, kept)), f)
  {
    var now :| PublishedAt(s, t, f, now);
    EvictionLeaves(t, f, kept);
    EvictedIsStored(s, t, After(t, EvictEntries(f, kept)), f, now);
  }

  lemma EvictedIsStored(s: State, t: State, u: State, f: nat, now: int)
    requires f < |s.frames| && s.frames[f].phase.Store? && s.frames[f].phase.ttl > 0
    requires PublishedAt(s, t, f, now) && u.clock == t.clock
    requires var c := s.frames[f].cache; Evicted(t.At(c).m, t.clock, MaxEntries(c), u.At(c).m)
    ensures StoredAt(s, u, f, now, t.clock)
  {
  }

  lemma EvictionLeaves(t: State, f: nat, kept: map<string, Entry<Value>>)
    requires Enabled(t, EvictEntries(f, kept))
    ensures var u, fr := After(t, EvictEntries(f, kept)), t.frames[f];
            && u.clock == t.clock && f < |u.frames| && u.frames[f].phase.Remove?
            && u.frames[f].cache == fr.cache && u.frames[f].key == fr.key
            && u.At(fr.cache) == t.At(fr.cache).(m := kept)
  {
  }

  lemma OwnActionGoesOn(s: State, t: State, a: Action)
    requires !a.Tick? && a.f < |s.frames| && s.frames[a.f].phase.Store? && Underway(s, t, a.f) && Enabled(t, a)
    requires Shape(t)
    ensures Underway(s, After(t, a), a.f)
  {
    assert FrameShape(t, a.f);
    if a.StoreValue? {
      StoreGoesOn(s, t, a.f);
    } else if a.EvictEntries? {
      EvictionGoesOn(s, t, a.f, a.kept);
    }
  }

  lemma OthersLeaveTheFrame(t: State, a: Action, f: nat)
    requires Shape(t) && Enabled(t, a) && (a.Tick? || a.f != f) && f < |t.frames| && !t.frames[f].phase.Idle?
    ensures var u := After(t, a); f < |u.frames| && u.frames[f] == t.frames[f] && t.clock <= u.clock
  {
    if !a.Tick? {
      assert FrameShape(t, a.f);
      if a.OriginAnswer? && a.origin.Found? {
        assert t.frames[t.n + a.f].phase.Idle?;
      } else {
        ActionIsPlain(t, a);
      }
    }
  }

  lemma GoesOn(s: State, t: State, a: Action, f: nat)
    requires f < |s.frames| && s.frames[f].phase.Store? && Underway(s, t, f)
    requires Inv(t) && Enabled(t, a) && Grows(t, After(t, a))
    ensures Underway(s, After(t, a), f)
  {
    if !a.Tick? && a.f == f {
      OwnActionGoesOn(s, t, a);
    } else {
      OthersLeaveTheFrame(t, a, f);
      if t.frames[f].phase.HoldsLock() {
        OnlyTheHolderTouches(t, a, f, s.frames[f].cache);
      }
      OthersLeaveItUnderway(s, t, After(t, a), f);
    }
  }

  lemma {:induction false} StaysUnderway(s: State, t: State, acts: seq<Action>, f: nat)
    requires f < |s.frames| && s.frames[f].phase.Store? && Underway(s, t, f)
    requires Inv(t) && Steps(t, acts)
    ensures Underway(s, Exec(t, acts), f) && Inv(Exec(t, acts))
    decreases |acts|
  {
    if acts != [] {
      InvKept(t, acts[0]);
      GoesOn(s, t, acts[0], f);
      StaysUnderway(s, After(t, acts[0]), acts[1..], f);
    }
  }

  /**
   The second section of Do is atomic. From taking the mutex to its last step, whatever the other threads do in
   between, the section stores, evicts and deletes exactly as Finish does on the cache it found.
   */
  lemma SectionFinishes(s: State, acts: seq<Action>, f: nat) returns (now: int, evictAt: int)
    requires Inv(s) && f < |s.frames| && s.frames[f].phase.Store?
    requires Steps(s, acts) && Enabled(Exec(s, acts), RemoveCall(f))
    ensures var fr, t := s.frames[f], Exec(s, acts);
            var c, d := s.At(fr.cache), After(t, RemoveCall(f)).At(fr.cache);
            && s.clock <= now <= evictAt <= t.clock
            && Stores(c.m, fr.key, fr.phase.val, fr.phase.ttl, now, evictAt, MaxEntries(fr.cache), d.m)
            && d.inflight == c.inflight - {fr.key} && d.holder == None
  {
    SectionBegins(s, f);
    StaysUnderway(s, s, acts, f);
    now, evictAt := SectionEnds(s, Exec(s, acts), f);
  }

  lemma SectionBegins(s: State, f: nat)
    requires Core(s) && f < |s.frames| && s.frames[f].phase.Store?
    ensures Underway(s, s, f)
  {
    assert LockOk(s, f);
  }

  lemma SectionEnds(s: State, t: State, f: nat) returns (now: int, evictAt: int)
    requires f < |s.frames| && s.frames[f].phase.Store? && Underway(s, t, f) && Enabled(t, RemoveCall(f))
    ensures var fr := s.frames[f];
            var c, d := s.At(fr.cache), After(t, RemoveCall(f)).At(fr.cache);
            && s.clock <= now <= evictAt <= t.clock
            && Stores(c.m, fr.key, fr.phase.val, fr.phase.ttl, now, evictAt, MaxEntries(fr.cache), d.m)
            && d.inflight == c.inflight - {fr.key} && d.holder == None
  {
    now, evictAt :| StoredAt(s, t, f, now, evictAt);
  }
}
