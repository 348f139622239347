/**
 What every step of the protocol keeps, and the safety it gives in every reachable interleaving.
 */
module SingleFlightSafety {
  import opened Common
  import opened TtlCache
  import opened SingleFlight

  // ---------- the invariant ----------

  predicate FrameShape(s: State, f: nat)
    requires f < |s.frames| == 2 * s.n
  {
    var fr := s.frames[f];
    if f < s.n then
      && fr.cache != Org && !fr.phase.Idle?
      && (fr.phase.Nested? ==> fr.cache == Origin && !s.frames[s.n + f].phase.Idle?)
      && (fr.phase.HasPermit() ==> fr.cache == Whois)
      && (fr.phase.WantLock? || fr.phase.Inspect? || fr.phase.Run? ==> s.frames[s.n + f].phase.Idle?)
    else
      fr.cache == Org && !fr.phase.Nested? && !fr.phase.HasPermit()
  }

  predicate Shape(s: State) {
    && |s.frames| == 2 * s.n
    && forall f :: 0 <= f < |s.frames| ==> FrameShape(s, f)
  }

  /** A mutex is held by exactly the frame that is inside one of its sections. */
  predicate HolderOk(s: State, c: Cache) {
    s.At(c).holder.Some? ==>
      var f := s.At(c).holder.value;
      f < |s.frames| && s.frames[f].cache == c && s.frames[f].phase.HoldsLock()
  }

  predicate LockOk(s: State, f: nat)
    requires f < |s.frames|
  {
    s.frames[f].phase.HoldsLock() ==> s.At(s.frames[f].cache).holder == Some(f)
  }

  predicate Locks(s: State) {
    && (forall f :: 0 <= f < |s.frames| ==> LockOk(s, f))
    && HolderOk(s, Origin) && HolderOk(s, Org) && HolderOk(s, Whois)
  }

  predicate LeaderOf(s: State, f: nat, id: nat)
    requires f < |s.frames|
  {
    var fr := s.frames[f];
    && id < |s.calls|
    && fr.phase.Leads() && fr.phase.call == id
    && s.calls[id].cache == fr.cache && s.calls[id].key == fr.key
    && s.calls[id].leader == f && !s.calls[id].done
    && (s.calls[id].val.Some? <==> fr.phase.Evict? || fr.phase.Remove? || fr.phase.Close?)
    && (id in s.runs <==> fr.phase.Computed())
    && (fr.phase.Registered() ==> fr.key in s.At(fr.cache).inflight && s.At(fr.cache).inflight[fr.key] == id)
  }

  predicate LeadOk(s: State, f: nat)
    requires f < |s.frames|
  {
    s.frames[f].phase.Leads() ==> LeaderOf(s, f, s.frames[f].phase.call)
  }

  /** An entry of an in-flight map is the call of a frame still registered as its leader. */
  predicate InFlightOk(s: State, c: Cache, k: string)
    requires k in s.At(c).inflight
  {
    var id := s.At(c).inflight[k];
    && id < |s.calls| && s.calls[id].cache == c && s.calls[id].key == k
    && s.calls[id].leader < |s.frames|
    && s.frames[s.calls[id].leader].phase.Registered()
    && LeaderOf(s, s.calls[id].leader, id)
  }

  predicate InFlight(s: State, c: Cache) {
    forall k :: k in s.At(c).inflight ==> InFlightOk(s, c, k)
  }

  /** A call is open while its leader is at work; what it holds is what its computation returned. */
  predicate CallOk(s: State, id: nat)
    requires id < |s.calls|
  {
    var call := s.calls[id];
    && call.leader < |s.frames|
    && (!call.done ==> LeaderOf(s, call.leader, id))
    && (call.done ==> call.val.Some?)
    && (call.val.Some? ==> id in s.runs && s.runs[id] == call.val.value)
  }

  /** Call id answers frame f's question. */
  predicate Answers(s: State, f: nat, id: nat)
    requires f < |s.frames|
  {
    id < |s.calls| && s.calls[id].cache == s.frames[f].cache && s.calls[id].key == s.frames[f].key
  }

  predicate ValueOk(s: State, f: nat)
    requires f < |s.frames|
  {
    var fr := s.frames[f];
    && (fr.phase.Await? ==> Answers(s, f, fr.phase.call))
    && (fr.phase.Computed() ==> fr.phase.call in s.runs && s.runs[fr.phase.call] == fr.phase.val)
    && (fr.phase.Returned? ==> Justified(s, f, fr.phase.val))
  }

  /** The value was computed for the same key: by the call waited on or led, or by one still live when read. */
  predicate Justified(s: State, f: nat, v: Value)
    requires f < |s.frames|
  {
    match s.frames[f].via
    case Unset => false
    case FromCall(id) => Answers(s, f, id) && id in s.runs && s.runs[id] == v
    case FromCache(at, pub) =>
      && Answers(s, f, pub.call) && pub.call in s.runs && s.runs[pub.call] == v
      && pub.at <= at < pub.at + pub.ttl
      && at <= s.clock
  }

  /** Everything about locks, calls and values. */
  predicate Core(s: State) {
    && Locks(s)
    && (forall f :: 0 <= f < |s.frames| ==> LeadOk(s, f))
    && InFlight(s, Origin) && InFlight(s, Org) && InFlight(s, Whois)
    && (forall id :: 0 <= id < |s.calls| ==> CallOk(s, id))
    && (forall id :: id in s.runs ==> id < |s.calls|)
    && (forall f :: 0 <= f < |s.frames| ==> ValueOk(s, f))
  }

  predicate EntryOk(s: State, c: Cache, k: string)
    requires k in s.At(c).m
  {
    && k in s.At(c).source
    && var e, pub := s.At(c).m[k], s.At(c).source[k];
       && pub.call < |s.calls| && s.calls[pub.call].cache == c && s.calls[pub.call].key == k
       && pub.call in s.runs && s.runs[pub.call] == e.val
       && pub.ttl > 0 && pub.at <= s.clock && e.expires == pub.at + pub.ttl
  }

  predicate Entries(s: State, c: Cache) {
    forall k :: k in s.At(c).m ==> EntryOk(s, c, k)
  }

  function PermitHolders(frames: seq<Frame>): set<nat> {
    set f: nat | 0 <= f < |frames| && frames[f].phase.HasPermit()
  }

  predicate Permits(s: State) {
    s.permits == |PermitHolders(s.frames)| <= MAX_IN_FLIGHT
  }

  /** A cache is over its cap only between the store and the eviction of one section. */
  predicate SizeOk(s: State, c: Cache) {
    || |s.At(c).m| <= MaxEntries(c)
    || (&& s.At(c).holder.Some? && s.At(c).holder.value < |s.frames|
        && s.frames[s.At(c).holder.value].phase.Evict?
        && |s.At(c).m| == MaxEntries(c) + 1)
  }

  predicate Inv(s: State) {
    && Shape(s) && Core(s) && Bounds(s)
  }

  /** Everything about entries, permits and sizes. */
  predicate Bounds(s: State) {
    && Entries(s, Origin) && Entries(s, Org) && Entries(s, Whois)
    && Permits(s)
    && SizeOk(s, Origin) && SizeOk(s, Org) && SizeOk(s, Whois)
  }

  lemma InitialInv(s: State)
    requires Initial(s)
    ensures Inv(s)
  {
    forall f | 0 <= f < |s.frames| ensures FrameShape(s, f) && LockOk(s, f) && LeadOk(s, f) && ValueOk(s, f) {
      if f >= s.n {
        assert s.frames[f] == Frame(Org, "", Idle, Unset);
      } else {
        assert s.frames[f].phase == WantLock;
        assert s.frames[s.n + f] == Frame(Org, "", Idle, Unset);
      }
    }
    assert PermitHolders(s.frames) == {} by {
      forall f: nat | f < |s.frames| ensures !s.frames[f].phase.HasPermit() {
        assert f < s.n ==> s.frames[f].phase == WantLock;
      }
    }
    assert s.At(Origin) == s.At(Org) == s.At(Whois) == CacheState(map[], map[], None, map[]);
  }

  // ---------- a step of one frame, seen from the others ----------

  /** A call keeps its identity and what is written in it; only its leader may change it. */
  predicate CallEvolves(a: CallRecord, b: CallRecord, f: nat) {
    && b.cache == a.cache && b.key == a.key && b.leader == a.leader
    && (a.val.Some? ==> b.val == a.val)
    && (a.done ==> b == a)
    && (a.leader != f ==> b == a)
  }

  predicate HolderEvolves(a: Option<nat>, b: Option<nat>, f: nat) {
    b == a || (a == None && b == Some(f)) || (a == Some(f) && b == None)
  }

  predicate CacheEvolves(s: State, t: State, f: nat, c: Cache) {
    var x, y := s.At(c), t.At(c);
    && HolderEvolves(x.holder, y.holder, f)
    && (forall k :: k in x.inflight ==> InFlightStays(s, t, f, c, k))
    && (forall k :: k in y.inflight ==> InFlightComes(s, t, f, c, k))
  }

  predicate InFlightStays(s: State, t: State, f: nat, c: Cache, k: string)
    requires k in s.At(c).inflight
  {
    var id := s.At(c).inflight[k];
    id < |s.calls| && s.calls[id].leader != f ==> k in t.At(c).inflight && t.At(c).inflight[k] == id
  }

  predicate InFlightComes(s: State, t: State, f: nat, c: Cache, k: string)
    requires k in t.At(c).inflight
  {
    var id := t.At(c).inflight[k];
    || (k in s.At(c).inflight && s.At(c).inflight[k] == id && id < |s.calls| && s.calls[id].leader != f)
    || (id < |t.calls| && t.calls[id].leader == f && InFlightOk(t, c, k))
  }

  predicate FramesEvolve(s: State, t: State, f: nat) {
    && f < |s.frames| == |t.frames| && t.n == s.n && t.clock >= s.clock
    && forall g :: 0 <= g < |s.frames| && g != f ==> t.frames[g] == s.frames[g]
  }

  predicate CallsEvolve(s: State, t: State, f: nat) {
    && |s.calls| <= |t.calls|
    && (forall id :: 0 <= id < |s.calls| ==> CallEvolves(s.calls[id], t.calls[id], f))
    && (forall id :: |s.calls| <= id < |t.calls| ==> t.calls[id].leader == f)
  }

  predicate RunsEvolve(s: State, t: State, f: nat) {
    && (forall id :: id in s.runs ==> id in t.runs && t.runs[id] == s.runs[id])
    && (forall id :: id in t.runs ==> id in s.runs || (id < |s.calls| && s.calls[id].leader == f))
  }

  /** Frame f makes a step from s to t: what the step may touch. */
  predicate LocalStep(s: State, t: State, f: nat) {
    && FramesEvolve(s, t, f) && CallsEvolve(s, t, f) && RunsEvolve(s, t, f)
    && CacheEvolves(s, t, f, Origin) && CacheEvolves(s, t, f, Org) && CacheEvolves(s, t, f, Whois)
  }

  /** What history keeps in any step: calls keep their identity, runs their value, and time does not go back. */
  predicate Grows(s: State, t: State) {
    && t.clock >= s.clock && |s.calls| <= |t.calls|
    && (forall id :: 0 <= id < |s.calls| ==>
          t.calls[id].cache == s.calls[id].cache && t.calls[id].key == s.calls[id].key)
    && (forall id :: id in s.runs ==> id in t.runs && t.runs[id] == s.runs[id])
  }

  lemma LocalStepGrows(s: State, t: State, f: nat)
    requires LocalStep(s, t, f)
    ensures Grows(s, t)
  {
    forall id | 0 <= id < |s.calls|
      ensures t.calls[id].cache == s.calls[id].cache && t.calls[id].key == s.calls[id].key
    {
      assert CallEvolves(s.calls[id], t.calls[id], f);
    }
  }

  lemma CacheEvolvesAt(s: State, t: State, f: nat, c: Cache)
    requires LocalStep(s, t, f)
    ensures CacheEvolves(s, t, f, c)
  {
  }

  lemma InFlightAt(s: State, c: Cache)
    requires Core(s)
    ensures InFlight(s, c) && HolderOk(s, c)
  {
  }

  lemma OthersLead(s: State, t: State, f: nat, g: nat)
    requires Core(s) && LocalStep(s, t, f) && g < |s.frames| && g != f && s.frames[g].phase.Leads()
    ensures LeaderOf(t, g, s.frames[g].phase.call)
  {
    assert LeadOk(s, g);
    var id := s.frames[g].phase.call;
    assert CallEvolves(s.calls[id], t.calls[id], f);
    var c := s.frames[g].cache;
    CacheEvolvesAt(s, t, f, c);
    if s.frames[g].phase.Registered() {
      assert InFlightStays(s, t, f, c, s.frames[g].key);
    }
  }

  lemma OthersValue(s: State, t: State, f: nat, g: nat)
    requires Core(s) && LocalStep(s, t, f) && g < |s.frames| && g != f
    ensures ValueOk(t, g)
  {
    assert ValueOk(s, g);
    forall id: nat | Answers(s, g, id) ensures Answers(t, g, id) {
      assert CallEvolves(s.calls[id], t.calls[id], f);
    }
    if s.frames[g].phase.Returned? {
      match s.frames[g].via {
        case Unset =>
        case FromCall(id) => assert Answers(s, g, id);
        case FromCache(at, pub) => assert Answers(s, g, pub.call);
      }
    }
  }

  lemma OthersCall(s: State, t: State, f: nat, id: nat)
    requires Core(s) && LocalStep(s, t, f) && id < |t.calls| && t.calls[id].leader != f
    ensures CallOk(t, id)
  {
    assert CallOk(s, id);
    assert CallEvolves(s.calls[id], t.calls[id], f);
    if !t.calls[id].done {
      OthersLead(s, t, f, t.calls[id].leader);
    }
  }

  lemma InFlightKept(s: State, t: State, f: nat, c: Cache)
    requires Core(s) && LocalStep(s, t, f)
    ensures InFlight(t, c)
  {
    CacheEvolvesAt(s, t, f, c);
    InFlightAt(s, c);
    forall k | k in t.At(c).inflight ensures InFlightOk(t, c, k) {
      assert InFlightComes(s, t, f, c, k);
      var id := t.At(c).inflight[k];
      if k in s.At(c).inflight && s.At(c).inflight[k] == id && s.calls[id].leader != f {
        assert InFlightOk(s, c, k);
        OthersLead(s, t, f, s.calls[id].leader);
        assert CallEvolves(s.calls[id], t.calls[id], f);
      }
    }
  }

  lemma OwnCall(s: State, t: State, f: nat, id: nat)
    requires Core(s) && LocalStep(s, t, f) && id < |s.calls| && s.calls[id].leader == f
    requires s.frames[f].phase.Leads() ==> s.frames[f].phase.call < |t.calls| && CallOk(t, s.frames[f].phase.call)
    ensures CallOk(t, id)
  {
    assert CallOk(s, id);
    assert CallEvolves(s.calls[id], t.calls[id], f);
  }

  /** A step of frame f keeps Core when it leaves f itself, and the call f leads, in order. */
  lemma LocalStepKeepsCore(s: State, t: State, f: nat)
    requires Core(s) && LocalStep(s, t, f)
    requires LockOk(t, f) && LeadOk(t, f) && ValueOk(t, f)
    requires HolderOk(t, Origin) && HolderOk(t, Org) && HolderOk(t, Whois)
    requires s.frames[f].phase.Leads() ==> s.frames[f].phase.call < |t.calls| && CallOk(t, s.frames[f].phase.call)
    requires forall id :: |s.calls| <= id < |t.calls| ==> CallOk(t, id)
    ensures Core(t) && Grows(s, t)
  {
    LocalStepGrows(s, t, f);
    forall g | 0 <= g < |t.frames| ensures LockOk(t, g) && LeadOk(t, g) && ValueOk(t, g) {
      if g != f {
        assert LockOk(s, g);
        CacheEvolvesAt(s, t, f, s.frames[g].cache);
        OthersValue(s, t, f, g);
        if s.frames[g].phase.Leads() {
          OthersLead(s, t, f, g);
        }
      }
    }
    forall id | 0 <= id < |t.calls| ensures CallOk(t, id) {
      if t.calls[id].leader != f {
        OthersCall(s, t, f, id);
      } else if id < |s.calls| {
        assert CallEvolves(s.calls[id], t.calls[id], f);
        OwnCall(s, t, f, id);
      }
    }
    InFlightKept(s, t, f, Origin);
    InFlightKept(s, t, f, Org);
    InFlightKept(s, t, f, Whois);
  }

  // ---------- each action keeps Core ----------

  predicate FrameOk(s: State, f: nat)
    requires f < |s.frames|
  {
    && LockOk(s, f) && LeadOk(s, f) && ValueOk(s, f)
    && (s.frames[f].phase.Leads() ==> s.frames[f].phase.call < |s.calls| && CallOk(s, s.frames[f].phase.call))
  }

  predicate Holders(s: State) {
    HolderOk(s, Origin) && HolderOk(s, Org) && HolderOk(s, Whois)
  }

  predicate Caches(s: State) {
    Holders(s) && InFlight(s, Origin) && InFlight(s, Org) && InFlight(s, Whois)
  }

  lemma CoreParts(s: State, f: nat)
    requires Core(s) && f < |s.frames|
    ensures FrameOk(s, f) && Caches(s)
  {
    if s.frames[f].phase.Leads() {
      assert LeadOk(s, f);
      assert CallOk(s, s.frames[f].phase.call);
    }
  }

  /** The in-flight entries of a cache whose in-flight map a step of f leaves alone. */
  lemma InFlightUntouched(s: State, t: State, f: nat, c: Cache)
    requires InFlight(s, c) && CallsEvolve(s, t, f) && f < |s.frames| == |t.frames|
    requires t.At(c).inflight == s.At(c).inflight
    requires s.frames[f].phase.Registered() ==>
               t.frames[f].phase.Registered() && LeaderOf(t, f, s.frames[f].phase.call)
    ensures forall k :: k in s.At(c).inflight ==> InFlightStays(s, t, f, c, k)
    ensures forall k :: k in t.At(c).inflight ==> InFlightComes(s, t, f, c, k)
  {
    forall k | k in t.At(c).inflight ensures InFlightComes(s, t, f, c, k) {
      assert InFlightOk(s, c, k);
      var id := t.At(c).inflight[k];
      assert CallEvolves(s.calls[id], t.calls[id], f);
    }
  }

  lemma AllUntouched(s: State, t: State, f: nat)
    requires Caches(s) && CallsEvolve(s, t, f) && f < |s.frames| == |t.frames|
    requires t.origin.inflight == s.origin.inflight && t.org.inflight == s.org.inflight
    requires t.whois.inflight == s.whois.inflight
    requires HolderEvolves(s.origin.holder, t.origin.holder, f)
    requires HolderEvolves(s.org.holder, t.org.holder, f)
    requires HolderEvolves(s.whois.holder, t.whois.holder, f)
    requires s.frames[f].phase.Registered() ==>
               t.frames[f].phase.Registered() && LeaderOf(t, f, s.frames[f].phase.call)
    ensures CacheEvolves(s, t, f, Origin) && CacheEvolves(s, t, f, Org) && CacheEvolves(s, t, f, Whois)
  {
    InFlightUntouched(s, t, f, Origin);
    InFlightUntouched(s, t, f, Org);
    InFlightUntouched(s, t, f, Whois);
  }

  lemma SameCallsEvolve(s: State, t: State, f: nat)
    requires t.calls == s.calls
    ensures CallsEvolve(s, t, f)
  {
  }

  lemma SameRunsEvolve(s: State, t: State, f: nat)
    requires t.runs == s.runs
    ensures RunsEvolve(s, t, f)
  {
  }

  lemma OneFrameEvolves(s: State, t: State, f: nat, fr: Frame)
    requires f < |s.frames| && t.frames == s.frames[f := fr] && t.n == s.n && t.clock == s.clock
    ensures FramesEvolve(s, t, f)
  {
  }

  /** The actions that touch neither a cache nor a call record: only f's phase and the run history change. */
  lemma QuietStepKeepsCore(s: State, t: State, f: nat, phase: Phase)
    requires Core(s) && f < |s.frames|
    requires QuietStep(s, t, f, phase)
    ensures Core(t) && Grows(s, t)
  {
    CoreParts(s, f);
    QuietStepOwn(s, t, f, phase);
    QuietStepLocal(s, t, f, phase);
    QuietStepHolders(s, t, f, phase);
    LocalStepKeepsCore(s, t, f);
  }

  predicate QuietStep(s: State, t: State, f: nat, phase: Phase)
    requires f < |s.frames|
  {
    && s.frames[f].phase.Computing()
    && t.frames == s.frames[f := s.frames[f].(phase := phase)] && t.n == s.n && t.clock == s.clock
    && t.origin == s.origin && t.org == s.org && t.whois == s.whois && t.calls == s.calls
    && (phase.Computing() || phase.WantPublish?)
    && phase.call == s.frames[f].phase.call
    && t.runs == (if phase.Computed() then s.runs[phase.call := phase.val] else s.runs)
    && (s.frames[f].phase.Computed() ==> phase.Computed() && phase.val == s.frames[f].phase.val)
  }

  lemma QuietStepOwn(s: State, t: State, f: nat, phase: Phase)
    requires f < |s.frames| && QuietStep(s, t, f, phase) && FrameOk(s, f)
    ensures FrameOk(t, f) && LeaderOf(t, f, phase.call)
  {
  }

  lemma QuietStepLocal(s: State, t: State, f: nat, phase: Phase)
    requires f < |s.frames| && QuietStep(s, t, f, phase) && Caches(s)
    requires FrameOk(s, f) && LeaderOf(t, f, phase.call)
    ensures LocalStep(s, t, f)
  {
    SameCallsEvolve(s, t, f);
    OneFrameEvolves(s, t, f, t.frames[f]);
    AllUntouched(s, t, f);
  }

  lemma QuietStepHolders(s: State, t: State, f: nat, phase: Phase)
    requires f < |s.frames| && QuietStep(s, t, f, phase) && Holders(s)
    ensures Holders(t)
  {
  }

  /** Frame f takes the mutex of its cache. */
  predicate AcquireStep(s: State, t: State, f: nat)
    requires f < |s.frames|
  {
    var fr := s.frames[f];
    && fr.phase.WantsLock() && s.At(fr.cache).holder == None
    && t == s.With(fr.cache, s.At(fr.cache).(holder := Some(f))).To(f,
              if fr.phase.WantLock? then Inspect else Store(fr.phase.call, fr.phase.val, fr.phase.ttl))
  }

  lemma AcquireKeepsCore(s: State, f: nat)
    requires Core(s) && Enabled(s, Acquire(f))
    ensures Core(After(s, Acquire(f))) && Grows(s, After(s, Acquire(f)))
  {
    var t := After(s, Acquire(f));
    assert AcquireStep(s, t, f);
    CoreParts(s, f);
    AcquireOwn(s, t, f);
    AcquireLocal(s, t, f);
    LocalStepKeepsCore(s, t, f);
  }

  lemma AcquireOwn(s: State, t: State, f: nat)
    requires f < |s.frames| && AcquireStep(s, t, f) && FrameOk(s, f) && Holders(s)
    ensures FrameOk(t, f) && Holders(t)
  {
  }

  lemma AcquireLocal(s: State, t: State, f: nat)
    requires f < |s.frames| && AcquireStep(s, t, f) && Caches(s)
    requires s.frames[f].phase.Registered() ==> LeaderOf(t, f, s.frames[f].phase.call)
    ensures LocalStep(s, t, f)
  {
    SameCallsEvolve(s, t, f);
    SameRunsEvolve(s, t, f);
    OneFrameEvolves(s, t, f, t.frames[f]);
    AllUntouched(s, t, f);
  }

  // Look: the section answers from the cache, joins a call, or opens one.

  predicate HitStep(s: State, t: State, f: nat)
    requires f < |s.frames|
  {
    var fr := s.frames[f];
    var c := s.At(fr.cache);
    && fr.phase.Inspect?
    && fr.key in c.m && s.clock < c.m[fr.key].expires && fr.key in c.source
    && t == s.With(fr.cache, c.(holder := None)).Return(f, c.m[fr.key].val, FromCache(s.clock, c.source[fr.key]))
  }

  lemma HitKeepsCore(s: State, t: State, f: nat)
    requires Core(s) && f < |s.frames| && HitStep(s, t, f) && EntryOk(s, s.frames[f].cache, s.frames[f].key)
    ensures Core(t) && Grows(s, t)
  {
    CoreParts(s, f);
    HitOwn(s, t, f);
    LeaveSectionLocal(s, t, f);
    LocalStepKeepsCore(s, t, f);
  }

  lemma HitOwn(s: State, t: State, f: nat)
    requires f < |s.frames| && HitStep(s, t, f) && EntryOk(s, s.frames[f].cache, s.frames[f].key)
    requires LockOk(s, f) && Holders(s)
    ensures FrameOk(t, f) && Holders(t)
  {
  }

  /** The sections that free the mutex and change nothing else but f's own frame. */
  lemma LeaveSectionLocal(s: State, t: State, f: nat)
    requires f < |s.frames| && s.frames[f].phase.Inspect? && LockOk(s, f) && Caches(s)
    requires |t.frames| == |s.frames| && t.frames == s.frames[f := t.frames[f]]
    requires var c := s.frames[f].cache; t == s.With(c, s.At(c).(holder := None)).(frames := t.frames)
    ensures LocalStep(s, t, f)
  {
    SameCallsEvolve(s, t, f);
    SameRunsEvolve(s, t, f);
    OneFrameEvolves(s, t, f, t.frames[f]);
    AllUntouched(s, t, f);
  }

  predicate JoinStep(s: State, t: State, f: nat)
    requires f < |s.frames|
  {
    var fr := s.frames[f];
    var c := s.At(fr.cache);
    && fr.phase.Inspect? && fr.key in c.inflight
    && t == s.With(fr.cache, c.(holder := None)).To(f, Await(c.inflight[fr.key]))
  }

  lemma JoinKeepsCore(s: State, t: State, f: nat)
    requires Core(s) && f < |s.frames| && JoinStep(s, t, f)
    ensures Core(t) && Grows(s, t)
  {
    CoreParts(s, f);
    InFlightAt(s, s.frames[f].cache);
    assert InFlightOk(s, s.frames[f].cache, s.frames[f].key);
    JoinOwn(s, t, f);
    LeaveSectionLocal(s, t, f);
    LocalStepKeepsCore(s, t, f);
  }

  lemma JoinOwn(s: State, t: State, f: nat)
    requires f < |s.frames| && JoinStep(s, t, f) && InFlightOk(s, s.frames[f].cache, s.frames[f].key)
    requires LockOk(s, f) && Holders(s)
    ensures FrameOk(t, f) && Holders(t)
  {
  }

  predicate LeadStep(s: State, t: State, f: nat)
    requires f < |s.frames|
  {
    var fr := s.frames[f];
    var c := s.At(fr.cache);
    && fr.phase.Inspect? && fr.key !in c.inflight
    && t == s.With(fr.cache, c.(holder := None, inflight := c.inflight[fr.key := |s.calls|]))
             .To(f, Run(|s.calls|))
             .(calls := s.calls + [CallRecord(fr.cache, fr.key, f, None, false)])
  }

  lemma LeadKeepsCore(s: State, t: State, f: nat)
    requires Core(s) && f < |s.frames| && LeadStep(s, t, f)
    ensures Core(t) && Grows(s, t)
  {
    CoreParts(s, f);
    LeadOwn(s, t, f);
    LeadLocal(s, t, f);
    LocalStepKeepsCore(s, t, f);
  }

  lemma LeadOwn(s: State, t: State, f: nat)
    requires f < |s.frames| && LeadStep(s, t, f)
    requires LockOk(s, f) && Holders(s)
    requires forall id :: id in s.runs ==> id < |s.calls|
    ensures FrameOk(t, f) && Holders(t) && LeaderOf(t, f, |s.calls|) && CallOk(t, |s.calls|)
  {
    assert LeaderOf(t, f, |s.calls|);
  }

  lemma LeadLocal(s: State, t: State, f: nat)
    requires f < |s.frames| && LeadStep(s, t, f) && Caches(s)
    requires LockOk(s, f) && LeaderOf(t, f, |s.calls|)
    ensures LocalStep(s, t, f)
  {
    CallsAppended(s, t, f);
    SameRunsEvolve(s, t, f);
    OneFrameEvolves(s, t, f, t.frames[f]);
    LeadInFlight(s, t, f, Origin);
    LeadInFlight(s, t, f, Org);
    LeadInFlight(s, t, f, Whois);
  }

  lemma CallsAppended(s: State, t: State, f: nat)
    requires |t.calls| == |s.calls| + 1 && t.calls[..|s.calls|] == s.calls && t.calls[|s.calls|].leader == f
    ensures CallsEvolve(s, t, f)
  {
    forall id | 0 <= id < |s.calls| ensures CallEvolves(s.calls[id], t.calls[id], f) {
      assert t.calls[id] == t.calls[..|s.calls|][id];
    }
  }

  lemma LeadInFlight(s: State, t: State, f: nat, c: Cache)
    requires f < |s.frames| && LeadStep(s, t, f) && InFlight(s, c) && CallsEvolve(s, t, f)
    requires LockOk(s, f) && LeaderOf(t, f, |s.calls|)
    ensures CacheEvolves(s, t, f, c)
  {
    if c != s.frames[f].cache {
      InFlightUntouched(s, t, f, c);
    } else {
      forall k | k in t.At(c).inflight ensures InFlightComes(s, t, f, c, k) {
        if k != s.frames[f].key {
          assert InFlightOk(s, c, k);
        } else {
          assert InFlightOk(t, c, k);
        }
      }
    }
  }

  lemma LookKeepsCore(s: State, f: nat)
    requires Core(s) && Enabled(s, Look(f)) && Entries(s, s.frames[f].cache)
    ensures Core(After(s, Look(f))) && Grows(s, After(s, Look(f)))
  {
    var t := AfterLook(s, f);
    var fr := s.frames[f];
    var c := s.At(fr.cache);
    if fr.key in c.m && s.clock < c.m[fr.key].expires {
      assert EntryOk(s, fr.cache, fr.key);
      HitKeepsCore(s, t, f);
    } else if fr.key in c.inflight {
      JoinKeepsCore(s, t, f);
    } else {
      LeadKeepsCore(s, t, f);
    }
  }

  // Wake: a waiter reads the value of a closed call.

  predicate WakeStep(s: State, t: State, f: nat)
    requires f < |s.frames|
  {
    && s.frames[f].phase.Await?
    && var id := s.frames[f].phase.call;
       && id < |s.calls| && s.calls[id].done && s.calls[id].val.Some?
       && t == s.Return(f, s.calls[id].val.value, FromCall(id))
  }

  /** No waiter reads a value before it is written. */
  lemma WokenReadsWritten(s: State, f: nat)
    requires Core(s) && Enabled(s, Wake(f))
    ensures s.calls[s.frames[f].phase.call].val.Some?
  {
    assert CallOk(s, s.frames[f].phase.call);
  }

  lemma WakeKeepsCore(s: State, f: nat)
    requires Core(s) && Enabled(s, Wake(f))
    ensures Core(After(s, Wake(f))) && Grows(s, After(s, Wake(f)))
  {
    var t := After(s, Wake(f));
    WokenReadsWritten(s, f);
    assert WakeStep(s, t, f);
    CoreParts(s, f);
    assert CallOk(s, s.frames[f].phase.call);
    WakeOwn(s, t, f);
    WakeLocal(s, t, f);
    LocalStepKeepsCore(s, t, f);
  }

  lemma WakeOwn(s: State, t: State, f: nat)
    requires f < |s.frames| && WakeStep(s, t, f) && FrameOk(s, f) && Holders(s)
    requires CallOk(s, s.frames[f].phase.call)
    ensures FrameOk(t, f) && Holders(t)
  {
  }

  lemma WakeLocal(s: State, t: State, f: nat)
    requires f < |s.frames| && WakeStep(s, t, f) && Caches(s)
    ensures LocalStep(s, t, f)
  {
    SameCallsEvolve(s, t, f);
    SameRunsEvolve(s, t, f);
    OneFrameEvolves(s, t, f, t.frames[f]);
    AllUntouched(s, t, f);
  }

  // Store, Evict, Remove, Close: the end of a computation.

  /** The leader writes into its own call record and moves on. */
  predicate OwnCallStep(s: State, t: State, f: nat, record: CallRecord)
    requires f < |s.frames|
  {
    && s.frames[f].phase.Leads() && s.frames[f].phase.call < |s.calls|
    && t.calls == s.calls[s.frames[f].phase.call := record]
    && CallEvolves(s.calls[s.frames[f].phase.call], record, f)
  }

  lemma OwnCallEvolves(s: State, t: State, f: nat, record: CallRecord)
    requires f < |s.frames| && OwnCallStep(s, t, f, record)
    ensures CallsEvolve(s, t, f)
  {
  }

  lemma StoreKeepsCore(s: State, f: nat)
    requires Core(s) && Enabled(s, StoreValue(f))
    ensures Core(After(s, StoreValue(f))) && Grows(s, After(s, StoreValue(f)))
  {
    var t := AfterStore(s, f);
    CoreParts(s, f);
    StoreOwn(s, t, f);
    StoreLocal(s, t, f);
    LocalStepKeepsCore(s, t, f);
  }

  lemma StoreOwn(s: State, t: State, f: nat)
    requires f < |s.frames| && s.frames[f].phase.Store? && s.frames[f].phase.call < |s.calls|
    requires t == AfterStore(s, f) && FrameOk(s, f) && Holders(s)
    ensures FrameOk(t, f) && Holders(t) && LeaderOf(t, f, s.frames[f].phase.call)
  {
    assert LeaderOf(t, f, s.frames[f].phase.call);
  }

  lemma StoreLocal(s: State, t: State, f: nat)
    requires f < |s.frames| && s.frames[f].phase.Store? && s.frames[f].phase.call < |s.calls|
    requires t == AfterStore(s, f) && FrameOk(s, f) && Caches(s) && LeaderOf(t, f, s.frames[f].phase.call)
    ensures LocalStep(s, t, f)
  {
    var id := s.frames[f].phase.call;
    OwnCallEvolves(s, t, f, s.calls[id].(val := Some(s.frames[f].phase.val)));
    SameRunsEvolve(s, t, f);
    OneFrameEvolves(s, t, f, t.frames[f]);
    AllUntouched(s, t, f);
  }

  predicate EvictStep(s: State, t: State, f: nat, kept: map<string, Entry<Value>>)
    requires f < |s.frames|
  {
    var fr := s.frames[f];
    && fr.phase.Evict?
    && t == s.With(fr.cache, s.At(fr.cache).(m := kept)).To(f, Remove(fr.phase.call, fr.phase.val))
  }

  lemma EvictKeepsCore(s: State, f: nat, kept: map<string, Entry<Value>>)
    requires Core(s) && Enabled(s, EvictEntries(f, kept))
    ensures Core(After(s, EvictEntries(f, kept))) && Grows(s, After(s, EvictEntries(f, kept)))
  {
    var t := After(s, EvictEntries(f, kept));
    assert EvictStep(s, t, f, kept);
    CoreParts(s, f);
    EvictOwn(s, t, f, kept);
    EvictLocal(s, t, f, kept);
    LocalStepKeepsCore(s, t, f);
  }

  lemma EvictOwn(s: State, t: State, f: nat, kept: map<string, Entry<Value>>)
    requires f < |s.frames| && EvictStep(s, t, f, kept) && FrameOk(s, f) && Holders(s)
    ensures FrameOk(t, f) && Holders(t) && LeaderOf(t, f, s.frames[f].phase.call)
  {
    assert LeaderOf(t, f, s.frames[f].phase.call);
  }

  lemma EvictLocal(s: State, t: State, f: nat, kept: map<string, Entry<Value>>)
    requires f < |s.frames| && EvictStep(s, t, f, kept) && Caches(s) && LeaderOf(t, f, s.frames[f].phase.call)
    ensures LocalStep(s, t, f)
  {
    SameCallsEvolve(s, t, f);
    SameRunsEvolve(s, t, f);
    OneFrameEvolves(s, t, f, t.frames[f]);
    AllUntouched(s, t, f);
  }

  predicate RemoveStep(s: State, t: State, f: nat)
    requires f < |s.frames|
  {
    var fr := s.frames[f];
    var c := s.At(fr.cache);
    && fr.phase.Remove?
    && t == s.With(fr.cache, c.(inflight := c.inflight - {fr.key}, holder := None))
             .To(f, Close(fr.phase.call, fr.phase.val))
  }

  lemma RemoveKeepsCore(s: State, f: nat)
    requires Core(s) && Enabled(s, RemoveCall(f))
    ensures Core(After(s, RemoveCall(f))) && Grows(s, After(s, RemoveCall(f)))
  {
    var t := After(s, RemoveCall(f));
    assert RemoveStep(s, t, f);
    CoreParts(s, f);
    RemoveOwn(s, t, f);
    RemoveLocal(s, t, f);
    LocalStepKeepsCore(s, t, f);
  }

  lemma RemoveOwn(s: State, t: State, f: nat)
    requires f < |s.frames| && RemoveStep(s, t, f) && FrameOk(s, f) && Holders(s)
    ensures FrameOk(t, f) && Holders(t)
  {
    assert LeaderOf(t, f, s.frames[f].phase.call);
  }

  lemma RemoveLocal(s: State, t: State, f: nat)
    requires f < |s.frames| && RemoveStep(s, t, f) && FrameOk(s, f) && Caches(s)
    ensures LocalStep(s, t, f)
  {
    SameCallsEvolve(s, t, f);
    SameRunsEvolve(s, t, f);
    OneFrameEvolves(s, t, f, t.frames[f]);
    RemoveInFlight(s, t, f, Origin);
    RemoveInFlight(s, t, f, Org);
    RemoveInFlight(s, t, f, Whois);
  }

  lemma RemoveInFlight(s: State, t: State, f: nat, c: Cache)
    requires f < |s.frames| && RemoveStep(s, t, f) && InFlight(s, c)
    requires LockOk(s, f) && LeadOk(s, f)
    ensures CacheEvolves(s, t, f, c)
  {
    var fr := s.frames[f];
    assert LeaderOf(s, f, fr.phase.call);
    forall k | k in s.At(c).inflight
      ensures InFlightStays(s, t, f, c, k) && (k in t.At(c).inflight ==> InFlightComes(s, t, f, c, k))
    {
      assert InFlightOk(s, c, k);
    }
    forall k | k in t.At(c).inflight ensures InFlightComes(s, t, f, c, k) {
      assert k in s.At(c).inflight;
    }
  }

  predicate CloseStep(s: State, t: State, f: nat)
    requires f < |s.frames|
  {
    && s.frames[f].phase.Close?
    && var id := s.frames[f].phase.call;
       && id < |s.calls|
       && t == s.Return(f, s.frames[f].phase.val, FromCall(id)).(calls := s.calls[id := s.calls[id].(done := true)])
  }

  lemma CloseKeepsCore(s: State, f: nat)
    requires Core(s) && Enabled(s, CloseCall(f))
    ensures Core(After(s, CloseCall(f))) && Grows(s, After(s, CloseCall(f)))
  {
    var t := After(s, CloseCall(f));
    assert CloseStep(s, t, f);
    CoreParts(s, f);
    CloseOwn(s, t, f);
    CloseLocal(s, t, f);
    LocalStepKeepsCore(s, t, f);
  }

  lemma CloseOwn(s: State, t: State, f: nat)
    requires f < |s.frames| && CloseStep(s, t, f) && FrameOk(s, f) && Holders(s)
    ensures FrameOk(t, f) && Holders(t) && CallOk(t, s.frames[f].phase.call)
  {
  }

  lemma CloseLocal(s: State, t: State, f: nat)
    requires f < |s.frames| && CloseStep(s, t, f) && FrameOk(s, f) && Caches(s)
    ensures LocalStep(s, t, f)
  {
    var id := s.frames[f].phase.call;
    OwnCallEvolves(s, t, f, s.calls[id].(done := true));
    SameRunsEvolve(s, t, f);
    OneFrameEvolves(s, t, f, t.frames[f]);
    AllUntouched(s, t, f);
  }

  // The nested Do begins: its slot stops being idle.

  lemma SpawnKeepsCore(s: State, t: State, g: nat, key: string)
    requires Core(s) && g < |s.frames| && s.frames[g].phase.Idle?
    requires t == s.(frames := s.frames[g := Frame(Org, key, WantLock, Unset)])
    ensures Core(t) && Grows(s, t)
  {
    CoreParts(s, g);
    SpawnLocal(s, t, g, key);
    LocalStepKeepsCore(s, t, g);
  }

  lemma SpawnLocal(s: State, t: State, g: nat, key: string)
    requires Caches(s) && g < |s.frames| && s.frames[g].phase.Idle?
    requires t == s.(frames := s.frames[g := Frame(Org, key, WantLock, Unset)])
    ensures LocalStep(s, t, g) && FrameOk(t, g) && Holders(t)
  {
    SameCallsEvolve(s, t, g);
    SameRunsEvolve(s, t, g);
    OneFrameEvolves(s, t, g, t.frames[g]);
    AllUntouched(s, t, g);
  }

  // ---------- the answers from outside, as quiet steps ----------

  lemma ComputedKeepsCore(s: State, f: nat, v: Value, ttl: int)
    requires Core(s) && f < |s.frames|
    requires s.frames[f].phase.Run? || s.frames[f].phase.Nested?
    ensures var t := s.Computed(f, s.frames[f].phase.call, v, ttl); Core(t) && Grows(s, t)
  {
    var id := s.frames[f].phase.call;
    QuietStepKeepsCore(s, s.Computed(f, id, v, ttl), f, WantPublish(id, v, ttl));
  }

  lemma FoundKeepsCore(s: State, f: nat, info: AsnInfo)
    requires Core(s) && Shape(s) && Enabled(s, OriginAnswer(f, Found(info)))
    ensures var t := After(s, OriginAnswer(f, Found(info))); Core(t) && Grows(s, t)
  {
    var t := After(s, OriginAnswer(f, Found(info)));
    assert FrameShape(s, f);
    var g, key := s.n + f, AsnKey(info.asn);
    var mid := s.(frames := s.frames[g := Frame(Org, key, WantLock, Unset)]);
    SpawnKeepsCore(s, mid, g, key);
    assert t.frames == mid.frames[f := mid.frames[f].(phase := Nested(s.frames[f].phase.call, info))];
    QuietStepKeepsCore(mid, t, f, Nested(s.frames[f].phase.call, info));
  }

  lemma WhoisAnswerKeepsCore(s: State, f: nat, reply: Option<string>)
    requires Core(s) && Enabled(s, WhoisAnswer(f, reply))
    ensures var t := After(s, WhoisAnswer(f, reply)); Core(t) && Grows(s, t)
  {
    var v := Text(if reply.Some? then reply.value else "");
    QuietStepKeepsCore(s, After(s, WhoisAnswer(f, reply)), f,
      Release(s.frames[f].phase.call, v, if reply.Some? then WHOIS_TTL else WHOIS_ERROR_TTL));
  }

  /** Permits are no part of Core. */
  lemma CoreIgnoresPermits(s: State, n: nat)
    requires Core(s)
    ensures Core(s.(permits := n)) && Grows(s, s.(permits := n))
  {
    var t := s.(permits := n);
    SamePartsSameCore(s, t);
  }

  lemma SamePartsSameCore(s: State, t: State)
    requires Core(s) && t.n == s.n && t.clock >= s.clock
    requires t.frames == s.frames && t.calls == s.calls && t.runs == s.runs
    requires t.origin == s.origin && t.org == s.org && t.whois == s.whois
    ensures Core(t)
  {
    forall f | 0 <= f < |t.frames| ensures LockOk(t, f) && LeadOk(t, f) && ValueOk(t, f) {
      assert LockOk(s, f) && LeadOk(s, f) && ValueOk(s, f);
    }
    forall id | 0 <= id < |t.calls| ensures CallOk(t, id) {
      assert CallOk(s, id);
    }
    SameInFlight(s, t, Origin);
    SameInFlight(s, t, Org);
    SameInFlight(s, t, Whois);
  }

  lemma SameInFlight(s: State, t: State, c: Cache)
    requires InFlight(s, c) && t.frames == s.frames && t.calls == s.calls && t.runs == s.runs
    requires t.origin == s.origin && t.org == s.org && t.whois == s.whois
    ensures InFlight(t, c)
  {
    forall k | k in t.At(c).inflight ensures InFlightOk(t, c, k) {
      assert InFlightOk(s, c, k);
    }
  }

  lemma TakePermitKeepsCore(s: State, f: nat)
    requires Core(s) && Enabled(s, TakePermit(f))
    ensures var t := After(s, TakePermit(f)); Core(t) && Grows(s, t)
  {
    var mid := s.To(f, Query(s.frames[f].phase.call));
    QuietStepKeepsCore(s, mid, f, Query(s.frames[f].phase.call));
    CoreIgnoresPermits(mid, s.permits + 1);
  }

  lemma ReturnPermitKeepsCore(s: State, f: nat)
    requires Core(s) && Enabled(s, ReturnPermit(f))
    ensures var t := After(s, ReturnPermit(f)); Core(t) && Grows(s, t)
  {
    var p := s.frames[f].phase;
    assert ValueOk(s, f);
    var mid := s.To(f, WantPublish(p.call, p.val, p.ttl));
    assert mid.runs == s.runs[p.call := p.val];
    QuietStepKeepsCore(s, mid, f, WantPublish(p.call, p.val, p.ttl));
    CoreIgnoresPermits(mid, s.permits - 1);
  }

  lemma OriginAnswerKeepsCore(s: State, f: nat, reply: OriginReply)
    requires Core(s) && Shape(s) && Enabled(s, OriginAnswer(f, reply))
    ensures var t := After(s, OriginAnswer(f, reply)); Core(t) && Grows(s, t)
  {
    match reply
    case Failed => ComputedKeepsCore(s, f, Resolved(NO_INFO, false), ASN_ERROR_TTL);
    case NoOrigin => ComputedKeepsCore(s, f, Resolved(NO_INFO, true), ASN_TTL);
    case Found(info) => FoundKeepsCore(s, f, info);
  }

  lemma ResumeKeepsCore(s: State, f: nat)
    requires Core(s) && Enabled(s, Resume(f))
    ensures var t := After(s, Resume(f)); Core(t) && Grows(s, t)
  {
    var v := s.frames[s.n + f].phase.val;
    ComputedKeepsCore(s, f, Resolved(s.frames[f].phase.info.(org := if v.Text? then v.text else ""), true), ASN_TTL);
  }

  lemma OrgAnswerKeepsCore(s: State, f: nat, reply: Option<string>)
    requires Core(s) && Enabled(s, OrgAnswer(f, reply))
    ensures var t := After(s, OrgAnswer(f, reply)); Core(t) && Grows(s, t)
  {
    match reply
    case None => ComputedKeepsCore(s, f, Text(""), ASN_ERROR_TTL);
    case Some(name) => ComputedKeepsCore(s, f, Text(name), ASN_TTL);
  }

  lemma CancelKeepsCore(s: State, f: nat)
    requires Core(s) && Enabled(s, Cancel(f))
    ensures var t := After(s, Cancel(f)); Core(t) && Grows(s, t)
  {
    ComputedKeepsCore(s, f, Text(""), 0);
  }

  lemma TickKeepsCore(s: State, now: int)
    requires Core(s) && Enabled(s, Tick(now))
    ensures var t := After(s, Tick(now)); Core(t) && Grows(s, t)
  {
    SamePartsSameCore(s, s.(clock := now));
  }

  lemma CoreKept(s: State, a: Action)
    requires Core(s) && Shape(s) && Enabled(s, a)
    requires !a.Tick? ==> Entries(s, s.frames[a.f].cache)
    ensures Core(After(s, a)) && Grows(s, After(s, a))
  {
    match a
    case Tick(now) => TickKeepsCore(s, now);
    case Acquire(f) => AcquireKeepsCore(s, f);
    case Look(f) => LookKeepsCore(s, f);
    case Wake(f) => WakeKeepsCore(s, f);
    case OriginAnswer(f, reply) => OriginAnswerKeepsCore(s, f, reply);
    case Resume(f) => ResumeKeepsCore(s, f);
    case OrgAnswer(f, reply) => OrgAnswerKeepsCore(s, f, reply);
    case TakePermit(f) => TakePermitKeepsCore(s, f);
    case Cancel(f) => CancelKeepsCore(s, f);
    case WhoisAnswer(f, reply) => WhoisAnswerKeepsCore(s, f, reply);
    case ReturnPermit(f) => ReturnPermitKeepsCore(s, f);
    case StoreValue(f) => StoreKeepsCore(s, f);
    case EvictEntries(f, kept) => EvictKeepsCore(s, f, kept);
    case RemoveCall(f) => RemoveKeepsCore(s, f);
    case CloseCall(f) => CloseKeepsCore(s, f);
  }
}
