/**
 Whole runs of the protocol: the invariant in every reachable state, and what it means for the callers.
 */
module SingleFlightRuns {
  import opened Common
  import opened TtlCache
  import opened SingleFlight
  import opened SingleFlightSafety

  // ---------- shape ----------

  predicate BeforeNesting(p: Phase) {
    p.WantLock? || p.Inspect? || p.Run?
  }

  /** A step of frame f that begins no nested Do. */
  predicate PlainStep(s: State, t: State, f: nat) {
    && f < |s.frames| == |t.frames| && t.n == s.n
    && t.frames == s.frames[f := t.frames[f]]
    && t.frames[f].cache == s.frames[f].cache
    && !s.frames[f].phase.Idle? && !t.frames[f].phase.Idle? && !t.frames[f].phase.Nested?
    && (BeforeNesting(t.frames[f].phase) ==> BeforeNesting(s.frames[f].phase))
    && (t.frames[f].phase.HasPermit() ==> s.frames[f].cache == Whois)
  }

  lemma PlainStepKeepsShape(s: State, t: State, f: nat)
    requires Shape(s) && PlainStep(s, t, f)
    ensures Shape(t)
  {
    forall g | 0 <= g < |t.frames| ensures FrameShape(t, g) {
      assert FrameShape(s, g);
    }
  }

  lemma FoundKeepsShape(s: State, f: nat, info: AsnInfo)
    requires Shape(s) && Enabled(s, OriginAnswer(f, Found(info)))
    ensures Shape(After(s, OriginAnswer(f, Found(info))))
  {
    var t := After(s, OriginAnswer(f, Found(info)));
    forall g | 0 <= g < |t.frames| ensures FrameShape(t, g) {
      assert FrameShape(s, g) && FrameShape(s, f);
    }
  }

  lemma SectionIsPlain(s: State, a: Action)
    requires Shape(s) && Enabled(s, a)
    requires a.Acquire? || a.EvictEntries? || a.RemoveCall?
    ensures PlainStep(s, After(s, a), a.f)
  {
    assert FrameShape(s, a.f);
  }

  lemma LookIsPlain(s: State, f: nat)
    requires Shape(s) && Enabled(s, Look(f))
    ensures PlainStep(s, After(s, Look(f)), f)
  {
    assert FrameShape(s, f);
  }

  lemma StoreIsPlain(s: State, f: nat)
    requires Shape(s) && Enabled(s, StoreValue(f))
    ensures PlainStep(s, After(s, StoreValue(f)), f)
  {
    assert FrameShape(s, f);
  }

  lemma AnswerIsPlain(s: State, a: Action)
    requires Shape(s) && Enabled(s, a)
    requires a.OriginAnswer? || a.Resume? || a.OrgAnswer? || a.Cancel? || a.WhoisAnswer?
    requires a.OriginAnswer? ==> !a.origin.Found?
    ensures PlainStep(s, After(s, a), a.f)
  {
    assert FrameShape(s, a.f);
  }

  lemma OtherIsPlain(s: State, a: Action)
    requires Shape(s) && Enabled(s, a)
    requires a.Wake? || a.TakePermit? || a.ReturnPermit? || a.CloseCall?
    ensures PlainStep(s, After(s, a), a.f)
  {
    assert FrameShape(s, a.f);
  }

  lemma ActionIsPlain(s: State, a: Action)
    requires Shape(s) && Enabled(s, a) && !a.Tick?
    requires a.OriginAnswer? ==> !a.origin.Found?
    ensures PlainStep(s, After(s, a), a.f)
  {
    match a
    case Acquire(_) => SectionIsPlain(s, a);
    case Look(f) => LookIsPlain(s, f);
    case StoreValue(f) => StoreIsPlain(s, f);
    case EvictEntries(_, _) => SectionIsPlain(s, a);
    case RemoveCall(_) => SectionIsPlain(s, a);
    case Wake(_) => OtherIsPlain(s, a);
    case TakePermit(_) => OtherIsPlain(s, a);
    case ReturnPermit(_) => OtherIsPlain(s, a);
    case CloseCall(_) => OtherIsPlain(s, a);
    case _ => AnswerIsPlain(s, a);
  }

  lemma ShapeKept(s: State, a: Action)
    requires Shape(s) && Enabled(s, a)
    ensures Shape(After(s, a))
  {
    if a.Tick? {
      var t := After(s, a);
      forall g | 0 <= g < |t.frames| ensures FrameShape(t, g) {
        assert FrameShape(s, g);
      }
    } else if a.OriginAnswer? && a.origin.Found? {
      FoundKeepsShape(s, a.f, a.origin.info);
    } else {
      ActionIsPlain(s, a);
      PlainStepKeepsShape(s, After(s, a), a.f);
    }
  }

  // ---------- entries ----------

  /** A cache that a step only removes entries from keeps its entries sound. */
  lemma EntriesShrink(s: State, t: State, c: Cache)
    requires Entries(s, c) && Grows(s, t)
    requires t.At(c).source == s.At(c).source
    requires forall k :: k in t.At(c).m ==> k in s.At(c).m && t.At(c).m[k] == s.At(c).m[k]
    ensures Entries(t, c)
  {
    forall k | k in t.At(c).m ensures EntryOk(t, c, k) {
      assert EntryOk(s, c, k);
    }
  }

  /** Only a store adds an entry, and only an eviction removes one. */
  lemma EntriesUntouched(s: State, a: Action, c: Cache)
    requires Enabled(s, a) && !a.StoreValue? && !a.EvictEntries?
    ensures After(s, a).At(c).m == s.At(c).m && After(s, a).At(c).source == s.At(c).source
  {
    match a
    case Acquire(_) => SectionLeavesEntries(s, a, c);
    case Look(f) => LookLeavesEntries(s, f, c);
    case RemoveCall(_) => SectionLeavesEntries(s, a, c);
    case _ => OutsideLeavesCaches(s, a);
  }

  lemma SectionLeavesEntries(s: State, a: Action, c: Cache)
    requires Enabled(s, a) && (a.Acquire? || a.RemoveCall?)
    ensures After(s, a).At(c).m == s.At(c).m && After(s, a).At(c).source == s.At(c).source
  {
  }

  lemma LookLeavesEntries(s: State, f: nat, c: Cache)
    requires Enabled(s, Look(f))
    ensures AfterLook(s, f).At(c).m == s.At(c).m && AfterLook(s, f).At(c).source == s.At(c).source
  {
  }

  predicate InSection(a: Action) {
    a.Acquire? || a.Look? || a.StoreValue? || a.EvictEntries? || a.RemoveCall?
  }

  /** The actions outside the mutex touch no cache. */
  lemma OutsideLeavesCaches(s: State, a: Action)
    requires Enabled(s, a) && !InSection(a)
    ensures var t := After(s, a); t.origin == s.origin && t.org == s.org && t.whois == s.whois
  {
  }

  lemma StoreKeepsEntries(s: State, f: nat, c: Cache)
    requires f < |s.frames| && s.frames[f].phase.Store? && s.frames[f].phase.call < |s.calls|
    requires LeadOk(s, f) && ValueOk(s, f) && Entries(s, c)
    requires Grows(s, AfterStore(s, f))
    ensures Entries(AfterStore(s, f), c)
  {
    var t := AfterStore(s, f);
    StoredTable(s, f, c);
    forall k | k in t.At(c).m ensures EntryOk(t, c, k) {
      if k in s.At(c).m && t.At(c).m[k] == s.At(c).m[k] && k in t.At(c).source && k in s.At(c).source
         && t.At(c).source[k] == s.At(c).source[k] {
        assert EntryOk(s, c, k);
      } else if k in s.At(c).m {
        assert EntryOk(s, c, k);
      }
    }
  }

  lemma StoredTable(s: State, f: nat, c: Cache)
    requires f < |s.frames| && s.frames[f].phase.Store? && s.frames[f].phase.call < |s.calls|
    ensures var Store(id, v, ttl) := s.frames[f].phase;
            var t, key := AfterStore(s, f), s.frames[f].key;
            if ttl > 0 && s.frames[f].cache == c then
              && t.At(c).m == s.At(c).m[key := Entry(v, s.clock + ttl)]
              && t.At(c).source == s.At(c).source[key := Publication(id, s.clock, ttl)]
            else
              t.At(c).m == s.At(c).m && t.At(c).source == s.At(c).source
    ensures AfterStore(s, f).runs == s.runs && AfterStore(s, f).clock == s.clock
    ensures AfterStore(s, f).At(c).holder == s.At(c).holder
    ensures |AfterStore(s, f).frames| == |s.frames|
    ensures s.frames[f].phase.ttl > 0 ==> AfterStore(s, f).frames[f].phase.Evict?
    ensures forall g :: 0 <= g < |s.frames| && g != f ==> AfterStore(s, f).frames[g] == s.frames[g]
  {
  }

  lemma EvictKeepsEntries(s: State, f: nat, kept: map<string, Entry<Value>>, c: Cache)
    requires Entries(s, c) && Enabled(s, EvictEntries(f, kept))
    requires Grows(s, After(s, EvictEntries(f, kept)))
    ensures Entries(After(s, EvictEntries(f, kept)), c)
  {
    EntriesShrink(s, After(s, EvictEntries(f, kept)), c);
  }

  lemma EntriesKept(s: State, a: Action, c: Cache)
    requires Core(s) && Entries(s, c) && Enabled(s, a) && Grows(s, After(s, a))
    ensures Entries(After(s, a), c)
  {
    if a.StoreValue? {
      assert LeadOk(s, a.f) && ValueOk(s, a.f);
      StoreKeepsEntries(s, a.f, c);
    } else if a.EvictEntries? {
      EvictKeepsEntries(s, a.f, a.kept, c);
    } else {
      EntriesUntouched(s, a, c);
      EntriesShrink(s, After(s, a), c);
    }
  }

  // ---------- permits ----------

  lemma HoldersAfter(frames: seq<Frame>, f: nat, fr: Frame)
    requires f < |frames|
    ensures PermitHolders(frames[f := fr]) ==
            if fr.phase.HasPermit() then PermitHolders(frames) + {f} else PermitHolders(frames) - {f}
  {
    var next := frames[f := fr];
    forall g: nat | g < |frames| ensures next[g] == if g == f then fr else frames[g] {
    }
  }

  lemma PermitsOfStep(s: State, t: State, f: nat)
    requires Permits(s) && f < |s.frames| == |t.frames| && t.frames == s.frames[f := t.frames[f]]
    requires t.permits == s.permits
                          + (if t.frames[f].phase.HasPermit() then 1 else 0)
                          - (if s.frames[f].phase.HasPermit() then 1 else 0)
    requires t.permits <= MAX_IN_FLIGHT
    ensures Permits(t)
  {
    HoldersAfter(s.frames, f, t.frames[f]);
    assert f in PermitHolders(s.frames) <==> s.frames[f].phase.HasPermit();
  }

  lemma FoundKeepsPermits(s: State, f: nat, info: AsnInfo)
    requires Permits(s) && Shape(s) && Enabled(s, OriginAnswer(f, Found(info)))
    ensures Permits(After(s, OriginAnswer(f, Found(info))))
  {
    var t := After(s, OriginAnswer(f, Found(info)));
    var g := s.n + f;
    assert FrameShape(s, f) && FrameShape(s, g);
    assert t.frames == s.frames[f := t.frames[f]][g := t.frames[g]] && t.permits == s.permits;
    NeitherHolds(s.frames, f, t.frames[f]);
    NeitherHolds(s.frames[f := t.frames[f]], g, t.frames[g]);
  }

  lemma NeitherHolds(frames: seq<Frame>, f: nat, fr: Frame)
    requires f < |frames| && !frames[f].phase.HasPermit() && !fr.phase.HasPermit()
    ensures PermitHolders(frames[f := fr]) == PermitHolders(frames)
  {
    HoldersAfter(frames, f, fr);
  }

  lemma PermitsKept(s: State, a: Action)
    requires Permits(s) && Shape(s) && Enabled(s, a)
    ensures Permits(After(s, a))
  {
    if a.Tick? {
    } else if a.OriginAnswer? && a.origin.Found? {
      FoundKeepsPermits(s, a.f, a.origin.info);
    } else {
      ActionIsPlain(s, a);
      PermitCount(s, a);
      PermitsOfStep(s, After(s, a), a.f);
    }
  }

  predicate PermitBalance(s: State, t: State, f: nat) {
    && f < |t.frames| == |s.frames|
    && t.permits == s.permits
                    + (if t.frames[f].phase.HasPermit() then 1 else 0)
                    - (if s.frames[f].phase.HasPermit() then 1 else 0)
    && t.permits <= MAX_IN_FLIGHT
  }

  lemma PermitCount(s: State, a: Action)
    requires Enabled(s, a) && !a.Tick? && Permits(s)
    requires a.OriginAnswer? ==> !a.origin.Found?
    ensures PermitBalance(s, After(s, a), a.f)
  {
    if InSection(a) {
      SectionPermits(s, a);
    } else {
      OutsidePermits(s, a);
    }
  }

  lemma SectionPermits(s: State, a: Action)
    requires Enabled(s, a) && InSection(a) && s.permits <= MAX_IN_FLIGHT
    ensures PermitBalance(s, After(s, a), a.f)
  {
    if a.Look? {
      LookPermits(s, a.f);
    } else if a.StoreValue? {
      StoredTable(s, a.f, Origin);
      StorePermits(s, a.f);
    } else {
      ShortSectionPermits(s, a);
    }
  }

  lemma LookPermits(s: State, f: nat)
    requires Enabled(s, Look(f)) && s.permits <= MAX_IN_FLIGHT
    ensures PermitBalance(s, AfterLook(s, f), f)
  {
  }

  lemma StorePermits(s: State, f: nat)
    requires Enabled(s, StoreValue(f)) && s.permits <= MAX_IN_FLIGHT
    ensures PermitBalance(s, AfterStore(s, f), f)
  {
  }

  lemma ShortSectionPermits(s: State, a: Action)
    requires Enabled(s, a) && InSection(a) && !a.Look? && !a.StoreValue? && s.permits <= MAX_IN_FLIGHT
    ensures PermitBalance(s, After(s, a), a.f)
  {
  }

  lemma OutsidePermits(s: State, a: Action)
    requires Enabled(s, a) && !a.Tick? && !InSection(a) && s.permits <= MAX_IN_FLIGHT
    requires a.OriginAnswer? ==> !a.origin.Found?
    ensures PermitBalance(s, After(s, a), a.f)
  {
  }

  // ---------- sizes ----------

  /** A cache that the step of f leaves alone, when f is not in the middle of evicting it. */
  lemma SizeUntouched(s: State, t: State, f: nat, c: Cache)
    requires SizeOk(s, c) && |t.frames| == |s.frames| && f < |s.frames|
    requires t.At(c).m == s.At(c).m && !s.frames[f].phase.Evict?
    requires t.At(c).holder == s.At(c).holder || s.At(c).holder == None || s.At(c).holder == Some(f)
    requires forall g :: 0 <= g < |s.frames| && s.frames[g].phase.Evict? ==> t.frames[g] == s.frames[g]
    ensures SizeOk(t, c)
  {
  }

  lemma InsertGrowsByOne<V>(m: map<string, V>, k: string, v: V)
    ensures |m[k := v]| == |m| + if k in m then 0 else 1
  {
    assert m[k := v].Keys == m.Keys + {k};
  }

  lemma StoreKeepsSize(s: State, f: nat, c: Cache)
    requires f < |s.frames| && s.frames[f].phase.Store? && s.frames[f].phase.call < |s.calls|
    requires SizeOk(s, c) && LockOk(s, f)
    ensures SizeOk(AfterStore(s, f), c)
  {
    var fr := s.frames[f];
    StoredTable(s, f, c);
    InsertGrowsByOne(s.At(c).m, fr.key, Entry(fr.phase.val, s.clock + fr.phase.ttl));
  }

  lemma EvictKeepsSize(s: State, f: nat, kept: map<string, Entry<Value>>, c: Cache)
    requires f < |s.frames| && s.frames[f].phase.Evict? && LockOk(s, f) && HolderOk(s, c)
    requires SizeOk(s, c) && Evicted(s.At(s.frames[f].cache).m, s.clock, MaxEntries(s.frames[f].cache), kept)
    ensures var fr := s.frames[f];
            SizeOk(s.With(fr.cache, s.At(fr.cache).(m := kept)).To(f, Remove(fr.phase.call, fr.phase.val)), c)
  {
    if c == s.frames[f].cache {
      EvictionIsExact(s.At(c).m, s.clock, MaxEntries(c), kept);
    }
  }

  lemma OtherStepKeepsSize(s: State, a: Action, c: Cache)
    requires SizeOk(s, c) && Enabled(s, a) && !a.Tick? && !a.StoreValue? && !a.EvictEntries?
    requires Shape(s) && a.f < |s.frames| && LockOk(s, a.f)
    ensures SizeOk(After(s, a), c)
  {
    var t := After(s, a);
    EntriesUntouched(s, a, c);
    HolderMoves(s, a, c);
    if a.OriginAnswer? && a.origin.Found? {
      assert FrameShape(s, a.f);
    } else {
      ActionIsPlain(s, a);
    }
    SizeUntouched(s, t, a.f, c);
  }

  lemma HolderMoves(s: State, a: Action, c: Cache)
    requires Enabled(s, a) && !a.Tick? && LockOk(s, a.f)
    ensures After(s, a).At(c).holder == s.At(c).holder || s.At(c).holder == None || s.At(c).holder == Some(a.f)
  {
    if InSection(a) {
      SectionHolder(s, a, c);
    } else {
      OutsideLeavesCaches(s, a);
    }
  }

  lemma SectionHolder(s: State, a: Action, c: Cache)
    requires Enabled(s, a) && InSection(a) && LockOk(s, a.f)
    ensures After(s, a).At(c).holder == s.At(c).holder || s.At(c).holder == None || s.At(c).holder == Some(a.f)
  {
  }

  lemma SizeKept(s: State, a: Action, c: Cache)
    requires SizeOk(s, c) && Core(s) && Shape(s) && Enabled(s, a)
    ensures SizeOk(After(s, a), c)
  {
    InFlightAt(s, c);
    if a.Tick? {
    } else {
      assert LockOk(s, a.f);
      if a.StoreValue? {
        StoreKeepsSize(s, a.f, c);
      } else if a.EvictEntries? {
        EvictKeepsSize(s, a.f, a.kept, c);
      } else {
        OtherStepKeepsSize(s, a, c);
      }
    }
  }

  // ---------- every reachable state ----------

  lemma BoundsKept(s: State, a: Action)
    requires Inv(s) && Enabled(s, a) && Grows(s, After(s, a))
    ensures Bounds(After(s, a))
  {
    EntriesKept(s, a, Origin);
    EntriesKept(s, a, Org);
    EntriesKept(s, a, Whois);
    PermitsKept(s, a);
    SizeKept(s, a, Origin);
    SizeKept(s, a, Org);
    SizeKept(s, a, Whois);
  }

  lemma InvKept(s: State, a: Action)
    requires Inv(s) && Enabled(s, a)
    ensures Inv(After(s, a)) && Grows(s, After(s, a))
  {
    CoreStaysKept(s, a);
    ShapeKept(s, a);
    BoundsKept(s, a);
  }

  lemma CoreStaysKept(s: State, a: Action)
    requires Inv(s) && Enabled(s, a)
    ensures Core(After(s, a)) && Grows(s, After(s, a))
  {
    if !a.Tick? {
      var c := s.frames[a.f].cache;
      assert Entries(s, c);
    }
    CoreKept(s, a);
  }

  lemma {:induction false} ExecKeepsInv(s: State, acts: seq<Action>)
    requires Inv(s) && Steps(s, acts)
    ensures Inv(Exec(s, acts))
    decreases |acts|
  {
    if acts != [] {
      InvKept(s, acts[0]);
      ExecKeepsInv(After(s, acts[0]), acts[1..]);
    }
  }

  lemma ReachableInv(s: State)
    requires Reachable(s)
    ensures Inv(s)
  {
    var s0, acts :| Initial(s0) && Steps(s0, acts) && Exec(s0, acts) == s;
    InitialInv(s0);
    ExecKeepsInv(s0, acts);
  }

  // ---------- what callers may rely on ----------

  /** At most one computation runs per key. */
  lemma OneComputationPerKey(s: State, f: nat, g: nat)
    requires Reachable(s) && f < |s.frames| && g < |s.frames|
    requires s.frames[f].phase.Computing() && s.frames[g].phase.Computing()
    requires s.frames[f].cache == s.frames[g].cache && s.frames[f].key == s.frames[g].key
    ensures f == g
  {
    ReachableInv(s);
    assert LeadOk(s, f) && LeadOk(s, g);
  }

  /**
   The in-flight map holds exactly the calls of the frames registered as leaders. In particular the
   delete of a leader removes its own call, and two leaders never share one.
   */
  lemma InFlightIsTheLeaders(s: State, c: Cache, k: string, id: nat)
    requires Reachable(s)
    ensures (k in s.At(c).inflight && s.At(c).inflight[k] == id) <==>
            (exists f: nat :: f < |s.frames| && s.frames[f].cache == c && s.frames[f].key == k
                              && s.frames[f].phase.Registered() && s.frames[f].phase.call == id)
  {
    ReachableInv(s);
    InFlightAt(s, c);
    if k in s.At(c).inflight && s.At(c).inflight[k] == id {
      assert InFlightOk(s, c, k);
      assert LeaderOf(s, s.calls[id].leader, id);
    }
    forall f: nat | f < |s.frames| && s.frames[f].cache == c && s.frames[f].key == k
                    && s.frames[f].phase.Registered() && s.frames[f].phase.call == id
      ensures k in s.At(c).inflight && s.At(c).inflight[k] == id
    {
      assert LeadOk(s, f);
    }
  }

  /** Every returned value was computed for the caller's own key, and a cached one was live when it was read. */
  lemma ReturnedValuesAreJustified(s: State, f: nat)
    requires Reachable(s) && f < |s.frames| && s.frames[f].phase.Returned?
    ensures match s.frames[f].via
            case Unset => false
            case FromCall(id) =>
              && Answers(s, f, id) && id in s.runs && s.runs[id] == s.frames[f].phase.val
            case FromCache(at, pub) =>
              && Answers(s, f, pub.call) && pub.call in s.runs && s.runs[pub.call] == s.frames[f].phase.val
              && pub.at <= at < pub.at + pub.ttl
  {
    ReachableInv(s);
    assert ValueOk(s, f);
  }

  /** All callers of one call, the leader and those that joined it, return one value, whoever leads next. */
  lemma CoalescedCallersAgree(s: State, f: nat, g: nat, id: nat)
    requires Reachable(s) && f < |s.frames| && g < |s.frames|
    requires s.frames[f].phase.Returned? && s.frames[f].via == FromCall(id)
    requires s.frames[g].phase.Returned? && s.frames[g].via == FromCall(id)
    ensures s.frames[f].phase.val == s.frames[g].phase.val
    ensures s.frames[f].cache == s.frames[g].cache && s.frames[f].key == s.frames[g].key
  {
    ReachableInv(s);
    assert ValueOk(s, f) && ValueOk(s, g);
  }

  /** A waiter that wakes reads a written value, and it is the one its call's computation returned. */
  lemma WaitersReadTheLeadersValue(s: State, f: nat)
    requires Reachable(s) && Enabled(s, Wake(f))
    ensures var id := s.frames[f].phase.call;
            && s.calls[id].val.Some? && id in s.runs && s.calls[id].val.value == s.runs[id]
            && After(s, Wake(f)).frames[f].phase == Returned(s.runs[id])
  {
    ReachableInv(s);
    WokenReadsWritten(s, f);
    assert CallOk(s, s.frames[f].phase.call);
  }

  /** What Get would answer in any state: a value computed for the same key, published less than its lifetime ago. */
  lemma GetIsFresh(s: State, c: Cache, k: string)
    requires Reachable(s) && k in s.At(c).m && s.clock < s.At(c).m[k].expires
    ensures exists pub: Publication ::
              && pub.call < |s.calls| && s.calls[pub.call].cache == c && s.calls[pub.call].key == k
              && pub.call in s.runs && s.runs[pub.call] == s.At(c).m[k].val
              && pub.at <= s.clock < pub.at + pub.ttl
  {
    ReachableInv(s);
    assert Entries(s, c);
    assert EntryOk(s, c, k);
    var pub := s.At(c).source[k];
    assert pub.call < |s.calls|;
  }

  /** No cache exceeds its cap while its mutex is free. */
  lemma BoundedWhileUnlocked(s: State, c: Cache)
    requires Reachable(s) && s.At(c).holder == None
    ensures |s.At(c).m| <= match c { case Origin => 50_000 case Org => 8_192 case Whois => 20_000 }
  {
    ReachableInv(s);
    assert SizeOk(s, c);
  }

  /** At most four WHOIS queries run at once. */
  lemma WhoisQueriesAreBounded(s: State)
    requires Reachable(s)
    ensures |set f: nat | f < |s.frames| && s.frames[f].phase.Query?| <= 4
  {
    ReachableInv(s);
    var querying := set f: nat | f < |s.frames| && s.frames[f].phase.Query?;
    SubsetSize(querying, PermitHolders(s.frames));
  }
}
