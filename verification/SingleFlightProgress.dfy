/**
 Progress of the protocol: no reachable state is stuck before every thread has returned, and every
 action but the passing of time uses up a measure, so all calls finish.
 */
module SingleFlightProgress {
  import opened Common
  import opened TtlCache
  import opened SingleFlight
  import opened SingleFlightSafety
  import opened SingleFlightRuns

  // ---------- the measure ----------

  /** An upper bound on the actions a frame still makes. */
  function Remaining(p: Phase): nat {
    match p
    case Idle => 12
    case WantLock => 11
    case Inspect => 10
    case Run(_) => 9
    case Query(_) => 8
    case Nested(_, _) => 8
    case Release(_, _, _) => 7
    case WantPublish(_, _, _) => 6
    case Store(_, _, _) => 5
    case Evict(_, _) => 4
    case Remove(_, _) => 3
    case Close(_, _) => 2
    case Await(_) => 1
    case Returned(_) => 0
  }

  function Measure(frames: seq<Frame>): nat {
    if frames == [] then 0 else Measure(frames[..|frames| - 1]) + Remaining(frames[|frames| - 1].phase)
  }

  lemma {:induction false} MeasureAfter(frames: seq<Frame>, f: nat, fr: Frame)
    requires f < |frames|
    ensures Measure(frames[f := fr]) == Measure(frames) - Remaining(frames[f].phase) + Remaining(fr.phase)
  {
    var k := |frames| - 1;
    if f == k {
      assert frames[f := fr][..k] == frames[..k];
    } else {
      MeasureAfter(frames[..k], f, fr);
      assert frames[f := fr][..k] == frames[..k][f := fr];
    }
  }

  lemma SectionUsesMeasure(s: State, a: Action)
    requires Enabled(s, a) && InSection(a)
    ensures var t := After(s, a);
            a.f < |t.frames| == |s.frames| && Remaining(t.frames[a.f].phase) < Remaining(s.frames[a.f].phase)
  {
    if a.Look? {
      LookUsesMeasure(s, a.f);
    } else if a.StoreValue? {
      StoreUsesMeasure(s, a.f);
    }
  }

  lemma LookUsesMeasure(s: State, f: nat)
    requires f < |s.frames| && s.frames[f].phase.Inspect?
    ensures var t := AfterLook(s, f);
            f < |t.frames| == |s.frames| && Remaining(t.frames[f].phase) < Remaining(s.frames[f].phase)
  {
  }

  lemma StoreUsesMeasure(s: State, f: nat)
    requires f < |s.frames| && s.frames[f].phase.Store? && s.frames[f].phase.call < |s.calls|
    ensures var t := AfterStore(s, f);
            f < |t.frames| == |s.frames| && Remaining(t.frames[f].phase) < Remaining(s.frames[f].phase)
  {
  }

  lemma OutsideUsesMeasure(s: State, a: Action)
    requires Enabled(s, a) && !a.Tick? && !InSection(a) && (a.OriginAnswer? ==> !a.origin.Found?)
    ensures var t := After(s, a);
            a.f < |t.frames| == |s.frames| && Remaining(t.frames[a.f].phase) < Remaining(s.frames[a.f].phase)
  {
  }

  lemma FoundUsesMeasure(s: State, f: nat, info: AsnInfo)
    requires Shape(s) && Enabled(s, OriginAnswer(f, Found(info)))
    ensures Measure(After(s, OriginAnswer(f, Found(info))).frames) < Measure(s.frames)
  {
    var t := After(s, OriginAnswer(f, Found(info)));
    var g := s.n + f;
    assert FrameShape(s, f);
    assert t.frames == s.frames[f := t.frames[f]][g := t.frames[g]];
    MeasureAfter(s.frames, f, t.frames[f]);
    MeasureAfter(s.frames[f := t.frames[f]], g, t.frames[g]);
  }

  /** Every action of a thread uses up some of the measure. */
  lemma ActionUsesMeasure(s: State, a: Action)
    requires Shape(s) && Enabled(s, a) && !a.Tick?
    ensures Measure(After(s, a).frames) < Measure(s.frames)
  {
    if a.OriginAnswer? && a.origin.Found? {
      FoundUsesMeasure(s, a.f, a.origin.info);
    } else {
      ActionIsPlain(s, a);
      MeasureAfter(s.frames, a.f, After(s, a).frames[a.f]);
      if InSection(a) {
        SectionUsesMeasure(s, a);
      } else {
        OutsideUsesMeasure(s, a);
      }
    }
  }

  function ThreadActions(acts: seq<Action>): nat {
    if acts == [] then 0 else (if acts[0].Tick? then 0 else 1) + ThreadActions(acts[1..])
  }

  lemma {:induction false} RunUsesMeasure(s: State, acts: seq<Action>)
    requires Inv(s) && Steps(s, acts)
    ensures ThreadActions(acts) + Measure(Exec(s, acts).frames) <= Measure(s.frames)
    decreases |acts|
  {
    if acts != [] {
      InvKept(s, acts[0]);
      if !acts[0].Tick? {
        ActionUsesMeasure(s, acts[0]);
      }
      RunUsesMeasure(After(s, acts[0]), acts[1..]);
    }
  }

  lemma {:induction false} InitialMeasure(frames: seq<Frame>)
    requires forall f :: 0 <= f < |frames| ==> frames[f].phase.WantLock? || frames[f].phase.Idle?
    ensures Measure(frames) <= 12 * |frames|
  {
    if frames != [] {
      InitialMeasure(frames[..|frames| - 1]);
    }
  }

  /** However n lookups interleave, no run makes more than 24 n actions. */
  lemma RunsAreShort(s0: State, acts: seq<Action>)
    requires Initial(s0) && Steps(s0, acts)
    ensures ThreadActions(acts) <= 24 * s0.n
  {
    InitialInv(s0);
    RunUsesMeasure(s0, acts);
    forall f | 0 <= f < |s0.frames| ensures s0.frames[f].phase.WantLock? || s0.frames[f].phase.Idle? {
      if f >= s0.n {
        assert s0.frames[f] == Frame(Org, "", Idle, Unset);
      }
    }
    InitialMeasure(s0.frames);
  }

  // ---------- no deadlock ----------

  predicate AllReturned(s: State) {
    forall f :: 0 <= f < s.n && f < |s.frames| ==> s.frames[f].phase.Returned?
  }

  /** Some thread can act, without waiting for time to pass or for a caller to give up. */
  ghost predicate CanAct(s: State) {
    exists a: Action :: !a.Tick? && !a.Cancel? && Enabled(s, a)
  }

  /** What an eviction may leave, for some order of the iteration. */
  lemma {:induction false} SomeSubset(live: set<string>, k: nat) returns (kept: set<string>)
    requires k <= |live|
    ensures kept <= live && |kept| == k
  {
    if k == |live| {
      kept := live;
    } else {
      var x :| x in live;
      assert |live - {x}| == |live| - 1;
      kept := SomeSubset(live - {x}, k);
    }
  }

  lemma EvictionCanFinish(m: map<string, Entry<Value>>, now: int, max: int) returns (kept: map<string, Entry<Value>>)
    ensures Evicted(m, now, max, kept)
  {
    if max <= 0 || |m| <= max {
      return m;
    }
    var live := LiveKeys(m, now);
    var keys := SomeSubset(live, if |live| <= max then |live| else max);
    kept := map k | k in keys :: m[k];
    assert kept.Keys == keys;
  }

  /** A frame inside a section can always go on. */
  lemma HolderActs(s: State, f: nat)
    requires Core(s) && f < |s.frames| && s.frames[f].phase.HoldsLock()
    ensures CanAct(s)
  {
    assert LeadOk(s, f);
    match s.frames[f].phase {
      case Inspect => assert Enabled(s, Look(f));
      case Store(_, _, _) => assert Enabled(s, StoreValue(f));
      case Evict(_, _) =>
        var kept := EvictionCanFinish(s.At(s.frames[f].cache).m, s.clock, MaxEntries(s.frames[f].cache));
        assert Enabled(s, EvictEntries(f, kept));
      case Remove(_, _) => assert Enabled(s, RemoveCall(f));
    }
  }

  /** A frame that wants a mutex either takes it or leaves its holder to act. */
  lemma WaiterForLockActs(s: State, f: nat)
    requires Core(s) && f < |s.frames| && s.frames[f].phase.WantsLock()
    ensures CanAct(s)
  {
    var c := s.frames[f].cache;
    InFlightAt(s, c);
    if s.At(c).holder == None {
      assert Enabled(s, Acquire(f));
    } else {
      HolderActs(s, s.At(c).holder.value);
    }
  }

  predicate Blocked(p: Phase) {
    p.Idle? || p.Returned? || p.Await? || p.Nested? || p.Run?
  }

  /** A frame that waits for nothing but its own next action. */
  lemma UnblockedActs(s: State, f: nat)
    requires Inv(s) && f < |s.frames| && !Blocked(s.frames[f].phase)
    ensures CanAct(s)
  {
    assert LeadOk(s, f) && FrameShape(s, f);
    match s.frames[f].phase {
      case Query(_) => assert Enabled(s, WhoisAnswer(f, None));
      case Release(_, _, _) =>
        assert f in PermitHolders(s.frames);
        assert Enabled(s, ReturnPermit(f));
      case Close(_, _) => assert Enabled(s, CloseCall(f));
      case WantLock => WaiterForLockActs(s, f);
      case WantPublish(_, _, _) => WaiterForLockActs(s, f);
      case _ => HolderActs(s, f);
    }
  }

  /** A computation can be answered; one that waits for a permit leaves a holder of a permit to act. */
  lemma RunnerActs(s: State, f: nat)
    requires Inv(s) && f < |s.frames| && s.frames[f].phase.Run?
    ensures CanAct(s)
  {
    assert FrameShape(s, f);
    match s.frames[f].cache {
      case Origin => assert Enabled(s, OriginAnswer(f, Failed));
      case Org => assert Enabled(s, OrgAnswer(f, None));
      case Whois =>
        if s.permits < MAX_IN_FLIGHT {
          assert Enabled(s, TakePermit(f));
        } else {
          var g :| g in PermitHolders(s.frames);
          UnblockedActs(s, g);
        }
    }
  }

  /** The nested lookup: its waiters wait only for other nested lookups, which wait for nobody in turn. */
  lemma OrgFrameActs(s: State, f: nat)
    requires Inv(s) && f < |s.frames| && s.frames[f].cache == Org
    requires !s.frames[f].phase.Idle? && !s.frames[f].phase.Returned?
    ensures CanAct(s)
  {
    assert FrameShape(s, f) && ValueOk(s, f);
    if s.frames[f].phase.Await? {
      var id := s.frames[f].phase.call;
      assert CallOk(s, id);
      if s.calls[id].done {
        assert Enabled(s, Wake(f));
      } else {
        var g := s.calls[id].leader;
        assert LeaderOf(s, g, id);
        assert FrameShape(s, g);
        LeaderWithoutNestingActs(s, g);
      }
    } else {
      LeaderWithoutNestingActs(s, f);
    }
  }

  lemma LeaderWithoutNestingActs(s: State, g: nat)
    requires Inv(s) && g < |s.frames|
    requires var p := s.frames[g].phase; !p.Nested? && !p.Await? && !p.Idle? && !p.Returned?
    ensures CanAct(s)
  {
    if s.frames[g].phase.Run? {
      RunnerActs(s, g);
    } else {
      UnblockedActs(s, g);
    }
  }

  lemma LeaderActs(s: State, g: nat)
    requires Inv(s) && g < |s.frames| && s.frames[g].phase.Leads()
    ensures CanAct(s)
  {
    assert FrameShape(s, g);
    if s.frames[g].phase.Nested? {
      var inner := s.n + g;
      assert FrameShape(s, inner);
      if s.frames[inner].phase.Returned? {
        assert Enabled(s, Resume(g));
      } else {
        OrgFrameActs(s, inner);
      }
    } else {
      LeaderWithoutNestingActs(s, g);
    }
  }

  /** No deadlock: in every reachable state where some lookup has not returned, some thread can act. */
  lemma NoDeadlock(s: State)
    requires Reachable(s) && !AllReturned(s)
    ensures CanAct(s)
  {
    ReachableInv(s);
    var f :| 0 <= f < s.n && f < |s.frames| && !s.frames[f].phase.Returned?;
    assert FrameShape(s, f) && ValueOk(s, f);
    if s.frames[f].phase.Await? {
      var id := s.frames[f].phase.call;
      assert CallOk(s, id);
      if s.calls[id].done {
        assert Enabled(s, Wake(f));
      } else {
        assert LeaderOf(s, s.calls[id].leader, id);
        LeaderActs(s, s.calls[id].leader);
      }
    } else if s.frames[f].phase.Nested? {
      LeaderActs(s, f);
    } else {
      LeaderWithoutNestingActs(s, f);
    }
  }

  /** A run that can no longer be extended by a thread has returned every lookup. */
  lemma StoppedRunsAreFinished(s0: State, acts: seq<Action>)
    requires Initial(s0) && Steps(s0, acts) && !CanAct(Exec(s0, acts))
    ensures AllReturned(Exec(s0, acts))
  {
    var s := Exec(s0, acts);
    assert Reachable(s);
    if !AllReturned(s) {
      NoDeadlock(s);
    }
  }
}
