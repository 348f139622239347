/**
 How the computations behind the caches ended, over whole runs: what an entry may hold and how long it may
 live follows from how its computation ended (asn.go, signals.go), and where a name came from.
 */
module SingleFlightOutcomes {
  import opened Common
  import opened TtlCache
  import opened SingleFlight
  import opened SingleFlightSafety
  import opened SingleFlightRuns

  /**
   How a computation ended. One that resolved an address keeps what its nested lookup of the organisation
   returned, how that was come by, and when it was taken.
   */
  datatype Outcome =
    | OriginFailed
    | NoOriginAs
    | Originated(info: AsnInfo, org: Value, via: Via, at: int)
    | OrgFailed
    | OrgNamed(name: string)
    | Cancelled
    | WhoisFailed
    | WhoisSaid(text: string)
  {
    function Asks(): Cache {
      if OriginFailed? || NoOriginAs? || Originated? then Origin
      else if OrgFailed? || OrgNamed? then Org
      else Whois
    }

    function Yields(): Value {
      match this
      case OriginFailed => Resolved(NO_INFO, false)
      case NoOriginAs => Resolved(NO_INFO, true)
      case Originated(info, org, _, _) => Resolved(info.(org := if org.Text? then org.text else ""), true)
      case OrgNamed(name) => Text(name)
      case WhoisSaid(text) => Text(text)
      case _ => Text("")
    }

    /** For how long it may be cached: a failure briefly, a cancelled query not at all. */
    function Lifetime(): int {
      match this
      case OriginFailed => ASN_ERROR_TTL
      case OrgFailed => ASN_ERROR_TTL
      case Cancelled => 0
      case WhoisFailed => WHOIS_ERROR_TTL
      case WhoisSaid(_) => WHOIS_TTL
      case _ => ASN_TTL
    }
  }

  type Log = map<nat, Outcome>

  /** The outcome an action brings about, if it ends a computation. */
  ghost function Ends(s: State, a: Action): Option<Outcome>
    requires Enabled(s, a)
  {
    match a
    case OriginAnswer(_, Failed) => Some(OriginFailed)
    case OriginAnswer(_, NoOrigin) => Some(NoOriginAs)
    case Resume(f) =>
      var nested := s.frames[s.n + f];
      Some(Originated(s.frames[f].phase.info, nested.phase.val, nested.via, s.clock))
    case OrgAnswer(_, None) => Some(OrgFailed)
    case OrgAnswer(_, Some(name)) => Some(OrgNamed(name))
    case Cancel(_) => Some(Cancelled)
    case WhoisAnswer(_, None) => Some(WhoisFailed)
    case WhoisAnswer(_, Some(text)) => Some(WhoisSaid(text))
    case _ => None
  }

  ghost function Logged(log: Log, s: State, a: Action): Log
    requires Enabled(s, a)
  {
    if Ends(s, a).Some? then log[s.frames[a.f].phase.call := Ends(s, a).value] else log
  }

  /** The outcomes of all the computations that ended in a run. */
  ghost function LogOf(s: State, acts: seq<Action>, log: Log): Log
    requires Steps(s, acts)
    decreases |acts|
  {
    if acts == [] then log else LogOf(After(s, acts[0]), acts[1..], Logged(log, s, acts[0]))
  }

  // ---------- what the log tells of a state ----------

  /** Call o looked the key up among the organisations, and ended with the given value. */
  predicate OrgLookup(s: State, log: Log, o: nat, key: string, org: Value) {
    && o in log && o < |s.calls| && s.calls[o].cache == Org && s.calls[o].key == key
    && log[o].Asks() == Org && log[o].Yields() == org
  }

  /** A nested lookup of the key returned org, no later than `at`; a cached one was within its lifetime when read. */
  predicate OrgStems(s: State, log: Log, key: string, org: Value, via: Via, at: int) {
    match via
    case Unset => false
    case FromCall(o) => OrgLookup(s, log, o, key, org)
    case FromCache(read, pub) =>
      && OrgLookup(s, log, pub.call, key, org)
      && pub.ttl == log[pub.call].Lifetime()
      && pub.at <= read < pub.at + pub.ttl
      && read <= at
  }

  predicate RunTold(s: State, log: Log, id: nat)
    requires id in log
  {
    && id in s.runs && id < |s.calls|
    && s.runs[id] == log[id].Yields() && s.calls[id].cache == log[id].Asks()
    && (log[id].Originated? ==>
          && OrgStems(s, log, AsnKey(log[id].info.asn), log[id].org, log[id].via, log[id].at)
          && log[id].at <= s.clock)
  }

  predicate RunsTold(s: State, log: Log) {
    && (forall id :: id in log ==> RunTold(s, log, id))
    && forall id :: id in s.runs ==> id in log
  }

  predicate FrameTold(s: State, log: Log, f: nat)
    requires f < |s.frames|
  {
    var p := s.frames[f].phase;
    && (p.Release? || p.WantPublish? || p.Store? ==> p.call in log && p.ttl == log[p.call].Lifetime())
    && (p.Returned? && s.frames[f].via.FromCache? ==>
          var pub := s.frames[f].via.pub; pub.call in log && pub.ttl == log[pub.call].Lifetime())
    && (p.Nested? ==> s.n + f < |s.frames| && s.frames[s.n + f].key == AsnKey(p.info.asn))
  }

  predicate FramesTold(s: State, log: Log) {
    forall f :: 0 <= f < |s.frames| ==> FrameTold(s, log, f)
  }

  predicate EntryTold(s: State, log: Log, c: Cache, k: string) {
    && k in s.At(c).source
    && var pub := s.At(c).source[k];
       && pub.call in log && pub.ttl == log[pub.call].Lifetime()
       && (log[pub.call].Originated? ==> log[pub.call].at <= pub.at)
  }

  predicate EntriesTold(s: State, log: Log, c: Cache) {
    forall k :: k in s.At(c).m ==> EntryTold(s, log, c, k)
  }

  predicate Told(s: State, log: Log) {
    && RunsTold(s, log) && FramesTold(s, log)
    && EntriesTold(s, log, Origin) && EntriesTold(s, log, Org) && EntriesTold(s, log, Whois)
  }

  predicate Extends(log: Log, next: Log) {
    forall id :: id in log ==> id in next && next[id] == log[id]
  }

  // ---------- every step keeps it ----------

  lemma OrgStemsStays(s: State, t: State, log: Log, next: Log, key: string, org: Value, via: Via, at: int)
    requires Grows(s, t) && Extends(log, next) && OrgStems(s, log, key, org, via, at)
    ensures OrgStems(t, next, key, org, via, at)
  {
  }

  lemma RunStaysTold(s: State, t: State, log: Log, next: Log, id: nat)
    requires Grows(s, t) && Extends(log, next) && id in log && RunTold(s, log, id)
    ensures RunTold(t, next, id)
  {
    if log[id].Originated? {
      OrgStemsStays(s, t, log, next, AsnKey(log[id].info.asn), log[id].org, log[id].via, log[id].at);
    }
  }

  /** Only the ending of a computation adds to the record of runs, and adds what the outcome yields. */
  lemma EndingIsRecorded(s: State, a: Action)
    requires Enabled(s, a)
    ensures After(s, a).runs ==
            if Ends(s, a).Some? then s.runs[s.frames[a.f].phase.call := Ends(s, a).value.Yields()] else s.runs
  {
    if InSection(a) {
      SectionRecordsNothing(s, a);
    }
  }

  lemma SectionRecordsNothing(s: State, a: Action)
    requires Enabled(s, a) && InSection(a)
    ensures After(s, a).runs == s.runs && Ends(s, a).None?
  {
    if a.Look? {
      LookRecordsNothing(s, a.f);
    } else if a.StoreValue? {
      StoredTable(s, a.f, Origin);
    }
  }

  lemma LookRecordsNothing(s: State, f: nat)
    requires Enabled(s, Look(f))
    ensures AfterLook(s, f).runs == s.runs
  {
  }

  /** The call that an ending ends was open: it asks the outcome's cache and is not on record yet. */
  lemma EndedCallIsOpen(s: State, a: Action)
    requires Shape(s) && Core(s) && Enabled(s, a) && Ends(s, a).Some?
    ensures var id := s.frames[a.f].phase.call;
            id < |s.calls| && id !in s.runs && s.calls[id].cache == Ends(s, a).value.Asks()
  {
    assert LeadOk(s, a.f) && FrameShape(s, a.f);
  }

  lemma LogIsOnRecord(s: State, log: Log, id: nat)
    requires RunsTold(s, log)
    ensures id in log ==> id in s.runs
  {
    if id in log {
      assert RunTold(s, log, id);
    }
  }

  lemma LogExtends(s: State, log: Log, a: Action)
    requires Shape(s) && Core(s) && Enabled(s, a) && RunsTold(s, log)
    ensures Extends(log, Logged(log, s, a))
  {
    if Ends(s, a).Some? {
      EndedCallIsOpen(s, a);
      LogIsOnRecord(s, log, s.frames[a.f].phase.call);
    }
  }

  /** What the nested lookup returned stems from a lookup of the organisation of the same AS. */
  lemma NestedOrgStems(s: State, log: Log, f: nat)
    requires Shape(s) && Core(s) && RunsTold(s, log) && FramesTold(s, log) && Enabled(s, Resume(f))
    ensures var nested := s.frames[s.n + f];
            OrgStems(s, log, AsnKey(s.frames[f].phase.info.asn), nested.phase.val, nested.via, s.clock)
  {
    var g := s.n + f;
    assert FrameShape(s, f) && FrameShape(s, g) && ValueOk(s, g);
    assert FrameTold(s, log, f) && FrameTold(s, log, g);
    var o := if s.frames[g].via.FromCall? then s.frames[g].via.call else s.frames[g].via.pub.call;
    assert RunTold(s, log, o);
  }

  /** An address that was resolved took its organisation just now, from where the log tells. */
  lemma OriginatedNow(s: State, log: Log, a: Action)
    requires Shape(s) && Core(s) && Enabled(s, a) && Ends(s, a).Some? && Ends(s, a).value.Originated?
    requires RunsTold(s, log) && FramesTold(s, log)
    ensures var o := Ends(s, a).value;
            o.at == s.clock && OrgStems(s, log, AsnKey(o.info.asn), o.org, o.via, o.at)
  {
    NestedOrgStems(s, log, a.f);
  }

  lemma NewRunTold(s: State, t: State, log: Log, id: nat, o: Outcome)
    requires Grows(s, t) && id < |s.calls| && id !in log && s.calls[id].cache == o.Asks()
    requires t.runs == s.runs[id := o.Yields()]
    requires o.Originated? ==> o.at == s.clock && OrgStems(s, log, AsnKey(o.info.asn), o.org, o.via, o.at)
    ensures RunTold(t, log[id := o], id)
  {
    if o.Originated? {
      OrgStemsStays(s, t, log, log[id := o], AsnKey(o.info.asn), o.org, o.via, o.at);
    }
  }

  lemma EndedRunTold(s: State, log: Log, a: Action)
    requires Shape(s) && Core(s) && Enabled(s, a) && Ends(s, a).Some? && Grows(s, After(s, a))
    requires RunsTold(s, log) && FramesTold(s, log)
    ensures RunTold(After(s, a), Logged(log, s, a), s.frames[a.f].phase.call)
  {
    var o, id := Ends(s, a).value, s.frames[a.f].phase.call;
    EndingIsRecorded(s, a);
    EndedCallIsOpen(s, a);
    LogIsOnRecord(s, log, id);
    if o.Originated? {
      OriginatedNow(s, log, a);
    }
    NewRunTold(s, After(s, a), log, id, o);
  }

  /** The old records stay, and the new one, if any, is told. */
  lemma RunsToldExtend(s: State, t: State, log: Log, next: Log)
    requires Grows(s, t) && Extends(log, next) && RunsTold(s, log)
    requires forall id :: id in next && id !in log ==> RunTold(t, next, id)
    requires forall id :: id in t.runs ==> id in s.runs || id in next
    ensures RunsTold(t, next)
  {
    forall id | id in next ensures RunTold(t, next, id) {
      if id in log {
        RunStaysTold(s, t, log, next, id);
      }
    }
  }

  lemma RunsStayTold(s: State, log: Log, a: Action)
    requires Shape(s) && Core(s) && Enabled(s, a) && Grows(s, After(s, a))
    requires RunsTold(s, log) && FramesTold(s, log)
    ensures RunsTold(After(s, a), Logged(log, s, a)) && Extends(log, Logged(log, s, a))
  {
    LogExtends(s, log, a);
    EndingIsRecorded(s, a);
    if Ends(s, a).Some? {
      EndedRunTold(s, log, a);
    }
    RunsToldExtend(s, After(s, a), log, Logged(log, s, a));
  }

  lemma FrameStaysTold(s: State, t: State, log: Log, next: Log, f: nat)
    requires f < |s.frames| == |t.frames| && t.n == s.n && Extends(log, next) && FrameTold(s, log, f)
    requires t.frames[f] == s.frames[f]
    requires s.frames[f].phase.Nested? ==> t.frames[s.n + f].key == s.frames[s.n + f].key
    ensures FrameTold(t, next, f)
  {
  }

  lemma OutsideFrameTold(s: State, log: Log, a: Action)
    requires Shape(s) && Enabled(s, a) && !a.Tick? && !InSection(a) && FrameTold(s, log, a.f)
    requires Extends(log, Logged(log, s, a))
    ensures a.f < |After(s, a).frames| && FrameTold(After(s, a), Logged(log, s, a), a.f)
  {
    assert FrameShape(s, a.f);
  }

  lemma LookFrameTold(s: State, log: Log, f: nat)
    requires Enabled(s, Look(f)) && EntriesTold(s, log, s.frames[f].cache)
    ensures FrameTold(AfterLook(s, f), log, f)
  {
    var fr := s.frames[f];
    if fr.key in s.At(fr.cache).m {
      assert EntryTold(s, log, fr.cache, fr.key);
    }
  }

  lemma StoreFrameTold(s: State, log: Log, f: nat)
    requires Enabled(s, StoreValue(f))
    ensures FrameTold(AfterStore(s, f), log, f)
  {
  }

  lemma SectionFrameTold(s: State, log: Log, a: Action)
    requires Enabled(s, a) && (a.Acquire? || a.EvictEntries? || a.RemoveCall?) && FrameTold(s, log, a.f)
    ensures a.f < |After(s, a).frames| && FrameTold(After(s, a), log, a.f)
  {
  }

  lemma OwnFrameTold(s: State, log: Log, a: Action)
    requires Shape(s) && Enabled(s, a) && !a.Tick? && FrameTold(s, log, a.f)
    requires EntriesTold(s, log, s.frames[a.f].cache) && Extends(log, Logged(log, s, a))
    ensures a.f < |After(s, a).frames| && FrameTold(After(s, a), Logged(log, s, a), a.f)
  {
    if !InSection(a) {
      OutsideFrameTold(s, log, a);
    } else if a.Look? {
      LookFrameTold(s, log, a.f);
    } else if a.StoreValue? {
      StoreFrameTold(s, log, a.f);
    } else {
      SectionFrameTold(s, log, a);
    }
  }

  lemma KeyIsKept(s: State, a: Action)
    requires Shape(s) && Enabled(s, a) && !a.Tick? && (a.OriginAnswer? ==> !a.origin.Found?)
    ensures var t := After(s, a); a.f < |t.frames| && t.frames[a.f].key == s.frames[a.f].key
  {
    if a.Look? {
      LookKeepsKey(s, a.f);
    } else if a.StoreValue? {
      StoreKeepsKey(s, a.f);
    } else if InSection(a) {
      SectionKeepsKey(s, a);
    }
  }

  lemma SectionKeepsKey(s: State, a: Action)
    requires Enabled(s, a) && (a.Acquire? || a.EvictEntries? || a.RemoveCall?)
    ensures a.f < |After(s, a).frames| && After(s, a).frames[a.f].key == s.frames[a.f].key
  {
  }

  lemma LookKeepsKey(s: State, f: nat)
    requires Enabled(s, Look(f))
    ensures f < |AfterLook(s, f).frames| && AfterLook(s, f).frames[f].key == s.frames[f].key
  {
  }

  lemma StoreKeepsKey(s: State, f: nat)
    requires Enabled(s, StoreValue(f))
    ensures f < |AfterStore(s, f).frames| && AfterStore(s, f).frames[f].key == s.frames[f].key
  {
  }

  lemma FoundFrames(s: State, f: nat, info: AsnInfo)
    requires Shape(s) && Enabled(s, OriginAnswer(f, Found(info)))
    ensures var t := After(s, OriginAnswer(f, Found(info)));
            && f < s.n && t.n == s.n && |t.frames| == |s.frames| == 2 * s.n
            && t.frames[f].phase.Nested? && t.frames[f].phase.info == info
            && t.frames[s.n + f].key == AsnKey(info.asn) && t.frames[s.n + f].phase.WantLock?
            && forall g :: 0 <= g < |s.frames| && g != f && g != s.n + f ==> t.frames[g] == s.frames[g]
  {
    assert FrameShape(s, f);
  }

  lemma FoundFramesTold(s: State, log: Log, f: nat, info: AsnInfo, g: nat)
    requires Shape(s) && Enabled(s, OriginAnswer(f, Found(info))) && g < |s.frames| && FrameTold(s, log, g)
    ensures g < |After(s, OriginAnswer(f, Found(info))).frames|
    ensures FrameTold(After(s, OriginAnswer(f, Found(info))), log, g)
  {
    FoundFrames(s, f, info);
    if g != f && g != s.n + f {
      FrameStaysTold(s, After(s, OriginAnswer(f, Found(info))), log, log, g);
    }
  }

  lemma PlainFrameTold(s: State, t: State, log: Log, next: Log, f: nat, g: nat)
    requires Shape(s) && PlainStep(s, t, f) && t.frames[f].key == s.frames[f].key && Extends(log, next)
    requires g < |s.frames| && g != f && FrameTold(s, log, g)
    ensures FrameTold(t, next, g)
  {
    FrameStaysTold(s, t, log, next, g);
  }

  lemma FramesStayTold(s: State, log: Log, a: Action)
    requires Shape(s) && Enabled(s, a) && FramesTold(s, log) && Extends(log, Logged(log, s, a))
    requires !a.Tick? ==> EntriesTold(s, log, s.frames[a.f].cache)
    ensures FramesTold(After(s, a), Logged(log, s, a))
  {
    if a.Tick? {
      TickFramesTold(s, log, a);
    } else if a.OriginAnswer? && a.origin.Found? {
      var t := After(s, a);
      forall g | 0 <= g < |t.frames| ensures FrameTold(t, log, g) {
        FoundFramesTold(s, log, a.f, a.origin.info, g);
      }
    } else {
      PlainFramesTold(s, log, a);
    }
  }

  lemma TickFramesTold(s: State, log: Log, a: Action)
    requires Enabled(s, a) && a.Tick? && FramesTold(s, log)
    ensures FramesTold(After(s, a), log)
  {
    forall g | 0 <= g < |s.frames| ensures FrameTold(After(s, a), log, g) {
      assert FrameTold(s, log, g);
    }
  }

  lemma PlainFramesTold(s: State, log: Log, a: Action)
    requires Shape(s) && Enabled(s, a) && FramesTold(s, log) && Extends(log, Logged(log, s, a))
    requires !a.Tick? && EntriesTold(s, log, s.frames[a.f].cache) && (a.OriginAnswer? ==> !a.origin.Found?)
    ensures FramesTold(After(s, a), Logged(log, s, a))
  {
    var t, next := After(s, a), Logged(log, s, a);
    assert FrameTold(s, log, a.f);
    OwnFrameTold(s, log, a);
    ActionIsPlain(s, a);
    KeyIsKept(s, a);
    forall g | 0 <= g < |t.frames| ensures FrameTold(t, next, g) {
      if g != a.f {
        assert FrameTold(s, log, g);
        PlainFrameTold(s, t, log, next, a.f, g);
      }
    }
  }

  /** A cache that a step adds nothing to. */
  lemma EntriesWithoutStore(s: State, t: State, log: Log, next: Log, c: Cache)
    requires EntriesTold(s, log, c) && Extends(log, next) && t.At(c).source == s.At(c).source
    requires t.At(c).m.Keys <= s.At(c).m.Keys
    ensures EntriesTold(t, next, c)
  {
    forall k | k in t.At(c).m ensures EntryTold(t, next, c, k) {
      assert EntryTold(s, log, c, k);
    }
  }

  lemma StoreEntriesTold(s: State, log: Log, f: nat, c: Cache)
    requires Enabled(s, StoreValue(f)) && EntriesTold(s, log, c)
    requires FrameTold(s, log, f) && RunTold(s, log, s.frames[f].phase.call)
    ensures EntriesTold(AfterStore(s, f), log, c)
  {
    var t := AfterStore(s, f);
    StoredTable(s, f, c);
    forall k | k in t.At(c).m ensures EntryTold(t, log, c, k) {
      assert k in s.At(c).m ==> EntryTold(s, log, c, k);
    }
  }

  lemma EvictedTable(s: State, f: nat, kept: map<string, Entry<Value>>, c: Cache)
    requires Enabled(s, EvictEntries(f, kept))
    ensures var t := After(s, EvictEntries(f, kept));
            t.At(c).source == s.At(c).source && t.At(c).m.Keys <= s.At(c).m.Keys
  {
  }

  lemma EntriesStayTold(s: State, log: Log, a: Action, c: Cache)
    requires Enabled(s, a) && RunsTold(s, log) && FramesTold(s, log) && EntriesTold(s, log, c)
    requires Extends(log, Logged(log, s, a))
    ensures EntriesTold(After(s, a), Logged(log, s, a), c)
  {
    if a.StoreValue? {
      assert FrameTold(s, log, a.f);
      StoreEntriesTold(s, log, a.f, c);
    } else {
      if a.EvictEntries? {
        EvictedTable(s, a.f, a.kept, c);
      } else {
        EntriesUntouched(s, a, c);
      }
      EntriesWithoutStore(s, After(s, a), log, Logged(log, s, a), c);
    }
  }

  lemma StaysTold(s: State, log: Log, a: Action)
    requires Inv(s) && Enabled(s, a) && Told(s, log)
    ensures Told(After(s, a), Logged(log, s, a))
  {
    CoreStaysKept(s, a);
    RunsStayTold(s, log, a);
    if !a.Tick? {
      EntriesToldAt(s, log, s.frames[a.f].cache);
    }
    FramesStayTold(s, log, a);
    EntriesStayTold(s, log, a, Origin);
    EntriesStayTold(s, log, a, Org);
    EntriesStayTold(s, log, a, Whois);
  }

  lemma EntriesToldAt(s: State, log: Log, c: Cache)
    requires Told(s, log)
    ensures EntriesTold(s, log, c)
  {
  }

  lemma {:induction false} RunStaysToldAll(s: State, acts: seq<Action>, log: Log)
    requires Inv(s) && Steps(s, acts) && Told(s, log)
    ensures Told(Exec(s, acts), LogOf(s, acts, log)) && Inv(Exec(s, acts))
    decreases |acts|
  {
    if acts != [] {
      InvKept(s, acts[0]);
      StaysTold(s, log, acts[0]);
      RunStaysToldAll(After(s, acts[0]), acts[1..], Logged(log, s, acts[0]));
    }
  }

  /** In every run the log tells the state the run leads to. */
  lemma LogTellsTheState(s0: State, acts: seq<Action>)
    requires Initial(s0) && Steps(s0, acts)
    ensures Told(Exec(s0, acts), LogOf(s0, acts, map[])) && Inv(Exec(s0, acts))
  {
    InitialInv(s0);
    RunStaysToldAll(s0, acts, map[]);
  }

  // ---------- what callers may rely on ----------

  /** An entry holds what its computation's outcome yields, and lives for as long as that outcome allows. */
  predicate FollowsItsOutcome(s: State, log: Log, c: Cache, k: string)
    requires k in s.At(c).m
  {
    && k in s.At(c).source
    && var e, pub := s.At(c).m[k], s.At(c).source[k];
       && pub.call in log && pub.call < |s.calls| && s.calls[pub.call].key == k
       && log[pub.call].Asks() == c && !log[pub.call].Cancelled?
       && e.val == log[pub.call].Yields()
       && e.expires == pub.at + log[pub.call].Lifetime() && pub.at <= s.clock
  }

  lemma EntryFollows(s: State, log: Log, c: Cache, k: string)
    requires k in s.At(c).m && EntryOk(s, c, k) && EntryTold(s, log, c, k) && RunsTold(s, log)
    ensures FollowsItsOutcome(s, log, c, k)
  {
    assert RunTold(s, log, s.At(c).source[k].call);
  }

  lemma EntriesAt(s: State, c: Cache)
    requires Inv(s)
    ensures Entries(s, c)
  {
  }

  /**
   Every entry of every cache follows its outcome, in every reachable state. In particular no cancelled query
   stands behind an entry.
   */
  lemma EntriesFollowTheirOutcome(s0: State, acts: seq<Action>, c: Cache, k: string)
    requires Initial(s0) && Steps(s0, acts) && k in Exec(s0, acts).At(c).m
    ensures FollowsItsOutcome(Exec(s0, acts), LogOf(s0, acts, map[]), c, k)
  {
    LogTellsTheState(s0, acts);
    var s, log := Exec(s0, acts), LogOf(s0, acts, map[]);
    EntriesAt(s, c);
    EntriesToldAt(s, log, c);
    EntryFollows(s, log, c, k);
  }

  /** What each outcome leaves in a cache, and for how many nanoseconds. */
  predicate EntryOf(o: Outcome, val: Value, ttl: int) {
    match o
    case OriginFailed => val.Resolved? && val.info.asn == 0 && !val.ok && ttl == 60_000_000_000
    case NoOriginAs => val.Resolved? && val.info.asn == 0 && val.ok && ttl == 43_200_000_000_000
    case Originated(info, org, _, _) =>
      && val.Resolved? && val.ok && val.info.asn == info.asn && ttl == 43_200_000_000_000
      && (org.Text? ==> val.info == info.(org := org.text))
    case OrgFailed => val == Text("") && ttl == 60_000_000_000
    case OrgNamed(name) => val == Text(name) && ttl == 43_200_000_000_000
    case Cancelled => false
    case WhoisFailed => val == Text("") && ttl == 300_000_000_000
    case WhoisSaid(text) => val == Text(text) && ttl == 86_400_000_000_000
  }

  /** Every entry of every cache, in every reachable state, in numbers. */
  lemma EntriesInNumbers(s0: State, acts: seq<Action>, c: Cache, k: string)
    requires Initial(s0) && Steps(s0, acts) && k in Exec(s0, acts).At(c).m
    ensures var s, log := Exec(s0, acts), LogOf(s0, acts, map[]);
            && k in s.At(c).source && s.At(c).source[k].call in log
            && var e, pub := s.At(c).m[k], s.At(c).source[k];
               EntryOf(log[pub.call], e.val, e.expires - pub.at) && pub.at <= s.clock
  {
    EntriesFollowTheirOutcome(s0, acts, c, k);
  }

  /** A failed resolution is never cached for more than a minute, a failed WHOIS query for no more than five. */
  lemma FailuresAreCachedBriefly(s0: State, acts: seq<Action>, c: Cache, k: string)
    requires Initial(s0) && Steps(s0, acts)
    requires k in Exec(s0, acts).At(c).m && Exec(s0, acts).clock < Exec(s0, acts).At(c).m[k].expires
    ensures var s, log := Exec(s0, acts), LogOf(s0, acts, map[]);
            && k in s.At(c).source && s.At(c).source[k].call in log
            && var pub, o := s.At(c).source[k], log[s.At(c).source[k].call];
               && (o.OriginFailed? || o.OrgFailed? ==> s.clock < pub.at + 60_000_000_000)
               && (o.WhoisFailed? ==> s.clock < pub.at + 300_000_000_000)
               && (c == Origin ==> s.At(c).m[k].val.Resolved?
                                   && (!s.At(c).m[k].val.ok ==> s.clock < pub.at + 60_000_000_000))
  {
    EntriesFollowTheirOutcome(s0, acts, c, k);
  }

  // ---------- where the organisation in an address answer came from ----------

  lemma {:induction false} DigitsDiffer(a: nat, b: nat)
    requires Digits(a) == Digits(b)
    ensures a == b
  {
    if a >= 10 && b >= 10 {
      var k := |Digits(a)| - 1;
      assert Digits(a)[..k] == Digits(a / 10) && Digits(b)[..k] == Digits(b / 10);
      DigitsDiffer(a / 10, b / 10);
      DigitDiffers(a % 10, b % 10);
      assert Digits(a)[k] == "0123456789"[a % 10] && Digits(b)[k] == "0123456789"[b % 10];
    } else {
      DigitsLength(a);
      DigitsLength(b);
      DigitDiffers(a, b);
    }
  }

  lemma DigitDiffers(a: nat, b: nat)
    requires a < 10 && b < 10 && "0123456789"[a] == "0123456789"[b]
    ensures a == b
  {
  }

  lemma {:induction false} DigitsLength(n: nat)
    ensures Digits(n) != [] && '0' <= Digits(n)[0] <= '9'
    ensures |Digits(n)| == 1 <==> n < 10
  {
    if n >= 10 {
      DigitsLength(n / 10);
    }
  }

  /** Different AS numbers have different keys. */
  lemma AsnKeysDiffer(a: int, b: int)
    requires AsnKey(a) == AsnKey(b)
    ensures a == b
  {
    DigitsLength(if a < 0 then -a else a);
    DigitsLength(if b < 0 then -b else b);
    if a < 0 && b < 0 {
      assert AsnKey(a)[1..] == Digits(-a) && AsnKey(b)[1..] == Digits(-b);
      DigitsDiffer(-a, -b);
    } else if a >= 0 && b >= 0 {
      DigitsDiffer(a, b);
    }
  }

  /** The call behind a returned value. */
  function CallBehind(via: Via): nat
    requires !via.Unset?
  {
    if via.FromCall? then via.call else via.pub.call
  }

  predicate HasAs(s: State, k: string) {
    k in s.origin.m && s.origin.m[k].val.Resolved? && s.origin.m[k].val.info.asn != 0
  }

  /**
   The organisation in a cached address answer was returned by a lookup of the organisation of the same AS and
   no other, taken before the answer was published; if that one came from the cache, it was within its own
   lifetime when taken. The name is missing if that lookup failed, else it is the one the lookup ended with.
   */
  lemma OrgStemsFromItsOwnLookup(s0: State, acts: seq<Action>, k: string)
    requires Initial(s0) && Steps(s0, acts) && HasAs(Exec(s0, acts), k)
    ensures var s, log := Exec(s0, acts), LogOf(s0, acts, map[]);
            && k in s.origin.source && s.origin.source[k].call in log
            && var pub, o := s.origin.source[k], log[s.origin.source[k].call];
               && o.Originated? && o.at <= pub.at && s.origin.m[k].expires == pub.at + 43_200_000_000_000
               && OrgStems(s, log, AsnKey(s.origin.m[k].val.info.asn), Text(s.origin.m[k].val.info.org), o.via, o.at)
               && NamedBy(s, log, s.origin.m[k].val.info, CallBehind(o.via))
  {
    LogTellsTheState(s0, acts);
    EntriesFollowTheirOutcome(s0, acts, Origin, k);
    var s, log := Exec(s0, acts), LogOf(s0, acts, map[]);
    EntriesToldAt(s, log, Origin);
    var id := s.origin.source[k].call;
    assert EntryTold(s, log, Origin, k) && RunTold(s, log, id);
    OrgValuesAreTexts(log, s, id);
    StemsMeansNamedBy(s, log, s.origin.m[k].val.info, log[id].via, log[id].at);
  }

  /** Call c looked up the organisation of this AS alone, and ended with this name or failed to. */
  ghost predicate NamedBy(s: State, log: Log, info: AsnInfo, c: nat) {
    && c in log && c < |s.calls| && s.calls[c].cache == Org
    && (forall asn :: s.calls[c].key == AsnKey(asn) <==> asn == info.asn)
    && (log[c] == OrgNamed(info.org) || (log[c].OrgFailed? && info.org == ""))
  }

  lemma StemsMeansNamedBy(s: State, log: Log, info: AsnInfo, via: Via, at: int)
    requires OrgStems(s, log, AsnKey(info.asn), Text(info.org), via, at)
    ensures NamedBy(s, log, info, CallBehind(via))
  {
    forall asn | s.calls[CallBehind(via)].key == AsnKey(asn) ensures asn == info.asn {
      AsnKeysDiffer(asn, info.asn);
    }
  }

  lemma OrgValuesAreTexts(log: Log, s: State, id: nat)
    requires id in log && log[id].Originated?
    requires OrgStems(s, log, AsnKey(log[id].info.asn), log[id].org, log[id].via, log[id].at)
    ensures log[id].org.Text?
  {
  }

  /** At time now the entry is live and serves an answer whose organisation query failed. */
  predicate ServesFailedOrg(s: State, log: Log, k: string, now: int) {
    && k in s.origin.m && now < s.origin.m[k].expires
    && k in s.origin.source && s.origin.source[k].call in log
    && var o := log[s.origin.source[k].call];
       o.Originated? && !o.via.Unset? && CallBehind(o.via) in log && log[CallBehind(o.via)].OrgFailed?
  }

  /**
   A failed organisation query is served past its own minute, by an address answer that took it, exactly when
   the query behind that answer failed at all: every such answer outlives it.
   */
  lemma FailedOrgIsServedLongerIff(s0: State, acts: seq<Action>, k: string)
    requires Initial(s0) && Steps(s0, acts) && HasAs(Exec(s0, acts), k)
    ensures var s, log := Exec(s0, acts), LogOf(s0, acts, map[]);
            && k in s.origin.source && s.origin.source[k].call in log
            && var o := log[s.origin.source[k].call];
               && o.Originated? && !o.via.Unset? && CallBehind(o.via) in log
               && ((exists now :: now >= o.at + 60_000_000_000 && ServesFailedOrg(s, log, k, now))
                   <==> log[CallBehind(o.via)].OrgFailed?)
  {
    OrgStemsFromItsOwnLookup(s0, acts, k);
    var s, log := Exec(s0, acts), LogOf(s0, acts, map[]);
    var o := log[s.origin.source[k].call];
    if log[CallBehind(o.via)].OrgFailed? {
      assert ServesFailedOrg(s, log, k, o.at + 60_000_000_000);
    }
  }
}
