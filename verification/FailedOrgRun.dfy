/**
 A run in which a failed organisation query outlives its minute (asn.go): one lookup, its nested query
 failing, and the address answer still served eleven hours later without an organisation.
 */
module FailedOrgRun {
  import opened Common
  import opened TtlCache
  import opened SingleFlight
  import opened SingleFlightOutcomes

  /** A run so far, the state it leads to and the outcomes it brought. */
  ghost predicate Leads(s0: State, acts: seq<Action>, s: State, log: Log) {
    Steps(s0, acts) && Exec(s0, acts) == s && LogOf(s0, acts, map[]) == log
  }

  lemma {:induction false} StepsSnoc(s: State, acts: seq<Action>, a: Action, log: Log)
    requires Steps(s, acts) && Enabled(Exec(s, acts), a)
    ensures Steps(s, acts + [a]) && Exec(s, acts + [a]) == After(Exec(s, acts), a)
    ensures LogOf(s, acts + [a], log) == Logged(LogOf(s, acts, log), Exec(s, acts), a)
    decreases |acts|
  {
    if acts == [] {
      assert (acts + [a])[1..] == [];
    } else {
      StepsSnoc(After(s, acts[0]), acts[1..], a, Logged(log, s, acts[0]));
      assert (acts + [a])[1..] == acts[1..] + [a];
    }
  }

  lemma Goes(s0: State, acts: seq<Action>, s: State, log: Log, a: Action)
    returns (more: seq<Action>, t: State, next: Log)
    requires Leads(s0, acts, s, log) && Enabled(s, a)
    ensures Leads(s0, more, t, next) && t == After(s, a) && next == Logged(log, s, a)
  {
    StepsSnoc(s0, acts, a, map[]);
    more, t, next := acts + [a], After(s, a), Logged(log, s, a);
  }

  const INFO := AsnInfo(1, "", "192.0.2.0/24", "ripencc", "2010-07-14", "US")
  const EMPTY := CacheState(map[], map[], None, map[])

  /** Thread 0 and the slot of its nested lookup, in front of empty or busy caches. */
  function At(clock: int, origin: CacheState, org: CacheState, calls: seq<CallRecord>,
              outer: Phase, inner: Frame, runs: map<nat, Value>): State
  {
    State(1, clock, origin, org, EMPTY, calls, [Frame(Origin, "ip", outer, Unset), inner], 0, runs)
  }

  const OUTER := CallRecord(Origin, "ip", 0, None, false)
  const INNER := CallRecord(Org, "1", 1, None, false)
  const FAILED := Text("")
  const UNNAMED := Resolved(INFO, true)
  const ASKED := EMPTY.(inflight := map["ip" := 0])
  const NESTED := EMPTY.(inflight := map["1" := 1])
  const BRIEF := EMPTY.(m := map["1" := Entry(FAILED, ASN_ERROR_TTL)],
                        source := map["1" := Publication(1, 0, ASN_ERROR_TTL)])

  const FAILURE: Log := map[1 := OrgFailed]
  const OUTCOMES: Log := FAILURE[0 := Originated(INFO, FAILED, FromCall(1), 0)]

  // The states the run passes through: the address resolved, the organisation being asked for, its failure
  // stored, the failure returned to the outer lookup, and the answer about to be published without a name.
  const START := At(0, EMPTY, EMPTY, [], WantLock, Frame(Org, "", Idle, Unset), map[])
  const FOUND := At(0, ASKED, EMPTY, [OUTER], Nested(0, INFO), Frame(Org, "1", WantLock, Unset), map[])
  const ASKING := At(0, ASKED, NESTED, [OUTER, INNER], Nested(0, INFO), Frame(Org, "1", Run(1), Unset), map[])
  const STORED :=
    At(0, ASKED, BRIEF.(inflight := NESTED.inflight, holder := Some(1)), [OUTER, INNER.(val := Some(FAILED))],
       Nested(0, INFO), Frame(Org, "1", Evict(1, FAILED), Unset), map[1 := FAILED])
  const RETURNED :=
    At(0, ASKED, BRIEF, [OUTER, INNER.(val := Some(FAILED), done := true)],
       Nested(0, INFO), Frame(Org, "1", Returned(FAILED), FromCall(1)), map[1 := FAILED])
  const UNPUBLISHED :=
    RETURNED.(frames := RETURNED.frames[0 := Frame(Origin, "ip", WantPublish(0, UNNAMED, ASN_TTL), Unset)],
              runs := map[1 := FAILED, 0 := UNNAMED])

  lemma Resolves() returns (acts: seq<Action>)
    ensures Leads(START, acts, FOUND, map[])
  {
    var s, log;
    acts, s, log := Goes(START, [], START, map[], Acquire(0));
    acts, s, log := Goes(START, acts, s, log, Look(0));
    assert s == At(0, ASKED, EMPTY, [OUTER], Run(0), Frame(Org, "", Idle, Unset), map[]);
    acts, s, log := Goes(START, acts, s, log, OriginAnswer(0, Found(INFO)));
    assert AsnKey(1) == "1";
  }

  lemma AsksForTheName(before: seq<Action>) returns (acts: seq<Action>)
    requires Leads(START, before, FOUND, map[])
    ensures Leads(START, acts, ASKING, map[])
  {
    var s, log;
    acts, s, log := Goes(START, before, FOUND, map[], Acquire(1));
    acts, s, log := Goes(START, acts, s, log, Look(1));
  }

  /** The query fails, and the failure is published for a minute. */
  lemma FailsToName(before: seq<Action>) returns (acts: seq<Action>)
    requires Leads(START, before, ASKING, map[])
    ensures Leads(START, acts, STORED, FAILURE)
  {
    var s, log;
    acts, s, log := Goes(START, before, ASKING, map[], OrgAnswer(1, None));
    assert log == FAILURE;
    acts, s, log := Goes(START, acts, s, log, Acquire(1));
    acts, s, log := Goes(START, acts, s, log, StoreValue(1));
  }

  lemma ReturnsTheFailure(before: seq<Action>) returns (acts: seq<Action>)
    requires Leads(START, before, STORED, FAILURE)
    ensures Leads(START, acts, RETURNED, FAILURE)
  {
    var s, log;
    assert |BRIEF.m| == 1;
    acts, s, log := Goes(START, before, STORED, FAILURE, EvictEntries(1, BRIEF.m));
    acts, s, log := Goes(START, acts, s, log, RemoveCall(1));
    acts, s, log := Goes(START, acts, s, log, CloseCall(1));
  }

  lemma GoesOnUnnamed(before: seq<Action>) returns (acts: seq<Action>)
    requires Leads(START, before, RETURNED, FAILURE)
    ensures Leads(START, acts, UNPUBLISHED, OUTCOMES)
  {
    var s, log;
    acts, s, log := Goes(START, before, RETURNED, FAILURE, Resume(0));
  }

  const HOURS := 3600 * SECOND

  /** The answer is published for twelve hours, and eleven pass. */
  lemma IsStillServed(before: seq<Action>) returns (acts: seq<Action>, s: State)
    requires Leads(START, before, UNPUBLISHED, OUTCOMES)
    ensures Leads(START, acts, s, OUTCOMES) && s.clock == 11 * HOURS
    ensures s.origin.m == map["ip" := Entry(UNNAMED, ASN_TTL)]
    ensures s.origin.source == map["ip" := Publication(0, 0, ASN_TTL)]
  {
    var log;
    acts, s, log := Goes(START, before, UNPUBLISHED, OUTCOMES, Acquire(0));
    acts, s, log := Goes(START, acts, s, log, StoreValue(0));
    acts, s, log := Goes(START, acts, s, log, Tick(11 * HOURS));
  }

  /**
   Brief caching of failures stops at the organisation: a reachable state serves, eleven hours on, an address
   answer without the organisation whose query failed.
   */
  lemma FailedOrgIsServedForHours() returns (acts: seq<Action>)
    ensures Initial(START) && Steps(START, acts)
    ensures var s, log := Exec(START, acts), LogOf(START, acts, map[]);
            && s.clock == 39_600_000_000_000 && "ip" in s.origin.m && s.clock < s.origin.m["ip"].expires
            && s.origin.m["ip"].val == Resolved(INFO, true) && INFO.asn == 1 && INFO.org == ""
            && ServesFailedOrg(s, log, "ip", s.clock)
  {
    acts := Resolves();
    acts := AsksForTheName(acts);
    acts := FailsToName(acts);
    acts := ReturnsTheFailure(acts);
    acts := GoesOnUnnamed(acts);
    var s;
    acts, s := IsStillServed(acts);
  }
}
