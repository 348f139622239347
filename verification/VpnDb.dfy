/**
 The database of feeds over whole runs (vpnDB, vpn.go): refreshes replace the snapshot, and each feed
 keeps its last good data.
 */
module VpnDb {
  import opened Common
  import opened Netip
  import opened Feeds
  import opened Snapshot
  import opened Signals
  import opened Verdicts

  /** What one feed's download came to, stamped with the time it was taken in. */
  datatype FetchResult = FetchResult(name: string, data: SourceData, failed: bool, at: int) {
    /** An empty payload is an outage, not a feed with nothing to say. */
    predicate Good() {
      !failed && (data.relays != [] || data.addrs != [] || data.cidrs != [])
    }

    function Payload(): SourceData {
      data.(fetched := at)
    }
  }

  const RELAY_FEEDS: set<string> := {"mullvad", "nordvpn", "ivpn", "airvpn"}
  const ADDR_FEED := "tor"
  const RANGE_FEED := "icloud-private-relay"
  const TOTAL := 6

  /** Each kind of feed delivers its own kind of data. */
  predicate FromJob(r: FetchResult) {
    || (r.name in RELAY_FEEDS && r.data.addrs == [] && r.data.cidrs == [])
    || (r.name == ADDR_FEED && r.data.relays == [] && r.data.cidrs == [])
    || (r.name == RANGE_FEED && r.data.relays == [] && r.data.addrs == [])
  }

  predicate DistinctNames(rs: seq<FetchResult>) {
    forall i, j :: 0 <= i < j < |rs| ==> rs[i].name != rs[j].name
  }

  /** One refresh: every feed reports once, in any order, with any outcome. */
  predicate IsRound(rs: seq<FetchResult>) {
    |rs| == TOTAL && DistinctNames(rs) && forall i :: 0 <= i < |rs| ==> FromJob(rs[i])
  }

  /** Taking in results one by one: a good one replaces its feed's data, any other changes nothing. */
  function Absorb(sources: Sources, rs: seq<FetchResult>): Sources {
    if rs == [] then sources
    else
      var r, before := rs[|rs| - 1], Absorb(sources, rs[..|rs| - 1]);
      if r.Good() then before[r.name := r.Payload()] else before
  }

  lemma {:induction false} AbsorbConcat(sources: Sources, a: seq<FetchResult>, b: seq<FetchResult>)
    ensures Absorb(sources, a + b) == Absorb(Absorb(sources, a), b)
  {
    if b == [] {
      assert a + b == a;
    } else {
      AbsorbConcat(sources, a, b[..|b| - 1]);
      assert (a + b)[..|a + b| - 1] == a + b[..|b| - 1];
    }
  }

  // ---------- last known good ----------

  predicate GoodFor(r: FetchResult, name: string) {
    r.Good() && r.name == name
  }

  /** What is held is the three lists that were delivered. */
  predicate Carries(held: SourceData, r: FetchResult) {
    && held.relays == r.data.relays && held.addrs == r.data.addrs && held.cidrs == r.data.cidrs
    && held.fetched == r.at
  }

  /** The latest good result a feed has had, if any. */
  predicate LatestGood(history: seq<FetchResult>, name: string, d: Option<SourceData>) {
    match d
    case None => forall i :: 0 <= i < |history| ==> !GoodFor(history[i], name)
    case Some(data) =>
      exists i :: 0 <= i < |history| && GoodFor(history[i], name) && Carries(data, history[i])
                  && forall j :: i < j < |history| ==> !GoodFor(history[j], name)
  }

  predicate EverLoaded(history: seq<FetchResult>) {
    exists i :: 0 <= i < |history| && history[i].Good()
  }

  /** After any run, every feed holds exactly its latest good data. */
  lemma {:induction false} FeedsHoldLatestGood(history: seq<FetchResult>, name: string)
    ensures LatestGood(history, name, Get(Absorb(map[], history), name))
  {
    if history != [] {
      var k := |history| - 1;
      FeedsHoldLatestGood(history[..k], name);
      var before, now := Get(Absorb(map[], history[..k]), name), Get(Absorb(map[], history), name);
      if GoodFor(history[k], name) {
        assert now == Some(history[k].Payload());
      } else if before.Some? {
        var i :| 0 <= i < k && GoodFor(history[..k][i], name) && Carries(before.value, history[..k][i])
                 && forall j :: i < j < k ==> !GoodFor(history[..k][j], name);
        assert GoodFor(history[i], name);
        forall j | i < j < |history| ensures !GoodFor(history[j], name) {
          assert j < k ==> !GoodFor(history[..k][j], name);
        }
      } else {
        forall j | 0 <= j < |history| ensures !GoodFor(history[j], name) {
          assert j < k ==> !GoodFor(history[..k][j], name);
        }
      }
    }
  }

  /** Loaded means that some feed once succeeded. */
  lemma LoadedIffEverGood(history: seq<FetchResult>)
    ensures SomeFeedLoaded(Absorb(map[], history)) <==> EverLoaded(history)
  {
    var sources := Absorb(map[], history);
    if SomeFeedLoaded(sources) {
      var n :| n in sources && !sources[n].Empty();
      FeedsHoldLatestGood(history, n);
      assert Get(sources, n) == Some(sources[n]);
    }
    if EverLoaded(history) {
      var i :| 0 <= i < |history| && history[i].Good();
      var n := history[i].name;
      FeedsHoldLatestGood(history, n);
      assert GoodFor(history[i], n);
      assert n in sources;
      assert !sources[n].Empty();
    }
  }

  /**
   A delivery is kept until the next one of its feed: a result that did not fail and has some relay, address or
   range leaves its three lists at its name, whatever results of that feed fail or are empty after it.
   */
  lemma {:induction false} DeliveriesAreKept(history: seq<FetchResult>, i: nat)
    requires i < |history| && !history[i].failed
    requires |history[i].data.relays| > 0 || |history[i].data.addrs| > 0 || |history[i].data.cidrs| > 0
    requires forall j :: i < j < |history| && history[j].name == history[i].name ==>
               || history[j].failed
               || (|history[j].data.relays| == 0 && |history[j].data.addrs| == 0 && |history[j].data.cidrs| == 0)
    ensures var sources, r := Absorb(map[], history), history[i];
            && r.name in sources
            && sources[r.name] == SourceData(r.data.relays, r.data.addrs, r.data.cidrs, r.at)
            && SomeFeedLoaded(sources)
  {
    var sources, name := Absorb(map[], history), history[i].name;
    FeedsHoldLatestGood(history, name);
    assert GoodFor(history[i], name);
    assert name in sources;
    var k :| 0 <= k < |history| && GoodFor(history[k], name) && Carries(sources[name], history[k])
             && forall j :: k < j < |history| ==> !GoodFor(history[j], name);
    assert k == i;
  }

  /** A feed holds something exactly when it ever delivered a relay, an address or a range. */
  lemma {:induction false} HeldIffDelivered(history: seq<FetchResult>, name: string)
    ensures name in Absorb(map[], history) <==>
            exists i :: && 0 <= i < |history| && history[i].name == name && !history[i].failed
                        && (|history[i].data.relays| > 0 || |history[i].data.addrs| > 0 || |history[i].data.cidrs| > 0)
  {
    FeedsHoldLatestGood(history, name);
    if i :| && 0 <= i < |history| && history[i].name == name && !history[i].failed
            && (|history[i].data.relays| > 0 || |history[i].data.addrs| > 0 || |history[i].data.cidrs| > 0) {
      assert GoodFor(history[i], name);
    }
  }

  /** Once ready, ready for good. */
  lemma ReadyNeverReverts(history: seq<FetchResult>, more: seq<FetchResult>)
    requires SomeFeedLoaded(Absorb(map[], history))
    ensures SomeFeedLoaded(Absorb(map[], history + more))
  {
    LoadedIffEverGood(history);
    LoadedIffEverGood(history + more);
    var i :| 0 <= i < |history| && history[i].Good();
    assert (history + more)[i].Good();
  }

  lemma {:induction false} FailuresChangeNothing(sources: Sources, rs: seq<FetchResult>)
    requires !EverLoaded(rs)
    ensures Absorb(sources, rs) == sources
  {
    if rs != [] {
      var k := |rs| - 1;
      assert !rs[k].Good();
      forall i | 0 <= i < k ensures !rs[..k][i].Good() {
        assert !rs[i].Good();
      }
      FailuresChangeNothing(sources, rs[..k]);
    }
  }

  /** A refresh in which every feed fails leaves the answer for every address as it was. */
  lemma FailingRoundKeepsVerdicts(history: seq<FetchResult>, round: seq<FetchResult>,
                                  tiers: map<int, AsnTier>, ip: Addr, asn: int, v: Verdict, v': Verdict)
    requires forall i :: 0 <= i < |history| ==> FromJob(history[i])
    requires !EverLoaded(round)
    requires IsVerdict(Absorb(map[], history), tiers, ip, asn, v)
    requires IsVerdict(Absorb(map[], history + round), tiers, ip, asn, v')
    ensures v == v'
  {
    AbsorbConcat(map[], history, round);
    FailuresChangeNothing(Absorb(map[], history), round);
    OneRangeFeed(history);
    VerdictIsUnique(Absorb(map[], history), tiers, ip, asn, v, v');
  }

  /** Only one feed publishes ranges, so the ranges of different feeds never meet. */
  lemma OneRangeFeed(history: seq<FetchResult>)
    requires forall i :: 0 <= i < |history| ==> FromJob(history[i])
    ensures RangesAgree(Absorb(map[], history))
  {
    var sources := Absorb(map[], history);
    forall n | n in sources && n != RANGE_FEED ensures sources[n].cidrs == [] {
      FeedsHoldLatestGood(history, n);
      var i :| 0 <= i < |history| && GoodFor(history[i], n) && Carries(sources[n], history[i]);
      assert FromJob(history[i]);
    }
  }

  /** What a round leaves at one name: the good result with that name, else what was there. */
  lemma {:induction false} AbsorbAt(sources: Sources, rs: seq<FetchResult>, i: nat)
    requires DistinctNames(rs) && i < |rs| && rs[i].Good()
    ensures Get(Absorb(sources, rs), rs[i].name) == Some(rs[i].Payload())
  {
    if i < |rs| - 1 {
      AbsorbAt(sources, rs[..|rs| - 1], i);
    }
  }

  lemma {:induction false} AbsorbElsewhere(sources: Sources, rs: seq<FetchResult>, name: string)
    requires forall i :: 0 <= i < |rs| ==> !GoodFor(rs[i], name)
    ensures Get(Absorb(sources, rs), name) == Get(sources, name)
  {
    if rs != [] {
      var k := |rs| - 1;
      forall i | 0 <= i < k ensures !GoodFor(rs[..k][i], name) {
        assert !GoodFor(rs[i], name);
      }
      AbsorbElsewhere(sources, rs[..k], name);
      assert !GoodFor(rs[k], name);
    }
  }

  /** The order in which the feeds report does not matter. */
  lemma ArrivalOrderIsIrrelevant(sources: Sources, a: seq<FetchResult>, b: seq<FetchResult>)
    requires DistinctNames(a) && DistinctNames(b) && forall r :: r in a <==> r in b
    ensures Absorb(sources, a) == Absorb(sources, b)
  {
    forall n ensures Get(Absorb(sources, a), n) == Get(Absorb(sources, b), n) {
      if i :| 0 <= i < |a| && GoodFor(a[i], n) {
        AbsorbAt(sources, a, i);
        assert a[i] in b;
        var j :| 0 <= j < |b| && b[j] == a[i];
        AbsorbAt(sources, b, j);
      } else {
        forall j | 0 <= j < |b| ensures !GoodFor(b[j], n) {
          assert b[j] in a;
        }
        AbsorbElsewhere(sources, a, n);
        AbsorbElsewhere(sources, b, n);
      }
    }
    SameMap(Absorb(sources, a), Absorb(sources, b));
  }

  lemma AllFromJobs(history: seq<FetchResult>, round: seq<FetchResult>)
    requires forall i :: 0 <= i < |history| ==> FromJob(history[i])
    requires IsRound(round)
    ensures forall i :: 0 <= i < |history + round| ==> FromJob((history + round)[i])
  {
  }

  lemma LoadedSnoc(rs: seq<FetchResult>, i: nat)
    requires i < |rs|
    ensures EverLoaded(rs[..i + 1]) <==> EverLoaded(rs[..i]) || rs[i].Good()
  {
    if EverLoaded(rs[..i]) {
      var k :| 0 <= k < i && rs[..i][k].Good();
      assert rs[..i + 1][k].Good();
    }
    if rs[i].Good() {
      assert rs[..i + 1][i].Good();
    }
    if EverLoaded(rs[..i + 1]) {
      var k :| 0 <= k <= i && rs[..i + 1][k].Good();
      assert k < i ==> rs[..i][k].Good();
    }
  }

  /** Takes in the results of one round as they arrive, and collects the failures. */
  method TakeIn(prev: Sources, results: seq<FetchResult>) returns (sources: Sources, errs: Option<seq<string>>)
    requires |results| == TOTAL
    ensures sources == Absorb(prev, results)
    ensures errs.None? <==> EverLoaded(results)
    ensures errs.Some? ==> |errs.value| == TOTAL && forall i :: 0 <= i < TOTAL ==> errs.value[i] == results[i].name
  {
    sources := prev;
    var failures: seq<string> := [];
    var loaded := 0;
    for i := 0 to |results|
      invariant sources == Absorb(prev, results[..i])
      invariant 0 <= loaded && (loaded == 0 <==> !EverLoaded(results[..i]))
      invariant loaded == 0 ==> |failures| == i && forall k :: 0 <= k < i ==> failures[k] == results[k].name
    {
      var r := results[i];
      assert results[..i + 1][..i] == results[..i];
      LoadedSnoc(results, i);
      if r.failed {
        failures := failures + [r.name];
      } else if r.data.Empty() {
        failures := failures + [r.name];
      } else {
        sources := sources[r.name := r.Payload()];
        loaded := loaded + 1;
      }
    }
    assert results[..|results|] == results;
    errs := if loaded == 0 then Some(failures) else None;
  }

  // ---------- the database ----------

  class VpnDb {
    const tiers: map<int, AsnTier>
    var snap: Snapshot
    ghost var history: seq<FetchResult>

    /** The snapshot says what the run so far left: every feed's latest good data. */
    ghost predicate Valid()
      reads this, snap, snap.cidrs
    {
      && snap.Valid()
      && snap.sources == Absorb(map[], history)
      && forall i :: 0 <= i < |history| ==> FromJob(history[i])
    }

    constructor New(tiers: map<int, AsnTier>)
      ensures Valid() && history == [] && this.tiers == tiers
    {
      this.tiers := tiers;
      snap := new Snapshot.Empty();
      history := [];
    }

    method Ready() returns (ready: bool)
      requires Valid()
      ensures ready <==> exists i :: && 0 <= i < |history| && !history[i].failed
                                     && (|history[i].data.relays| > 0 || |history[i].data.addrs| > 0
                                         || |history[i].data.cidrs| > 0)
    {
      LoadedIffEverGood(history);
      assert EverLoaded(history) <==> exists i :: 0 <= i < |history| && history[i].Good();
      ready := snap.ready;
    }

    /** Takes in one round of results and rebuilds the snapshot. Reports an error only when no feed delivered. */
    method Refresh(results: seq<FetchResult>) returns (errs: Option<seq<string>>)
      requires Valid() && IsRound(results)
      modifies this
      ensures Valid() && fresh(snap) && history == old(history) + results
      ensures errs.None? <==> EverLoaded(results)
      ensures errs.Some? ==> |errs.value| == TOTAL && forall i :: 0 <= i < TOTAL ==> errs.value[i] == results[i].name
    {
      var sources: Sources;
      sources, errs := TakeIn(snap.sources, results);
      AbsorbConcat(map[], history, results);
      var next := BuildSnapshot(sources);
      snap := next;
      history := history + results;
      AllFromJobs(old(history), results);
    }

    /** The answer a scan of every feed's latest good data gives. */
    method Check(ip: Addr, asn: int) returns (v: Verdict)
      requires Valid()
      ensures IsVerdict(Absorb(map[], history), tiers, ip, asn, v)
    {
      OneRangeFeed(history);
      v := CheckSnapshot(snap, tiers, ip, asn);
    }

    /** The relay that published an address: the one its tag names. */
    method LookupRelay(ip: Addr) returns (r: Option<RelayInfo>)
      requires Valid()
      ensures exists t :: IsExact(Absorb(map[], history), CanonicalIP(ip), t)
                          && r == if t.None? then None else t.value.relay
    {
      var a := CanonicalIP(ip);
      r := Get(snap.relays, a);
      assert IsExact(snap.sources, a, TagIn(snap.ips, snap.relays, a));
    }

    /** Check, then the later signals, then the stamp (gather and classifyVerdict, main.go). */
    method Gather(ip: Addr, asn: int, later: Later) returns (v: Verdict, stamp: Stamp, ghost signals: seq<Signal>)
      requires Valid()
      ensures exists v0 :: IsVerdict(Absorb(map[], history), tiers, ip, asn, v0)
                           && IsAugmented(v0, later, TierOf(tiers, asn), v)
      ensures InOrder(signals) && v.source == Rendered(signals) && FlagsAre(v, signals)
      ensures StampTells(stamp, v.tor, signals, EverLoaded(history))
    {
      var v0 := Check(ip, asn);
      var asked: bool;
      v, asked := Augment(v0, asn, later, tiers);
      signals := SourceTellsTheVerdict(Absorb(map[], history), tiers, ip, asn, later, v0, v);
      LoadedIffEverGood(history);
      stamp := Classify(v);
    }
  }
}
