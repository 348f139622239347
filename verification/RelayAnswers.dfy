/**
 From the texts a feed publishes for its relays to the answers about an address (relay.go, vpn.go): which
 relay an address is said to belong to, over whole runs.
 */
module RelayAnswers {
  import opened Common
  import opened Netip
  import opened Names
  import opened Feeds
  import opened Snapshot
  import opened Verdicts
  import opened VpnDb
  import opened Relay

  /** The texts each relay's addresses were read from. */
  type TextsOf = RelayInfo -> seq<Option<Addr>>

  predicate RecordedFrom(relays: seq<RelayInfo>, textsOf: TextsOf) {
    forall j :: 0 <= j < |relays| ==> relays[j].addrs == Recorded(textsOf(relays[j])) && Parsed(textsOf(relays[j]))
  }

  predicate Parsed(texts: seq<Option<Addr>>) {
    forall i :: 0 <= i < |texts| && texts[i].Some? ==> texts[i].value.IsValid()
  }

  /** Some text names the same host as the address, in whatever form. */
  predicate SomeNames(texts: seq<Option<Addr>>, ip: Addr) {
    exists i :: 0 <= i < |texts| && texts[i].Some? && Host(texts[i].value) == Host(ip)
  }

  predicate ListHas(src: SourceData, ip: Addr) {
    exists i :: 0 <= i < |src.addrs| && Host(src.addrs[i]) == Host(ip)
  }

  predicate FeedNames(src: SourceData, textsOf: TextsOf, ip: Addr) {
    exists j :: 0 <= j < |src.relays| && SomeNames(textsOf(src.relays[j]), ip)
  }

  /** r is the last relay of feed n that names the host, n the last such feed, and no address list has the host. */
  ghost predicate PublishedBy(sources: Sources, textsOf: TextsOf, ip: Addr, n: string, r: RelayInfo) {
    && (forall m :: m in sources ==> RecordedFrom(sources[m].relays, textsOf) && !ListHas(sources[m], ip))
    && n in sources && LastNaming(sources[n].relays, textsOf, ip, r)
    && forall m :: m in sources && FeedNames(sources[m], textsOf, ip) ==> Leq(m, n)
  }

  predicate LastNaming(relays: seq<RelayInfo>, textsOf: TextsOf, ip: Addr, r: RelayInfo) {
    exists j :: 0 <= j < |relays| && relays[j] == r && SomeNames(textsOf(r), ip)
                && forall k :: j < k < |relays| ==> !SomeNames(textsOf(relays[k]), ip)
  }

  lemma RelayHasIffNames(relays: seq<RelayInfo>, textsOf: TextsOf, ip: Addr, j: nat)
    requires RecordedFrom(relays, textsOf) && j < |relays|
    ensures CanonicalIP(ip) in relays[j].addrs <==> SomeNames(textsOf(relays[j]), ip)
  {
    RecordedNamesTheHosts(textsOf(relays[j]), ip);
  }

  lemma LastNamingIsLastRelay(relays: seq<RelayInfo>, textsOf: TextsOf, ip: Addr, r: RelayInfo)
    requires RecordedFrom(relays, textsOf) && LastNaming(relays, textsOf, ip, r)
    ensures LastRelay(relays, CanonicalIP(ip)) == Some(r)
  {
    forall j | 0 <= j < |relays| ensures CanonicalIP(ip) in relays[j].addrs <==> SomeNames(textsOf(relays[j]), ip) {
      RelayHasIffNames(relays, textsOf, ip, j);
    }
    LastRelayIsTheLast(relays, CanonicalIP(ip), r);
  }

  lemma RelayerNames(src: SourceData, textsOf: TextsOf, ip: Addr)
    requires RecordedFrom(src.relays, textsOf) && LastRelay(src.relays, CanonicalIP(ip)).Some?
    ensures FeedNames(src, textsOf, ip)
  {
    var r := LastRelay(src.relays, CanonicalIP(ip)).value;
    LastRelayIsTheLast(src.relays, CanonicalIP(ip), r);
    var j :| 0 <= j < |src.relays| && src.relays[j] == r && CanonicalIP(ip) in r.addrs;
    RelayHasIffNames(src.relays, textsOf, ip, j);
  }

  lemma ListerHas(src: SourceData, ip: Addr)
    requires Lists(src, CanonicalIP(ip))
    ensures ListHas(src, ip)
  {
    var i :| 0 <= i < |src.addrs| && CanonicalIP(src.addrs[i]) == CanonicalIP(ip);
    CanonicalIPIsTheHostsOneForm(src.addrs[i], ip);
  }

  /** The feeds say of the address, in any form, that it is this relay's. */
  lemma PublishedIsExact(sources: Sources, textsOf: TextsOf, ip: Addr, n: string, r: RelayInfo)
    requires PublishedBy(sources, textsOf, ip, n, r)
    ensures IsExact(sources, CanonicalIP(ip), Some(RelayTag(r)))
  {
    var a := CanonicalIP(ip);
    forall m | m in sources ensures !Lists(sources[m], a) {
      if Lists(sources[m], a) {
        ListerHas(sources[m], ip);
      }
    }
    assert Listers(sources, a) == {};
    LastNamingIsLastRelay(sources[n].relays, textsOf, ip, r);
    forall m | m in Relayers(sources, a) ensures Leq(m, n) {
      RelayerNames(sources[m], textsOf, ip);
    }
    assert Greatest(Relayers(sources, a), n);
  }

  /** So the verdict names the relay and its provider, and a lookup of the relay finds it. */
  lemma PublishedRelayIsAnswered(sources: Sources, tiers: map<int, AsnTier>, textsOf: TextsOf, ip: Addr, asn: int,
                                 n: string, r: RelayInfo, v: Verdict, t: Option<Tag>)
    requires PublishedBy(sources, textsOf, ip, n, r)
    requires IsVerdict(sources, tiers, ip, asn, v) && IsExact(sources, CanonicalIP(ip), t)
    ensures t == Some(Tag(r.provider, Some(r)))
    ensures v.vpn && (if r.provider == "tor" then v.tor else v.provider == r.provider && v.relay == Some(r))
  {
    var a := CanonicalIP(ip);
    PublishedIsExact(sources, textsOf, ip, n, r);
    ExactIsUnique(sources, a, t, Some(RelayTag(r)));
    NamedIsValid(sources[n].relays, textsOf, ip, r);
    var f :| IsFinding(sources, a, f) && v == Report(f, TierOf(tiers, asn), SomeFeedLoaded(sources));
    ExactIsUnique(sources, a, if f.Exact? then Some(f.tag) else None, Some(RelayTag(r)));
  }

  lemma NamedIsValid(relays: seq<RelayInfo>, textsOf: TextsOf, ip: Addr, r: RelayInfo)
    requires RecordedFrom(relays, textsOf) && LastNaming(relays, textsOf, ip, r)
    ensures ip.IsValid()
  {
  }

  /** What the relay feeds record, the database holds, after any run. */
  lemma RunsKeepRecords(history: seq<FetchResult>, textsOf: TextsOf)
    requires forall i :: 0 <= i < |history| ==> RecordedFrom(history[i].data.relays, textsOf)
    ensures forall m :: m in Absorb(map[], history) ==> RecordedFrom(Absorb(map[], history)[m].relays, textsOf)
  {
    var sources := Absorb(map[], history);
    forall m | m in sources ensures RecordedFrom(sources[m].relays, textsOf) {
      FeedsHoldLatestGood(history, m);
      var i :| 0 <= i < |history| && GoodFor(history[i], m) && Carries(sources[m], history[i]);
      assert RecordedFrom(history[i].data.relays, textsOf);
    }
  }
}
