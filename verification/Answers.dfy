/**
 The answers about one address, field by field, on what the feeds delivered (vpn.go): which delivery decides
 each flag, the provider and the network, and the exact text of Source.
 */
module Answers {
  import opened Common
  import opened Names
  import opened Netip
  import opened Feeds
  import opened Snapshot
  import opened Signals
  import opened Verdicts
  import opened VpnDb

  ghost predicate InRange(sources: Sources, a: Addr) {
    exists p :: RangePublished(sources, a, p)
  }

  /** One provider, and it is a provider rather than the mark for several, has all the tags nearby. */
  ghost predicate HasNeighbour(sources: Sources, a: Addr) {
    exists q :: q != "multi" && SoleNeighbour(sources, a, q)
  }

  /** The network is known, and rented out to VPNs or not. */
  predicate OnNetwork(tiers: map<int, AsnTier>, asn: int, rental: bool) {
    asn != 0 && asn in tiers && tiers[asn].rental == rental
  }

  /** The names of the signals raised, in the order they are reported in. */
  function Reported(list: bool, near: bool, range: bool, rental: bool, hosting: bool,
                    rdns: bool, whois: bool): seq<string>
  {
    (if list then ["ip-list"] else []) + (if near then ["ip-prefix"] else []) + (if range then ["cidr"] else [])
    + (if rental then ["asn"] else []) + (if hosting then ["asn-hosting"] else [])
    + (if rdns then ["rdns"] else []) + (if whois then ["whois"] else [])
  }

  /** The names in a row, with a plus between two of them. */
  function Listed(names: seq<string>): string {
    if names == [] then ""
    else if |names| == 1 then names[0]
    else names[0] + "+" + Listed(names[1..])
  }

  lemma {:induction false} ListedSnoc(names: seq<string>, name: string)
    requires names != []
    ensures Listed(names + [name]) == Listed(names) + "+" + name
  {
    assert (names + [name])[1..] == names[1..] + [name];
    if |names| > 1 {
      ListedSnoc(names[1..], name);
      assert Listed(names + [name]) == names[0] + "+" + Listed(names[1..] + [name]);
      assert names[0] + "+" + (Listed(names[1..]) + "+" + name) == names[0] + "+" + Listed(names[1..]) + "+" + name;
    } else {
      assert Listed(names[1..] + [name]) == name;
    }
  }

  lemma {:induction false} JoinIsListed(names: seq<string>)
    requires names != []
    ensures Join(names) == Listed(names)
  {
    var k := |names| - 1;
    if k > 0 {
      JoinIsListed(names[..k]);
      ListedSnoc(names[..k], names[k]);
      assert names == names[..k] + [names[k]];
    }
  }

  lemma RenderedIsListed(ss: seq<Signal>)
    ensures Rendered(ss) == Listed(NamesOf(ss))
  {
    if ss != [] {
      JoinIsListed(NamesOf(ss));
    }
  }

  lemma FindingOf(sources: Sources, tiers: map<int, AsnTier>, ip: Addr, asn: int, v: Verdict, t: Option<Tag>)
    returns (f: Finding)
    requires IsVerdict(sources, tiers, ip, asn, v) && ip.IsValid() && IsExact(sources, CanonicalIP(ip), t)
    ensures v == Report(f, TierOf(tiers, asn), SomeFeedLoaded(sources))
    ensures f.Exact? <==> t.Some?
    ensures f.Exact? ==> f.tag == t.value
    ensures f.Indirect? ==> IsNear(sources, CanonicalIP(ip), f.near) && IsRange(sources, CanonicalIP(ip), f.range)
  {
    f :| IsFinding(sources, CanonicalIP(ip), f) && v == Report(f, TierOf(tiers, asn), SomeFeedLoaded(sources));
    ExactIsUnique(sources, CanonicalIP(ip), t, if f.Exact? then Some(f.tag) else None);
  }

  /** A tagged address: the tag decides the provider and the relay, and a Tor exit names neither. */
  lemma TaggedVerdict(sources: Sources, tiers: map<int, AsnTier>, ip: Addr, asn: int, v: Verdict, t: Option<Tag>)
    requires IsVerdict(sources, tiers, ip, asn, v) && ip.IsValid() && IsExact(sources, CanonicalIP(ip), t)
    ensures v.tor <==> t.Some? && t.value.provider == "tor"
    ensures v.tor ==> v.provider == "" && v.relay == None
    ensures t.Some? && !v.tor ==> v.provider == t.value.provider && v.relay == t.value.relay
    ensures t.Some? ==> v.vpn && !v.privacyProxy
    ensures t.None? ==> v.relay == None
  {
    var f := FindingOf(sources, tiers, ip, asn, v, t);
  }

  /** Any other: a range that holds it names the provider, else the sole provider nearby does, else nothing. */
  lemma UntaggedVerdict(sources: Sources, tiers: map<int, AsnTier>, ip: Addr, asn: int, v: Verdict)
    requires IsVerdict(sources, tiers, ip, asn, v) && ip.IsValid() && IsExact(sources, CanonicalIP(ip), None)
    requires RangesAgree(sources)
    ensures v.privacyProxy <==> InRange(sources, CanonicalIP(ip))
    ensures forall p :: RangePublished(sources, CanonicalIP(ip), p) ==> v.provider == p
    ensures !v.privacyProxy ==>
              forall q :: q != "multi" && SoleNeighbour(sources, CanonicalIP(ip), q) ==> v.provider == q
    ensures !v.privacyProxy && !HasNeighbour(sources, CanonicalIP(ip)) ==> v.provider == ""
  {
    var a := CanonicalIP(ip);
    var f := FindingOf(sources, tiers, ip, asn, v, None);
    forall p | RangePublished(sources, a, p) ensures v.provider == p && v.privacyProxy {
      RangeIsUnique(sources, a, f.range, Some(p));
    }
  }

  /** The network and the flags, for tagged and untagged addresses alike. */
  lemma VerdictFlags(sources: Sources, tiers: map<int, AsnTier>, ip: Addr, asn: int, v: Verdict, t: Option<Tag>)
    requires IsVerdict(sources, tiers, ip, asn, v) && ip.IsValid() && IsExact(sources, CanonicalIP(ip), t)
    ensures v.network == if asn != 0 && asn in tiers then tiers[asn].operator else ""
    ensures v.hosting <==> OnNetwork(tiers, asn, false)
    ensures v.vpn <==> || t.Some? || InRange(sources, CanonicalIP(ip)) || HasNeighbour(sources, CanonicalIP(ip))
                       || OnNetwork(tiers, asn, true)
    ensures v.ready <==> SomeFeedLoaded(sources)
  {
    var f := FindingOf(sources, tiers, ip, asn, v, t);
  }

  lemma ListNames(f: Finding)
    ensures NamesOf(ListSignals(f)) ==
            Reported(f.Exact?, f.Indirect? && f.near.Some?, f.Indirect? && f.range.Some?, false, false, false, false)
  {
  }

  lemma NamesConcat(a: seq<Signal>, b: seq<Signal>)
    ensures NamesOf(a + b) == NamesOf(a) + NamesOf(b)
  {
  }

  lemma SignalNames(f: Finding, tier: Option<AsnTier>)
    ensures NamesOf(SignalsOf(f, tier)) ==
            Reported(f.Exact?, f.Indirect? && f.near.Some?, f.Indirect? && f.range.Some?,
                     tier.Some? && tier.value.rental, tier.Some? && !tier.value.rental, false, false)
  {
    ListNames(f);
    if tier.Some? {
      var x := if tier.value.rental then Asn else AsnHosting;
      NamesConcat(ListSignals(f), [x]);
      assert NamesOf([x]) == [x.Name()];
    }
  }

  /** Source, to the letter: the signals raised before Augment. */
  lemma VerdictSource(sources: Sources, tiers: map<int, AsnTier>, ip: Addr, asn: int, v: Verdict, t: Option<Tag>)
    returns (ss: seq<Signal>)
    requires IsVerdict(sources, tiers, ip, asn, v) && ip.IsValid() && IsExact(sources, CanonicalIP(ip), t)
    ensures Early(ss) && v.source == Rendered(ss)
    ensures NamesOf(ss) == Reported(t.Some?, t.None? && HasNeighbour(sources, CanonicalIP(ip)),
                                    t.None? && InRange(sources, CanonicalIP(ip)),
                                    OnNetwork(tiers, asn, true), OnNetwork(tiers, asn, false), false, false)
  {
    var f := FindingOf(sources, tiers, ip, asn, v, t);
    ss := SignalsOf(f, TierOf(tiers, asn));
    SignalsAreEarly(f, TierOf(tiers, asn));
    SignalNames(f, TierOf(tiers, asn));
    FindingMeans(sources, CanonicalIP(ip), f);
  }

  lemma FindingMeans(sources: Sources, a: Addr, f: Finding)
    requires f.Indirect? ==> IsNear(sources, a, f.near) && IsRange(sources, a, f.range)
    ensures f.Indirect? ==> (f.near.Some? <==> HasNeighbour(sources, a))
    ensures f.Indirect? ==> (f.range.Some? <==> InRange(sources, a))
  {
  }

  // ---------- after Augment ----------

  /** A host name counts unless the address is a Tor exit or a relay proxy. */
  predicate RdnsCounts(v0: Verdict, later: Later) {
    !v0.tor && !v0.privacyProxy && later.rdns.Some?
  }

  /** WHOIS counts when it names someone, on a rented network, where nobody has been named yet. */
  predicate WhoisCounts(tiers: map<int, AsnTier>, asn: int, v0: Verdict, later: Later) {
    && !v0.tor && !v0.privacyProxy
    && later.whois.Some? && later.whois.value != "" && OnNetwork(tiers, asn, true)
    && v0.provider == "" && (later.rdns == None || later.rdns == Some(""))
  }

  lemma LaterNames(tiers: map<int, AsnTier>, asn: int, v0: Verdict, later: Later)
    ensures NamesOf(LaterSignals(v0, later, TierOf(tiers, asn))) ==
            Reported(false, false, false, false, false, RdnsCounts(v0, later), WhoisCounts(tiers, asn, v0, later))
    ensures LaterSignals(v0, later, TierOf(tiers, asn)) != [] <==>
            RdnsCounts(v0, later) || WhoisCounts(tiers, asn, v0, later)
    ensures Signal.Whois in LaterSignals(v0, later, TierOf(tiers, asn)) <==> WhoisCounts(tiers, asn, v0, later)
  {
  }

  /** What Augment adds to the flag and the provider. */
  lemma AugmentedFields(tiers: map<int, AsnTier>, asn: int, later: Later, v0: Verdict, v: Verdict)
    requires IsAugmented(v0, later, TierOf(tiers, asn), v)
    ensures v.vpn <==> v0.vpn || RdnsCounts(v0, later) || WhoisCounts(tiers, asn, v0, later)
    ensures v.provider == if WhoisCounts(tiers, asn, v0, later) then later.whois.value
                          else if RdnsCounts(v0, later) && v0.provider == "" then later.rdns.value
                          else v0.provider
  {
    LaterNames(tiers, asn, v0, later);
  }

  lemma ReportedConcat(list: bool, near: bool, range: bool, rental: bool, hosting: bool, rdns: bool, whois: bool)
    ensures Reported(list, near, range, rental, hosting, false, false)
            + Reported(false, false, false, false, false, rdns, whois)
            == Reported(list, near, range, rental, hosting, rdns, whois)
  {
  }

  /** The Source of the final verdict, to the letter: which names it lists, and in which order. */
  lemma AugmentedSource(sources: Sources, tiers: map<int, AsnTier>, ip: Addr, asn: int, later: Later,
                        v0: Verdict, v: Verdict, t: Option<Tag>)
    requires IsVerdict(sources, tiers, ip, asn, v0) && ip.IsValid() && IsExact(sources, CanonicalIP(ip), t)
    requires IsAugmented(v0, later, TierOf(tiers, asn), v)
    ensures v.source == Listed(Reported(t.Some?, t.None? && HasNeighbour(sources, CanonicalIP(ip)),
                                       t.None? && InRange(sources, CanonicalIP(ip)),
                                       OnNetwork(tiers, asn, true), OnNetwork(tiers, asn, false),
                                       RdnsCounts(v0, later), WhoisCounts(tiers, asn, v0, later)))
  {
    var a := CanonicalIP(ip);
    var ss := VerdictSource(sources, tiers, ip, asn, v0, t);
    var added := LaterSignals(v0, later, TierOf(tiers, asn));
    NamesConcat(ss, added);
    LaterNames(tiers, asn, v0, later);
    ReportedConcat(t.Some?, t.None? && HasNeighbour(sources, a), t.None? && InRange(sources, a),
                   OnNetwork(tiers, asn, true), OnNetwork(tiers, asn, false),
                   RdnsCounts(v0, later), WhoisCounts(tiers, asn, v0, later));
    RenderedIsListed(ss + added);
  }

  // ---------- from a delivery to the answer ----------

  /** Result i delivered something, and no later result of its feed did. */
  predicate DeliversLast(history: seq<FetchResult>, i: nat)
    requires i < |history|
  {
    && !history[i].failed
    && (|history[i].data.relays| > 0 || |history[i].data.addrs| > 0 || |history[i].data.cidrs| > 0)
    && forall j :: i < j < |history| && history[j].name == history[i].name ==>
         || history[j].failed
         || (|history[j].data.relays| == 0 && |history[j].data.addrs| == 0 && |history[j].data.cidrs| == 0)
  }

  /** A delivered range makes every address in it a relay proxy's, unless a list or a relay has the address. */
  lemma DeliveredRangeIsAnswered(history: seq<FetchResult>, i: nat, c: Prefix,
                                 tiers: map<int, AsnTier>, ip: Addr, asn: int, v: Verdict)
    requires forall k :: 0 <= k < |history| ==> FromJob(history[k])
    requires i < |history| && DeliversLast(history, i) && c in history[i].data.cidrs
    requires ip.IsValid() && c.Contains(CanonicalIP(ip)) && IsExact(Absorb(map[], history), CanonicalIP(ip), None)
    requires IsVerdict(Absorb(map[], history), tiers, ip, asn, v)
    ensures v.ready && v.vpn && v.privacyProxy && !v.tor && v.provider == "icloud-private-relay"
    ensures Classify(v) == PrivateRelay
  {
    var sources, a := Absorb(map[], history), CanonicalIP(ip);
    DeliveriesAreKept(history, i);
    OneRangeFeed(history);
    assert FromJob(history[i]);
    CanonicalIPIsTheHostsOneForm(a, a);
    CanonicalHost(ip);
    assert CanonicalIP(a) == a;
    assert RangePublished(sources, a, history[i].name);
    TaggedVerdict(sources, tiers, ip, asn, v, None);
    UntaggedVerdict(sources, tiers, ip, asn, v);
    VerdictFlags(sources, tiers, ip, asn, v, None);
  }

  /** An address that the Tor feed lists, in whatever form, is a Tor exit: no provider, no relay. */
  lemma ListedExitIsAnswered(history: seq<FetchResult>, i: nat, k: nat,
                             tiers: map<int, AsnTier>, ip: Addr, asn: int, v: Verdict)
    requires forall k :: 0 <= k < |history| ==> FromJob(history[k])
    requires i < |history| && DeliversLast(history, i) && history[i].name == "tor"
    requires k < |history[i].data.addrs| && Host(history[i].data.addrs[k]) == Host(ip) && ip.IsValid()
    requires IsVerdict(Absorb(map[], history), tiers, ip, asn, v)
    ensures v.ready && v.vpn && v.tor && !v.privacyProxy && v.provider == "" && v.relay == None
    ensures Classify(v) == Tor
  {
    var sources, a := Absorb(map[], history), CanonicalIP(ip);
    DeliveriesAreKept(history, i);
    CanonicalIPIsTheHostsOneForm(history[i].data.addrs[k], ip);
    assert Feeds.Lists(sources["tor"], a);
    forall n | n in sources && Feeds.Lists(sources[n], a) ensures n == "tor" {
      FeedsHoldLatestGood(history, n);
      var j :| 0 <= j < |history| && GoodFor(history[j], n) && Carries(sources[n], history[j]);
      assert FromJob(history[j]);
    }
    assert Listers(sources, a) == {"tor"};
    LeqIsTotal("tor", "tor");
    assert Greatest(Listers(sources, a), "tor");
    TaggedVerdict(sources, tiers, ip, asn, v, Some(Tag("tor", None)));
    VerdictFlags(sources, tiers, ip, asn, v, Some(Tag("tor", None)));
  }
}
