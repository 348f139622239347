/**
 The verdict on an address (Check, Augment, classifyVerdict): what the raw feeds alone say it must be, and
 how later signals change it.
 */
module Verdicts {
  import opened Common
  import opened Netip
  import opened Feeds
  import opened CidrIndex
  import opened RangeMerge
  import opened Snapshot
  import opened Signals

  datatype Verdict = Verdict(
    vpn: bool, hosting: bool, tor: bool, privacyProxy: bool,
    provider: string, network: string, relay: Option<RelayInfo>, source: string, ready: bool)

  datatype AsnTier = AsnTier(operator: string, rental: bool)

  function Blank(ready: bool): Verdict {
    Verdict(false, false, false, false, "", "", None, "", ready)
  }

  // ---------- the naive specification ----------

  /** What the feeds say of an address, beyond its own tag only when it has none. */
  datatype Finding = Exact(tag: Tag) | Indirect(near: Option<string>, range: Option<string>)

  /** Some address in the /24 or /64 of a is tagged q, and not as a Tor exit. */
  ghost predicate Neighbour(sources: Sources, a: Addr, q: string) {
    && q != "tor"
    && exists b, t :: IsExact(sources, b, Some(t)) && t.provider == q && NetPrefixForIP(b) == NetPrefixForIP(a)
  }

  ghost predicate SoleNeighbour(sources: Sources, a: Addr, q: string) {
    Neighbour(sources, a, q) && forall p :: Neighbour(sources, a, p) ==> p == q
  }

  ghost predicate IsNear(sources: Sources, a: Addr, near: Option<string>) {
    match near
    case None => forall q :: q != "multi" ==> !SoleNeighbour(sources, a, q)
    case Some(q) => q != "multi" && SoleNeighbour(sources, a, q)
  }

  ghost predicate IsRange(sources: Sources, a: Addr, range: Option<string>) {
    match range
    case None => forall p :: !RangePublished(sources, a, p)
    case Some(p) => RangePublished(sources, a, p)
  }

  /** A finding in which the published ranges are said to answer `range`. */
  ghost predicate IsFindingGiven(sources: Sources, a: Addr, range: Option<string>, f: Finding) {
    match f
    case Exact(t) => IsExact(sources, a, Some(t))
    case Indirect(near, found) => IsExact(sources, a, None) && IsNear(sources, a, near) && found == range
  }

  ghost predicate IsFinding(sources: Sources, a: Addr, f: Finding) {
    exists range :: IsRange(sources, a, range) && IsFindingGiven(sources, a, range, f)
  }

  /** The signals a finding and the network's tier raise. */
  function SignalsOf(f: Finding, tier: Option<AsnTier>): seq<Signal> {
    if tier.None? then ListSignals(f)
    else ListSignals(f) + [if tier.value.rental then Asn else AsnHosting]
  }

  function ListSignals(f: Finding): seq<Signal> {
    match f
    case Exact(_) => [IpList]
    case Indirect(near, range) =>
      if near.None? then (if range.None? then [] else [Signal.Cidr])
      else if range.None? then [IpPrefix] else [IpPrefix, Signal.Cidr]
  }

  function OrElse(x: Option<string>, y: string): string {
    if x.Some? then x.value else y
  }

  /** The verdict a finding and a tier amount to. */
  function Report(f: Finding, tier: Option<AsnTier>, ready: bool): Verdict {
    var isTor := f.Exact? && f.tag.provider == "tor";
    Verdict(
      vpn := f.Exact? || f.near.Some? || f.range.Some? || (tier.Some? && tier.value.rental),
      hosting := tier.Some? && !tier.value.rental,
      tor := isTor,
      privacyProxy := f.Indirect? && f.range.Some?,
      provider := if f.Indirect? then OrElse(f.range, OrElse(f.near, "")) else if isTor then "" else f.tag.provider,
      network := if tier.Some? then tier.value.operator else "",
      relay := if f.Indirect? || isTor then None else f.tag.relay,
      source := Rendered(SignalsOf(f, tier)),
      ready := ready)
  }

  /** The verdict a scan of the raw feeds gives. */
  ghost predicate IsVerdict(sources: Sources, tiers: map<int, AsnTier>, ip: Addr, asn: int, v: Verdict) {
    var ready := SomeFeedLoaded(sources);
    if !ip.IsValid() then v == Verdict(false, false, false, false, "", "", None, "", ready)
    else exists f :: IsFinding(sources, CanonicalIP(ip), f) && v == Report(f, TierOf(tiers, asn), ready)
  }

  /** The same, but for the published ranges, which are said to answer `range`. */
  ghost predicate IsVerdictGiven(sources: Sources, tiers: map<int, AsnTier>, ip: Addr, asn: int,
                                 range: Option<string>, v: Verdict)
  {
    var ready := SomeFeedLoaded(sources);
    if !ip.IsValid() then v == Verdict(false, false, false, false, "", "", None, "", ready)
    else exists f :: IsFindingGiven(sources, CanonicalIP(ip), range, f) && v == Report(f, TierOf(tiers, asn), ready)
  }

  function TierOf(tiers: map<int, AsnTier>, asn: int): Option<AsnTier> {
    if asn == 0 then None else Get(tiers, asn)
  }

  // ---------- the specification has one answer ----------

  lemma FindingIsUnique(sources: Sources, a: Addr, f: Finding, f': Finding)
    requires RangesAgree(sources) && IsFinding(sources, a, f) && IsFinding(sources, a, f')
    ensures f == f'
  {
    var t := if f.Exact? then Some(f.tag) else None;
    var t' := if f'.Exact? then Some(f'.tag) else None;
    ExactIsUnique(sources, a, t, t');
    if f.Indirect? {
      NearIsUnique(sources, a, f.near, f'.near);
      RangeIsUnique(sources, a, f.range, f'.range);
    }
  }

  lemma NearIsUnique(sources: Sources, a: Addr, near: Option<string>, near': Option<string>)
    requires IsNear(sources, a, near) && IsNear(sources, a, near')
    ensures near == near'
  {
  }

  lemma RangeIsUnique(sources: Sources, a: Addr, range: Option<string>, range': Option<string>)
    requires RangesAgree(sources) && IsRange(sources, a, range) && IsRange(sources, a, range')
    ensures range == range'
  {
    if range.Some? && range'.Some? {
      var c :| c in sources[range.value].cidrs && c.Contains(CanonicalIP(a));
      var d :| d in sources[range'.value].cidrs && d.Contains(CanonicalIP(a));
      ContainsIffBetween(c, CanonicalIP(a));
      ContainsIffBetween(d, CanonicalIP(a));
      assert Share(c, d);
    }
  }

  lemma VerdictIsUnique(sources: Sources, tiers: map<int, AsnTier>, ip: Addr, asn: int, v: Verdict, v': Verdict)
    requires RangesAgree(sources)
    requires IsVerdict(sources, tiers, ip, asn, v) && IsVerdict(sources, tiers, ip, asn, v')
    ensures v == v'
  {
    if ip.IsValid() {
      var ready := SomeFeedLoaded(sources);
      var a, tier := CanonicalIP(ip), TierOf(tiers, asn);
      var f :| IsFinding(sources, a, f) && v == Report(f, tier, ready);
      var f' :| IsFinding(sources, a, f') && v' == Report(f', tier, ready);
      FindingIsUnique(sources, a, f, f');
    }
  }

  // ---------- the tables give the findings ----------

  /** The mark of an address's own prefix is its sole neighbour, unless it says "multi". */
  lemma MarkIsSoleNeighbour(sources: Sources, ips: map<Addr, string>, relays: map<Addr, RelayInfo>,
                            ipNets: map<Prefix, string>, a: Addr, pfx: Prefix)
    requires TablesAreExact(sources, ips, relays) && MarksAreExact(ips, ipNets)
    requires NetPrefixForIP(a) == Some(pfx)
    ensures IsNear(sources, a, if Get(ipNets, pfx) == Some("multi") then None else Get(ipNets, pfx))
  {
    forall q ensures Neighbour(sources, a, q) <==> Seen(ips, ips.Keys, pfx, q) {
      NeighbourIsSeen(sources, ips, relays, a, pfx, q);
    }
    assert Marks(ips, ips.Keys, pfx, Get(ipNets, pfx));
  }

  lemma NeighbourIsSeen(sources: Sources, ips: map<Addr, string>, relays: map<Addr, RelayInfo>,
                        a: Addr, pfx: Prefix, q: string)
    requires TablesAreExact(sources, ips, relays) && NetPrefixForIP(a) == Some(pfx)
    ensures Neighbour(sources, a, q) <==> Seen(ips, ips.Keys, pfx, q)
  {
    if Neighbour(sources, a, q) {
      var b, t :| IsExact(sources, b, Some(t)) && t.provider == q && NetPrefixForIP(b) == NetPrefixForIP(a);
      ExactIsUnique(sources, b, Some(t), TagIn(ips, relays, b));
      assert b in ips.Keys && Counts(ips, b, pfx);
    }
    if Seen(ips, ips.Keys, pfx, q) {
      var b :| b in ips.Keys && Counts(ips, b, pfx) && ips[b] == q;
      assert IsExact(sources, b, TagIn(ips, relays, b));
      assert TagIn(ips, relays, b) == Some(Tag(q, Get(relays, b)));
    }
  }

  // ---------- Check ----------

  lemma PlainSources()
    ensures Rendered([IpList]) == "ip-list" && Rendered([IpPrefix]) == "ip-prefix" && Rendered([]) == ""
  {
    assert NamesOf([IpList])[0] == "ip-list" && NamesOf([IpPrefix])[0] == "ip-prefix";
  }

  /** The first part of Check: the address tables, or else the neighbourhood. */
  method CheckTables(snap: Snapshot, a: Addr) returns (v: Verdict, exact: bool, ghost f: Finding)
    requires TablesAreExact(snap.sources, snap.ips, snap.relays) && MarksAreExact(snap.ips, snap.ipNets)
    requires a.IsValid()
    ensures v == Report(f, None, snap.ready)
    ensures exact ==> f.Exact? && IsExact(snap.sources, a, Some(f.tag))
    ensures !exact ==> f.Indirect? && f.range.None? && IsExact(snap.sources, a, None) && IsNear(snap.sources, a, f.near)
  {
    v, exact := Blank(snap.ready), false;
    assert IsExact(snap.sources, a, TagIn(snap.ips, snap.relays, a));
    if a in snap.ips {
      exact := true;
      v := v.(vpn := true, provider := snap.ips[a], source := "ip-list");
      if a in snap.relays {
        v := v.(relay := Some(snap.relays[a]));
      }
      if snap.ips[a] == "tor" {
        v := v.(tor := true, provider := "", relay := None);
      }
      f := Exact(TagIn(snap.ips, snap.relays, a).value);
    } else {
      f := Indirect(None, None);
      NeighbourhoodEnds(a);
      var pfx := NetPrefixForIP(a);
      MarkIsSoleNeighbour(snap.sources, snap.ips, snap.relays, snap.ipNets, a, pfx.value);
      if pfx.Some? && pfx.value in snap.ipNets && snap.ipNets[pfx.value] != "multi" {
        v := v.(vpn := true, provider := snap.ipNets[pfx.value], source := "ip-prefix");
        f := Indirect(Some(snap.ipNets[pfx.value]), None);
      }
    }
    PlainSources();
  }

  lemma RangeSignal(near: Option<string>, p: string)
    ensures Rendered(ListSignals(Indirect(near, Some(p)))) ==
            AppendSource(Rendered(ListSignals(Indirect(near, None))), "cidr")
  {
    var before := ListSignals(Indirect(near, None));
    AppendSourceAdds(before, Signal.Cidr);
    assert ListSignals(Indirect(near, Some(p))) == before + [Signal.Cidr];
  }

  /** The second part of Check: the published ranges, for an address with no tag of its own. */
  method CheckRanges(snap: Snapshot, a: Addr, v0: Verdict, ghost near: Option<string>) returns (v: Verdict)
    requires snap.cidrs.Valid() && v0 == Report(Indirect(near, None), None, snap.ready)
    ensures v == Report(Indirect(near, Answer(snap.cidrs.v4, snap.cidrs.v6, a)), None, snap.ready)
  {
    v := v0;
    var found := snap.cidrs.Lookup(a);
    if found.Some? {
      RangeSignal(near, found.value);
      v := v.(vpn := true, privacyProxy := true, provider := found.value, source := AppendSource(v.source, "cidr"));
    }
  }

  /** What the index answers is what a scan of the range feeds finds, when these do not meet. */
  lemma IndexAnswersTheRange(sources: Sources, entries: seq<CidrEntry>, v4: seq<Range>, v6: seq<Range>, a: Addr)
    requires EntriesAreExact(sources, entries) && RangesAgree(sources) && Indexes(entries, v4, v6)
    ensures IsRange(sources, a, Answer(v4, v6, a))
  {
    forall p ensures Answer(v4, v6, a) == Some(p) <==> RangePublished(sources, a, p) {
      IndexAgreesWithScan(entries, v4, v6, a, p);
    }
  }

  /**
   Check, vpn.go, on one snapshot: for any feeds, given what the range index answers; and as the scan of all of
   them, when the ranges of different feeds do not meet.
   */
  method CheckSnapshot(snap: Snapshot, tiers: map<int, AsnTier>, ip: Addr, asn: int) returns (v: Verdict)
    requires snap.Valid()
    ensures IsVerdictGiven(snap.sources, tiers, ip, asn, Answer(snap.cidrs.v4, snap.cidrs.v6, CanonicalIP(ip)), v)
    ensures RangesAgree(snap.sources) ==> IsVerdict(snap.sources, tiers, ip, asn, v)
  {
    if !ip.IsValid() {
      return Blank(snap.ready);
    }
    var a := CanonicalIP(ip);
    ghost var range := Answer(snap.cidrs.v4, snap.cidrs.v6, a);
    ghost var f: Finding;
    var exact: bool;
    v, exact, f := CheckTables(snap, a);
    if !exact {
      v := CheckRanges(snap, a, v, f.near);
      f := Indirect(f.near, range);
    }
    assert IsFindingGiven(snap.sources, a, range, f);
    if asn != 0 && asn in tiers {
      v := CheckTier(v, f, tiers[asn]);
    }
    assert v == Report(f, TierOf(tiers, asn), snap.ready);
    if RangesAgree(snap.sources) {
      IndexAnswersTheRange(snap.sources, snap.cidrs.entries, snap.cidrs.v4, snap.cidrs.v6, a);
    }
  }

  /** The last part of Check: what the network of the address is known for. */
  method CheckTier(v0: Verdict, ghost f: Finding, tier: AsnTier) returns (v: Verdict)
    requires v0 == Report(f, None, v0.ready)
    ensures v == Report(f, Some(tier), v0.ready)
  {
    v := v0.(network := tier.operator);
    if tier.rental {
      v := v.(vpn := true, source := AppendSource(v.source, "asn"));
    } else {
      v := v.(hosting := true, source := AppendSource(v.source, "asn-hosting"));
    }
    TierSignal(f, if tier.rental then Asn else AsnHosting);
  }

  lemma TierSignal(f: Finding, x: Signal)
    requires x == Asn || x == AsnHosting
    ensures AppendSource(Rendered(ListSignals(f)), x.Name()) == Rendered(ListSignals(f) + [x])
  {
    AppendSourceAdds(ListSignals(f), x);
  }

  // ---------- Augment ----------

  /** What the lookups after Check may add: the operator a host name points to, and a WHOIS answer, "" for none. */
  datatype Later = Later(rdns: Option<string>, whois: Option<string>)

  /** WHOIS is asked only when it can help: no provider named yet, and a network that is rented out to VPNs. */
  predicate AsksWhois(v: Verdict, later: Later, tier: Option<AsnTier>) {
    && !v.tor && !v.privacyProxy
    && later.whois.Some?
    && (if v.provider == "" then OrElse(later.rdns, "") else v.provider) == ""
    && tier.Some? && tier.value.rental
  }

  function LaterSignals(v: Verdict, later: Later, tier: Option<AsnTier>): (ss: seq<Signal>)
    ensures InOrder(ss) && forall i :: 0 <= i < |ss| ==> ss[i].Stage() >= 3
  {
    if v.tor || v.privacyProxy then []
    else Raised(later.rdns.Some?, AsksWhois(v, later, tier) && later.whois.value != "")
  }

  /** What Augment may have made of v0: everything but the provider, the flag and the source is kept. */
  ghost predicate IsAugmented(v0: Verdict, later: Later, tier: Option<AsnTier>, v: Verdict) {
    var added := LaterSignals(v0, later, tier);
    && v == v0.(vpn := v.vpn, provider := v.provider, source := v.source)
    && (v0.tor || v0.privacyProxy ==> v == v0)
    && (v.vpn <==> v0.vpn || added != [])
    && (added == [] || v0.provider != "" ==> v.provider == v0.provider)
    && (added != [] && v0.provider == "" ==>
          v.provider == if Signal.Whois in added then later.whois.value else later.rdns.value)
    && forall ss :: v0.source == Rendered(ss) && Early(ss) ==> v.source == Rendered(ss + added)
  }

  /** Augment, vpn.go. The whois cache may be absent; asked says whether it was consulted. */
  method Augment(v0: Verdict, asn: int, later: Later, tiers: map<int, AsnTier>) returns (v: Verdict, asked: bool)
    ensures asked <==> && !v0.tor && !v0.privacyProxy && later.whois.Some?
                       && v0.provider == "" && (later.rdns == None || later.rdns == Some(""))
                       && asn != 0 && asn in tiers && tiers[asn].rental
    ensures IsAugmented(v0, later, TierOf(tiers, asn), v)
  {
    v, asked := v0, false;
    if v.tor || v.privacyProxy {
      AddNothing();
      return;
    }
    if later.rdns.Some? {
      v := v.(vpn := true, source := AppendSource(v.source, "rdns"));
      if v.provider == "" {
        v := v.(provider := later.rdns.value);
      }
    }
    EarlySourcesGrow(v0.source, later.rdns.Some?, false);
    if later.whois.None? || v.provider != "" || asn == 0 {
      return;
    }
    if asn !in tiers || !tiers[asn].rental {
      return;
    }
    asked := true;
    EarlySourcesGrow(v0.source, later.rdns.Some?, true);
    var answer := later.whois.value;
    if answer != "" {
      v := v.(provider := answer, vpn := true, source := AppendSource(v.source, "whois"));
    }
  }

  /** Signals raised before Augment runs. */
  predicate Early(ss: seq<Signal>) {
    InOrder(ss) && forall i :: 0 <= i < |ss| ==> ss[i].Stage() < 3
  }

  lemma AddNothing()
    ensures forall ss: seq<Signal> :: Early(ss) ==> Rendered(ss + []) == Rendered(ss)
  {
    forall ss: seq<Signal> | Early(ss) ensures Rendered(ss + []) == Rendered(ss) {
      assert ss + [] == ss;
    }
  }

  function Raised(rdns: bool, whois: bool): seq<Signal> {
    (if rdns then [Rdns] else []) + (if whois then [Signal.Whois] else [])
  }

  function SourceAfter(source: string, rdns: bool, whois: bool): string {
    var one := if rdns then AppendSource(source, "rdns") else source;
    if whois then AppendSource(one, "whois") else one
  }

  lemma SourceGrows(ss: seq<Signal>, rdns: bool, whois: bool)
    requires Early(ss)
    ensures SourceAfter(Rendered(ss), rdns, whois) == Rendered(ss + Raised(rdns, whois))
  {
    var mid := if rdns then ss + [Rdns] else ss;
    if rdns {
      AppendSourceAdds(ss, Rdns);
    }
    if whois {
      AppendSourceAdds(mid, Signal.Whois);
    }
    assert ss + Raised(rdns, whois) == if whois then mid + [Signal.Whois] else mid;
  }

  lemma EarlySourcesGrow(source: string, rdns: bool, whois: bool)
    ensures forall ss :: source == Rendered(ss) && Early(ss) ==>
                         SourceAfter(source, rdns, whois) == Rendered(ss + Raised(rdns, whois))
  {
    forall ss | source == Rendered(ss) && Early(ss)
      ensures SourceAfter(source, rdns, whois) == Rendered(ss + Raised(rdns, whois))
    {
      SourceGrows(ss, rdns, whois);
    }
  }

  // ---------- classifyVerdict ----------

  datatype Stamp = Tor | PrivateRelay | Vpn | Hosting | Unknown | Clean

  function Classify(v: Verdict): Stamp {
    if v.tor then Tor
    else if v.privacyProxy then PrivateRelay
    else if v.vpn then Vpn
    else if v.hosting then Hosting
    else if !v.ready then Unknown
    else Clean
  }

  // ---------- the pipeline ----------

  /** Some signal says VPN: any but a hosting network's. */
  predicate SaysVpn(ss: seq<Signal>) {
    exists i :: 0 <= i < |ss| && ss[i] != AsnHosting
  }

  /** The flags of a verdict are the signals that were raised. */
  predicate FlagsAre(v: Verdict, ss: seq<Signal>) {
    && (v.vpn <==> SaysVpn(ss))
    && (v.hosting <==> AsnHosting in ss)
    && (v.privacyProxy <==> Signal.Cidr in ss)
    && (v.tor ==> IpList in ss && !v.privacyProxy)
  }

  /** What each stamp says of the signals, and of whether any feed is loaded. */
  ghost predicate StampTells(stamp: Stamp, isTor: bool, ss: seq<Signal>, loaded: bool) {
    && (stamp == Tor <==> isTor)
    && (stamp == PrivateRelay <==> Signal.Cidr in ss)
    && (stamp == Vpn <==> !isTor && Signal.Cidr !in ss && exists i :: 0 <= i < |ss| && ss[i] != AsnHosting)
    && (stamp == Hosting <==> ss == [AsnHosting])
    && (stamp == Unknown <==> ss == [] && !loaded)
    && (stamp == Clean <==> ss == [] && loaded)
  }

  /**
   From the raw feeds to the stamp: Source lists the signals that were raised, in order and without
   repetition; the flags are those signals; and the stamp is what they and the loading of the feeds amount to.
   */
  lemma SourceTellsTheVerdict(sources: Sources, tiers: map<int, AsnTier>, ip: Addr, asn: int, later: Later,
                              v0: Verdict, v: Verdict) returns (ss: seq<Signal>)
    requires IsVerdict(sources, tiers, ip, asn, v0) && IsAugmented(v0, later, TierOf(tiers, asn), v)
    ensures InOrder(ss) && v.source == Rendered(ss) && (ss != [] ==> Split(v.source) == NamesOf(ss))
    ensures forall other :: v.source == Rendered(other) ==> other == ss
    ensures FlagsAre(v, ss)
    ensures StampTells(Classify(v), v.tor, ss, SomeFeedLoaded(sources))
  {
    var early := EarlySignals(sources, tiers, ip, asn, v0);
    var added := LaterSignals(v0, later, TierOf(tiers, asn));
    ss := early + added;
    if ss != [] {
      SourceSplitsIntoSignals(ss);
    }
    forall other | v.source == Rendered(other) ensures other == ss {
      RenderedIsInjective(other, ss);
    }
    FlagsGrow(v0, v, early, added);
    ClassifyTells(v, ss);
  }

  lemma EarlySignals(sources: Sources, tiers: map<int, AsnTier>, ip: Addr, asn: int, v: Verdict)
    returns (ss: seq<Signal>)
    requires IsVerdict(sources, tiers, ip, asn, v)
    ensures Early(ss) && v.source == Rendered(ss) && FlagsAre(v, ss) && v.ready == SomeFeedLoaded(sources)
  {
    ss := [];
    if ip.IsValid() {
      var f :| IsFinding(sources, CanonicalIP(ip), f) && v == Report(f, TierOf(tiers, asn), SomeFeedLoaded(sources));
      ss := SignalsOf(f, TierOf(tiers, asn));
      SignalsAreTheFlags(f, TierOf(tiers, asn), v.ready);
      SignalsAreEarly(f, TierOf(tiers, asn));
    }
  }

  lemma SignalsAreEarly(f: Finding, tier: Option<AsnTier>)
    ensures Early(SignalsOf(f, tier))
  {
  }

  lemma SignalsAreTheFlags(f: Finding, tier: Option<AsnTier>, ready: bool)
    ensures FlagsAre(Report(f, tier, ready), SignalsOf(f, tier))
  {
    var lists := ListSignals(f);
    ListSignalsAreTheFlags(f, ready);
    if tier.Some? {
      var x := [if tier.value.rental then Asn else AsnHosting];
      SaysVpnConcat(lists, x);
      assert tier.value.rental ==> x[0] != AsnHosting;
      assert Signal.Cidr in lists + x <==> Signal.Cidr in lists;
    }
  }

  lemma ListSignalsAreTheFlags(f: Finding, ready: bool)
    ensures FlagsAre(Report(f, None, ready), ListSignals(f)) && AsnHosting !in ListSignals(f)
  {
    var lists := ListSignals(f);
    assert lists != [] ==> lists[0] != AsnHosting;
    if f.Indirect? && f.near.Some? && f.range.Some? {
      assert lists[1] == Signal.Cidr;
    }
  }

  lemma SaysVpnConcat(a: seq<Signal>, b: seq<Signal>)
    ensures SaysVpn(a + b) <==> SaysVpn(a) || SaysVpn(b)
  {
    if SaysVpn(a) {
      var i :| 0 <= i < |a| && a[i] != AsnHosting;
      assert (a + b)[i] != AsnHosting;
    }
    if SaysVpn(b) {
      var i :| 0 <= i < |b| && b[i] != AsnHosting;
      assert (a + b)[|a| + i] != AsnHosting;
    }
  }

  lemma FlagsGrow(v0: Verdict, v: Verdict, early: seq<Signal>, added: seq<Signal>)
    requires FlagsAre(v0, early) && forall i :: 0 <= i < |added| ==> added[i].Stage() >= 3
    requires v == v0.(vpn := v.vpn, provider := v.provider, source := v.source)
    requires v.vpn <==> v0.vpn || added != []
    ensures FlagsAre(v, early + added)
  {
    SaysVpnConcat(early, added);
    if added != [] {
      assert added[0] != AsnHosting;
    }
  }

  lemma ClassifyTells(v: Verdict, ss: seq<Signal>)
    requires FlagsAre(v, ss) && InOrder(ss)
    ensures StampTells(Classify(v), v.tor, ss, v.ready)
  {
    if ss != [] && !SaysVpn(ss) {
      assert ss[0] == AsnHosting;
      OneHosting(ss);
    }
    if IpList in ss || Signal.Cidr in ss {
      assert SaysVpn(ss);
    }
  }

  lemma OneHosting(ss: seq<Signal>)
    requires InOrder(ss) && ss != [] && !SaysVpn(ss)
    ensures ss == [AsnHosting]
  {
    assert forall i :: 0 <= i < |ss| ==> ss[i] == AsnHosting;
    assert ss[0].Stage() == ss[|ss| - 1].Stage();
  }
}
