/**
 The tables derived from the feeds (buildSnapshot, vpn.go), proved against the naive reading of the
 feeds whatever the order maps are iterated in.
 */
module Snapshot {
  import opened Common
  import opened Netip
  import opened Names
  import opened Feeds
  import opened CidrIndex

  function Get<K, V>(m: map<K, V>, k: K): Option<V> {
    if k in m then Some(m[k]) else None
  }

  /** What the two address tables say of one address. */
  function TagIn(ips: map<Addr, string>, relays: map<Addr, RelayInfo>, a: Addr): Option<Tag> {
    if a in ips then Some(Tag(ips[a], Get(relays, a))) else None
  }

  // ---------- published ranges ----------

  /** The scan over the range feeds: feed p publishes a prefix that contains the address. */
  predicate RangePublished(sources: Sources, ip: Addr, p: string) {
    p in sources && exists c :: c in sources[p].cidrs && c.Contains(CanonicalIP(ip))
  }

  /** Prefixes that share an address come from one feed. */
  predicate RangesAgree(sources: Sources) {
    forall n, m :: n in sources && m in sources && n != m ==> FeedsApart(sources[n].cidrs, sources[m].cidrs)
  }

  predicate FeedsApart(cs: seq<Prefix>, ds: seq<Prefix>) {
    forall c, d :: c in cs && d in ds ==> !Share(c, d)
  }

  function EntriesOf(name: string, cidrs: seq<Prefix>): seq<CidrEntry> {
    seq(|cidrs|, i requires 0 <= i < |cidrs| => CidrEntry(cidrs[i], name))
  }

  function EntriesFor(sources: Sources, names: seq<string>): seq<CidrEntry>
    requires forall n :: n in names ==> n in sources
  {
    if names == [] then []
    else
      var k := |names| - 1;
      EntriesFor(sources, names[..k]) + EntriesOf(names[k], sources[names[k]].cidrs)
  }

  lemma {:induction false} EntryOrigin(sources: Sources, names: seq<string>, e: CidrEntry)
    requires forall n :: n in names ==> n in sources
    ensures e in EntriesFor(sources, names) <==> e.provider in names && e.prefix in sources[e.provider].cidrs
  {
    if names != [] {
      var k := |names| - 1;
      EntryOrigin(sources, names[..k], e);
      OwnEntries(names[k], sources[names[k]].cidrs, e);
      assert names == names[..k] + [names[k]];
    }
  }

  lemma OwnEntries(name: string, cidrs: seq<Prefix>, e: CidrEntry)
    ensures e in EntriesOf(name, cidrs) <==> e.provider == name && e.prefix in cidrs
  {
    if e.provider == name && e.prefix in cidrs {
      var i :| 0 <= i < |cidrs| && cidrs[i] == e.prefix;
      assert EntriesOf(name, cidrs)[i] == e;
    }
  }

  /** The entries handed to the range index say what the feeds say, and agree when the feeds do. */
  lemma EntriesSayWhatFeedsSay(sources: Sources, names: seq<string>)
    requires SortedKeys(names, sources.Keys)
    ensures EntriesAreExact(sources, EntriesFor(sources, names))
  {
    var entries := EntriesFor(sources, names);
    forall e ensures e in entries <==> e.provider in sources && e.prefix in sources[e.provider].cidrs {
      EntryOrigin(sources, names, e);
    }
    forall ip, p ensures Published(entries, ip, p) <==> RangePublished(sources, ip, p) {
      PublishedByFeed(sources, entries, ip, p);
    }
    if RangesAgree(sources) {
      forall i, j | 0 <= i < |entries| && 0 <= j < |entries| && Share(entries[i].prefix, entries[j].prefix)
        ensures entries[i].provider == entries[j].provider
      {
        assert entries[i] in entries && entries[j] in entries;
      }
    }
  }

  lemma PublishedByFeed(sources: Sources, entries: seq<CidrEntry>, ip: Addr, p: string)
    requires forall e :: e in entries <==> e.provider in sources && e.prefix in sources[e.provider].cidrs
    ensures Published(entries, ip, p) <==> RangePublished(sources, ip, p)
  {
    if Published(entries, ip, p) {
      var i :| 0 <= i < |entries| && EntryMatches(entries[i], ip, p);
      assert entries[i] in entries;
      assert entries[i].prefix in sources[p].cidrs;
    }
    if RangePublished(sources, ip, p) {
      var c :| c in sources[p].cidrs && c.Contains(CanonicalIP(ip));
      assert CidrEntry(c, p) in entries;
      var i :| 0 <= i < |entries| && entries[i] == CidrEntry(c, p);
      assert EntryMatches(entries[i], ip, p);
    }
  }

  // ---------- neighbourhoods ----------

  /** A tagged address of the prefix that counts for the neighbourhood map: any but a Tor exit. */
  predicate Counts(ips: map<Addr, string>, ip: Addr, pfx: Prefix) {
    ip in ips && ips[ip] != "tor" && NetPrefixForIP(ip) == Some(pfx)
  }

  /** Some address counted so far is tagged q. */
  ghost predicate Seen(ips: map<Addr, string>, done: set<Addr>, pfx: Prefix, q: string) {
    exists ip :: ip in done && Counts(ips, ip, pfx) && ips[ip] == q
  }

  /** The mark of a prefix: its one provider, "multi" when it has several, nothing when it has none. */
  ghost predicate Marks(ips: map<Addr, string>, done: set<Addr>, pfx: Prefix, mark: Option<string>) {
    match mark
    case None => forall q :: !Seen(ips, done, pfx, q)
    case Some(m) =>
      || (Seen(ips, done, pfx, m) && forall q :: Seen(ips, done, pfx, q) ==> q == m)
      || (m == "multi" && exists q, q' :: q != q' && Seen(ips, done, pfx, q) && Seen(ips, done, pfx, q'))
  }

  lemma MarkIsUnique(ips: map<Addr, string>, done: set<Addr>, pfx: Prefix, m: Option<string>, m': Option<string>)
    requires Marks(ips, done, pfx, m) && Marks(ips, done, pfx, m')
    ensures m == m'
  {
  }

  /** What one more address does to the mark of its own prefix. */
  function NextMark(mark: Option<string>, prov: string): Option<string> {
    match mark
    case None => Some(prov)
    case Some(m) => if m != prov then Some("multi") else mark
  }

  lemma SeenGrows(ips: map<Addr, string>, done: set<Addr>, ip: Addr, pfx: Prefix, q: string)
    requires ip in ips
    ensures Seen(ips, done + {ip}, pfx, q) <==> Seen(ips, done, pfx, q) || (Counts(ips, ip, pfx) && ips[ip] == q)
  {
    if Seen(ips, done, pfx, q) {
      var x :| x in done && Counts(ips, x, pfx) && ips[x] == q;
      assert x in done + {ip};
    }
    if Counts(ips, ip, pfx) && ips[ip] == q {
      assert ip in done + {ip};
    }
  }

  lemma MarkGrows(ips: map<Addr, string>, done: set<Addr>, ip: Addr, pfx: Prefix, mark: Option<string>)
    requires ip in ips && Marks(ips, done, pfx, mark)
    ensures Marks(ips, done + {ip}, pfx, if Counts(ips, ip, pfx) then NextMark(mark, ips[ip]) else mark)
  {
    forall q
      ensures Seen(ips, done + {ip}, pfx, q) <==> Seen(ips, done, pfx, q) || (Counts(ips, ip, pfx) && ips[ip] == q)
    {
      SeenGrows(ips, done, ip, pfx, q);
    }
    if Counts(ips, ip, pfx) && mark.Some? {
      if mark.value != ips[ip] && Seen(ips, done, pfx, mark.value) {
        assert Seen(ips, done + {ip}, pfx, mark.value) && Seen(ips, done + {ip}, pfx, ips[ip]);
      }
    }
  }

  // ---------- the derived tables ----------

  /** Some feed holds a relay, an address or a range. */
  ghost predicate SomeFeedLoaded(sources: Sources) {
    exists n :: n in sources && (sources[n].relays != [] || sources[n].addrs != [] || sources[n].cidrs != [])
  }

  /** The address tables say of every address what the feeds say of it. */
  ghost predicate TablesAreExact(sources: Sources, ips: map<Addr, string>, relays: map<Addr, RelayInfo>) {
    relays.Keys <= ips.Keys && forall a :: IsExact(sources, a, TagIn(ips, relays, a))
  }

  /** Every prefix is marked by all the addresses in it. */
  ghost predicate MarksAreExact(ips: map<Addr, string>, ipNets: map<Prefix, string>) {
    forall pfx :: Marks(ips, ips.Keys, pfx, Get(ipNets, pfx))
  }

  /** The entries of the range index publish what the feeds publish, and agree when the feeds do. */
  ghost predicate EntriesAreExact(sources: Sources, entries: seq<CidrEntry>) {
    && (forall ip, p :: Published(entries, ip, p) <==> RangePublished(sources, ip, p))
    && (RangesAgree(sources) ==> EntriesAgree(entries))
  }

  /** The tables say exactly what the feeds say. */
  ghost predicate Derived(sources: Sources, ips: map<Addr, string>, relays: map<Addr, RelayInfo>,
                          ipNets: map<Prefix, string>, entries: seq<CidrEntry>, ready: bool)
  {
    && TablesAreExact(sources, ips, relays)
    && MarksAreExact(ips, ipNets)
    && EntriesAreExact(sources, entries)
    && (ready <==> SomeFeedLoaded(sources))
  }

  /** Whatever order the maps were iterated in, the tables come out the same. */
  lemma DerivedTablesAreUnique(sources: Sources,
                               ips: map<Addr, string>, relays: map<Addr, RelayInfo>, ipNets: map<Prefix, string>,
                               ips': map<Addr, string>, relays': map<Addr, RelayInfo>, ipNets': map<Prefix, string>,
                               entries: seq<CidrEntry>, entries': seq<CidrEntry>, ready: bool, ready': bool)
    requires Derived(sources, ips, relays, ipNets, entries, ready)
    requires Derived(sources, ips', relays', ipNets', entries', ready')
    ensures ips == ips' && relays == relays' && ipNets == ipNets' && ready == ready'
  {
    forall a ensures TagIn(ips, relays, a) == TagIn(ips', relays', a) {
      ExactIsUnique(sources, a, TagIn(ips, relays, a), TagIn(ips', relays', a));
    }
    SameTagsSameTables(ips, relays, ips', relays');
    forall pfx ensures Get(ipNets, pfx) == Get(ipNets', pfx) {
      MarkIsUnique(ips, ips.Keys, pfx, Get(ipNets, pfx), Get(ipNets', pfx));
    }
    SameMap(ipNets, ipNets');
  }

  lemma SameMap<K, V>(m: map<K, V>, m': map<K, V>)
    requires forall k :: Get(m, k) == Get(m', k)
    ensures m == m'
  {
    forall k ensures k in m <==> k in m' {
      assert Get(m, k) == Get(m', k);
    }
    forall k | k in m ensures m[k] == m'[k] {
      assert Get(m, k) == Get(m', k);
    }
  }

  lemma SameTagsSameTables(ips: map<Addr, string>, relays: map<Addr, RelayInfo>,
                           ips': map<Addr, string>, relays': map<Addr, RelayInfo>)
    requires relays.Keys <= ips.Keys && relays'.Keys <= ips'.Keys
    requires forall a :: TagIn(ips, relays, a) == TagIn(ips', relays', a)
    ensures ips == ips' && relays == relays'
  {
    forall a ensures Get(ips, a) == Get(ips', a) && Get(relays, a) == Get(relays', a) {
      assert TagIn(ips, relays, a) == TagIn(ips', relays', a);
      assert a in relays ==> a in ips;
      assert a in relays' ==> a in ips';
    }
    SameMap(ips, ips');
    SameMap(relays, relays');
  }

  /** Every address with a relay carries that relay's provider, is one of its addresses, and is in no address list. */
  lemma RelaysArePublished(sources: Sources, ips: map<Addr, string>, relays: map<Addr, RelayInfo>, a: Addr)
    requires TablesAreExact(sources, ips, relays) && a in relays
    ensures a in ips && ips[a] == relays[a].provider
    ensures forall n :: n in sources ==> !Lists(sources[n], a)
    ensures exists n :: n in sources && LastRelay(sources[n].relays, a) == Some(relays[a])
  {
    assert IsExact(sources, a, TagIn(ips, relays, a));
    assert TagIn(ips, relays, a) == Some(Tag(ips[a], Some(relays[a])));
    forall n | n in sources ensures !Lists(sources[n], a) {
      assert n !in Listers(sources, a);
    }
    var n :| Greatest(Relayers(sources, a), n)
             && TagIn(ips, relays, a) == Some(RelayTag(LastRelay(sources[n].relays, a).value));
    assert n in Relayers(sources, a);
  }

  lemma NoFeedsNoTags()
    ensures Derived(map[], map[], map[], map[], [], false)
  {
    forall a ensures IsExact(map[], a, None) {
      assert Listers(map[], a) == {} && Relayers(map[], a) == {};
    }
  }

  class Snapshot {
    var sources: Sources
    var ips: map<Addr, string>
    var relays: map<Addr, RelayInfo>
    var ipNets: map<Prefix, string>
    var cidrs: CidrIndex
    var ready: bool

    ghost predicate Valid()
      reads this, cidrs
    {
      cidrs.Valid() && Derived(sources, ips, relays, ipNets, cidrs.entries, ready)
    }

    function TagOf(a: Addr): Option<Tag>
      reads this
    {
      TagIn(ips, relays, a)
    }

    /** A snapshot of no feeds at all, and not ready. */
    constructor Empty()
      ensures Valid() && fresh(cidrs)
      ensures sources == map[] && ips == map[] && relays == map[] && ipNets == map[] && !ready
    {
      sources, ips, relays, ipNets, ready := map[], map[], map[], map[], false;
      cidrs := new CidrIndex.Build([]);
      new;
      NoFeedsNoTags();
    }

    method AddRelay(rel: RelayInfo)
      requires relays.Keys <= ips.Keys
      modifies `ips, `relays
      ensures relays.Keys <= ips.Keys
      ensures forall a :: TagOf(a) == if a in rel.addrs then Some(RelayTag(rel)) else old(TagOf(a))
    {
      for k := 0 to |rel.addrs|
        invariant relays.Keys <= ips.Keys
        invariant forall a :: TagOf(a) == if a in rel.addrs[..k] then Some(RelayTag(rel)) else old(TagOf(a))
      {
        var a := rel.addrs[k];
        ips := ips[a := rel.provider];
        relays := relays[a := rel];
        assert rel.addrs[..k + 1] == rel.addrs[..k] + [a];
      }
      assert rel.addrs[..|rel.addrs|] == rel.addrs;
    }

    method AddRelays(rels: seq<RelayInfo>)
      requires relays.Keys <= ips.Keys
      modifies `ips, `relays
      ensures relays.Keys <= ips.Keys
      ensures forall a :: TagOf(a) == FirstOf(TagOfRelays(rels, a), old(TagOf(a)))
    {
      for i := 0 to |rels|
        invariant relays.Keys <= ips.Keys
        invariant forall a :: TagOf(a) == FirstOf(TagOfRelays(rels[..i], a), old(TagOf(a)))
      {
        AddRelay(rels[i]);
        assert rels[..i + 1][..i] == rels[..i];
      }
      assert rels[..|rels|] == rels;
    }

    /** An address list tags its addresses unconditionally, and drops their relays. */
    method AddListed(name: string, addrs: seq<Addr>)
      requires relays.Keys <= ips.Keys
      modifies `ips, `relays
      ensures relays.Keys <= ips.Keys
      ensures forall a :: TagOf(a) == if OnList(addrs, a) then Some(Tag(name, None)) else old(TagOf(a))
    {
      for i := 0 to |addrs|
        invariant relays.Keys <= ips.Keys
        invariant forall a :: TagOf(a) == if OnList(addrs[..i], a) then Some(Tag(name, None)) else old(TagOf(a))
      {
        ListAddr(name, CanonicalIP(addrs[i]));
        forall b ensures OnList(addrs[..i + 1], b) <==> OnList(addrs[..i], b) || b == CanonicalIP(addrs[i]) {
          OnListGrows(addrs, i, b);
        }
      }
      assert addrs[..|addrs|] == addrs;
    }

    method ListAddr(name: string, a: Addr)
      requires relays.Keys <= ips.Keys
      modifies `ips, `relays
      ensures relays.Keys <= ips.Keys
      ensures forall b :: TagOf(b) == if b == a then Some(Tag(name, None)) else old(TagOf(b))
    {
      ips := ips[a := name];
      relays := relays - {a};
    }

    /** The first pass, in ascending order of the names: relays, ranges, and whether anything is loaded at all. */
    method FirstPass(names: seq<string>) returns (entries: seq<CidrEntry>)
      requires ips == map[] && relays == map[] && !ready && SortedKeys(names, sources.Keys)
      modifies `ips, `relays, `ready
      ensures relays.Keys <= ips.Keys
      ensures forall a :: TagOf(a) == RelayedTag(sources, names, a)
      ensures entries == EntriesFor(sources, names)
      ensures ready <==> SomeFeedLoaded(sources)
    {
      entries := [];
      for i := 0 to |names|
        invariant relays.Keys <= ips.Keys
        invariant forall a :: TagOf(a) == RelayedTag(sources, names[..i], a)
        invariant entries == EntriesFor(sources, names[..i])
        invariant ready <==> exists k :: 0 <= k < i && !sources[names[k]].Empty()
      {
        var src := sources[names[i]];
        assert names[..i + 1][..i] == names[..i];
        AddRelays(src.relays);
        entries := entries + EntriesOf(names[i], src.cidrs);
        if !src.Empty() {
          ready := true;
        }
      }
      assert names[..|names|] == names;
      LoadedByName(sources, names);
    }

    /** The second pass: address lists, Tor among them, win over relays whatever their names. */
    method SecondPass(names: seq<string>)
      requires relays.Keys <= ips.Keys && SortedKeys(names, sources.Keys)
      requires forall a :: TagOf(a) == RelayedTag(sources, names, a)
      modifies `ips, `relays
      ensures TablesAreExact(sources, ips, relays)
    {
      for i := 0 to |names|
        invariant relays.Keys <= ips.Keys
        invariant forall a :: TagOf(a) == FirstOf(ListedTag(sources, names[..i], a), RelayedTag(sources, names, a))
      {
        assert names[..i + 1][..i] == names[..i];
        AddListed(names[i], sources[names[i]].addrs);
      }
      assert names[..|names|] == names;
      forall a ensures IsExact(sources, a, TagIn(ips, relays, a)) {
        SortedPassesAreExact(sources, names, a);
        assert TagOf(a) == FirstOf(ListedTag(sources, names, a), RelayedTag(sources, names, a));
      }
    }

    method IndexRanges(entries: seq<CidrEntry>)
      modifies `cidrs
      ensures fresh(cidrs) && cidrs.Valid() && cidrs.entries == entries
    {
      cidrs := new CidrIndex.Build(entries);
    }

    /** Marks every /24 and /64 that holds a tagged address, in whatever order the addresses come. */
    method MarkNeighbourhoods()
      requires ipNets == map[]
      modifies `ipNets
      ensures MarksAreExact(ips, ipNets)
    {
      var left := ips.Keys;
      ghost var done: set<Addr> := {};
      while left != {}
        invariant ips == old(ips) && left + done == ips.Keys
        invariant forall pfx :: Marks(ips, done, pfx, Get(ipNets, pfx))
        decreases |left|
      {
        var ip :| ip in left;
        left := left - {ip};
        forall pfx
          ensures Marks(ips, done + {ip}, pfx,
                        if Counts(ips, ip, pfx) then NextMark(Get(ipNets, pfx), ips[ip]) else Get(ipNets, pfx))
        {
          MarkGrows(ips, done, ip, pfx, Get(ipNets, pfx));
        }
        MarkOne(ip, ips[ip]);
        done := done + {ip};
      }
      assert done == ips.Keys;
    }

    method MarkOne(ip: Addr, prov: string)
      requires ip in ips && ips[ip] == prov
      modifies `ipNets
      ensures forall pfx :: Get(ipNets, pfx) ==
                            if Counts(ips, ip, pfx) then NextMark(old(Get(ipNets, pfx)), prov)
                            else old(Get(ipNets, pfx))
    {
      if prov == "tor" {
        return;
      }
      var near := NetPrefixForIP(ip);
      if near.None? {
        return;
      }
      var pfx := near.value;
      if pfx in ipNets && ipNets[pfx] != prov {
        ipNets := ipNets[pfx := "multi"];
      } else if pfx !in ipNets {
        ipNets := ipNets[pfx := prov];
      }
    }
  }

  lemma LoadedByName(sources: Sources, names: seq<string>)
    requires SortedKeys(names, sources.Keys)
    ensures SomeFeedLoaded(sources) <==> exists k :: 0 <= k < |names| && !sources[names[k]].Empty()
  {
    if SomeFeedLoaded(sources) {
      var n :| n in sources && !sources[n].Empty();
      assert n in names;
    }
  }

  lemma OnListGrows(addrs: seq<Addr>, i: nat, b: Addr)
    requires i < |addrs|
    ensures OnList(addrs[..i + 1], b) <==> OnList(addrs[..i], b) || b == CanonicalIP(addrs[i])
  {
    if OnList(addrs[..i], b) {
      var k :| 0 <= k < i && CanonicalIP(addrs[..i][k]) == b;
      assert CanonicalIP(addrs[..i + 1][k]) == b;
    }
    if b == CanonicalIP(addrs[i]) {
      assert CanonicalIP(addrs[..i + 1][i]) == b;
    }
    if OnList(addrs[..i + 1], b) {
      var k :| 0 <= k <= i && CanonicalIP(addrs[..i + 1][k]) == b;
      assert k < i ==> CanonicalIP(addrs[..i][k]) == b;
    }
  }

  method BuildSnapshot(sources: Sources) returns (snap: Snapshot)
    ensures fresh(snap) && fresh(snap.cidrs) && snap.Valid() && snap.sources == sources
  {
    snap := new Snapshot.Empty();
    snap.sources := sources;
    var names := SortedNames(sources);
    var entries := snap.FirstPass(names);
    snap.SecondPass(names);
    snap.MarkNeighbourhoods();
    EntriesSayWhatFeedsSay(sources, names);
    snap.IndexRanges(entries);
  }
}
