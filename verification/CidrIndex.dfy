/**
 The sorted-range CIDR index (cidrindex.go) and its agreement with the linear scan it replaced.
 */
module CidrIndex {
  import opened Common
  import opened Netip
  import opened LastAddr
  import opened RangeMerge

  datatype CidrEntry = CidrEntry(prefix: Prefix, provider: string)

  const MAX4: nat := 0xFFFF_FFFF
  const MAX6: nat := 0xFFFF_FFFF_FFFF_FFFF_FFFF_FFFF_FFFF_FFFF

  // ---------- the linear scan ----------

  predicate EntryMatches(e: CidrEntry, ip: Addr, p: string) {
    e.provider == p && e.prefix.Contains(CanonicalIP(ip))
  }

  /** The scan over the published entries: some entry of provider p contains the address. */
  predicate Published(entries: seq<CidrEntry>, ip: Addr, p: string) {
    exists i :: 0 <= i < |entries| && EntryMatches(entries[i], ip, p)
  }

  predicate Share(a: Prefix, b: Prefix) {
    && a.IsValid() && b.IsValid()
    && a.Prefix4? == b.Prefix4?
    && a.First() <= b.Last() && b.First() <= a.Last()
  }

  /** Entries that share an address carry the same provider. */
  predicate EntriesAgree(entries: seq<CidrEntry>) {
    forall i, j :: 0 <= i < |entries| && 0 <= j < |entries| && Share(entries[i].prefix, entries[j].prefix)
                   ==> entries[i].provider == entries[j].provider
  }

  // ---------- entries as ranges ----------

  function RangeOf(e: CidrEntry): Range
    requires e.prefix.IsValid()
  {
    Range(e.prefix.First(), e.prefix.Last(), e.provider)
  }

  /** The ranges of one family, in the order of the entries. */
  function RangesOf(entries: seq<CidrEntry>, v4: bool): seq<Range> {
    if entries == [] then []
    else
      var e := entries[|entries| - 1];
      var rest := RangesOf(entries[..|entries| - 1], v4);
      if e.prefix.IsValid() && e.prefix.Prefix4? == v4 then rest + [RangeOf(e)] else rest
  }

  lemma {:induction false} RangesComeFromEntries(entries: seq<CidrEntry>, v4: bool) returns (origin: seq<nat>)
    ensures |origin| == |RangesOf(entries, v4)|
    ensures forall k :: 0 <= k < |origin| ==>
              && origin[k] < |entries|
              && entries[origin[k]].prefix.IsValid() && entries[origin[k]].prefix.Prefix4? == v4
              && RangesOf(entries, v4)[k] == RangeOf(entries[origin[k]])
  {
    if entries == [] {
      return [];
    }
    var e := entries[|entries| - 1];
    origin := RangesComeFromEntries(entries[..|entries| - 1], v4);
    if e.prefix.IsValid() && e.prefix.Prefix4? == v4 {
      origin := origin + [|entries| - 1];
    }
  }

  lemma {:induction false} EntriesBecomeRanges(entries: seq<CidrEntry>, v4: bool, i: nat)
    requires i < |entries| && entries[i].prefix.IsValid() && entries[i].prefix.Prefix4? == v4
    ensures RangeOf(entries[i]) in RangesOf(entries, v4)
  {
    if i < |entries| - 1 {
      EntriesBecomeRanges(entries[..|entries| - 1], v4, i);
    }
  }

  function Top(v4: bool): nat {
    if v4 then MAX4 else MAX6
  }

  lemma RangesWellFormed(entries: seq<CidrEntry>, v4: bool)
    ensures WellFormed(RangesOf(entries, v4), Top(v4))
  {
    var origin := RangesComeFromEntries(entries, v4);
    forall k | 0 <= k < |origin|
      ensures RangesOf(entries, v4)[k].first <= RangesOf(entries, v4)[k].last <= Top(v4)
    {
      ValueOfFamily(entries[origin[k]].prefix);
    }
  }

  lemma AgreementIsCompatibility(entries: seq<CidrEntry>)
    ensures EntriesAgree(entries) ==> Compatible(RangesOf(entries, true)) && Compatible(RangesOf(entries, false))
  {
    var origin4 := RangesComeFromEntries(entries, true);
    var origin6 := RangesComeFromEntries(entries, false);
  }

  /** Scanning the ranges of the address's family is scanning the entries. */
  lemma CoversIsPublished(entries: seq<CidrEntry>, ip: Addr, p: string)
    requires ip.IsValid()
    ensures Covers(RangesOf(entries, CanonicalIP(ip).Is4()), CanonicalIP(ip).Number(), p) <==> Published(entries, ip, p)
  {
    var a := CanonicalIP(ip);
    CanonicalHost(ip);
    var rs := RangesOf(entries, a.Is4());
    if Covers(rs, a.Number(), p) {
      var k :| 0 <= k < |rs| && Holds(rs[k], a.Number(), p);
      var origin := RangesComeFromEntries(entries, a.Is4());
      ContainsIffBetween(entries[origin[k]].prefix, a);
      assert EntryMatches(entries[origin[k]], ip, p);
    }
    if Published(entries, ip, p) {
      var i :| 0 <= i < |entries| && EntryMatches(entries[i], ip, p);
      ContainsIffBetween(entries[i].prefix, a);
      EntriesBecomeRanges(entries, a.Is4(), i);
      assert Holds(RangeOf(entries[i]), a.Number(), p);
    }
  }

  // ---------- lookup ----------

  /** Starts in ascending order: all that the binary search itself relies on. */
  predicate StartsAscend(rs: seq<Range>) {
    forall i, j :: 0 <= i <= j < |rs| ==> rs[i].first <= rs[j].first
  }

  /** What probing a list for x answers: the last range that starts at or below x decides. */
  function Probe(rs: seq<Range>, x: nat): Option<string> {
    if rs == [] then None
    else
      var r := rs[|rs| - 1];
      if r.first > x then Probe(rs[..|rs| - 1], x)
      else if x <= r.last then Some(r.provider) else None
  }

  lemma {:induction false} ProbeAt(rs: seq<Range>, x: nat, i: nat)
    requires i <= |rs|
    requires forall k :: i <= k < |rs| ==> rs[k].first > x
    requires i > 0 ==> rs[i - 1].first <= x
    ensures Probe(rs, x) == if i > 0 && x <= rs[i - 1].last then Some(rs[i - 1].provider) else None
  {
    if i < |rs| {
      ProbeAt(rs[..|rs| - 1], x, i);
    }
  }

  /** On disjoint ranges the probe finds the one range that covers x, if any does. */
  lemma {:induction false} ProbeIsCovers(rs: seq<Range>, top: nat, x: nat, p: string)
    requires CanonicalForm(rs, top)
    ensures Probe(rs, x) == Some(p) <==> Covers(rs, x, p)
  {
    if rs != [] {
      var init, r := rs[..|rs| - 1], rs[|rs| - 1];
      assert rs == init + [r];
      CoversAppend(init, r, x, p);
      if r.first > x {
        ProbeIsCovers(init, top, x, p);
      } else {
        forall k | 0 <= k < |init| ensures !Holds(init[k], x, p) {
          assert rs[k].last < r.first;
        }
      }
    }
  }

  lemma {:induction false} MergedStartsAscend(rs: seq<Range>, top: nat)
    requires WellFormed(rs, top) && Ordered(rs)
    ensures StartsAscend(Merged(rs, top))
  {
    if rs != [] {
      var k := |rs| - 1;
      MergedStartsAscend(rs[..k], top);
      MergedTail(rs[..k], top);
      assert k > 0 ==> !Before(rs[k], rs[k - 1]);
      MergeOneStartsAscend(Merged(rs[..k], top), rs[k], top);
    }
  }

  lemma MergeOneStartsAscend(out: seq<Range>, r: Range, top: nat)
    requires StartsAscend(out) && (out != [] ==> out[|out| - 1].first <= r.first)
    ensures StartsAscend(MergeOne(out, r, top))
  {
  }

  lemma SortedMergeStartsAscend(rs: seq<Range>, out: seq<Range>, top: nat)
    requires WellFormed(rs, top) && SortedMerge(rs, out, top)
    ensures StartsAscend(out)
  {
    var s :| Ordered(s) && multiset(s) == multiset(rs) && out == Merged(s, top);
    Permuted(rs, s, top);
    MergedStartsAscend(s, top);
  }

  /** v4 and v6 are what building an index from the entries may leave behind. */
  ghost predicate Indexes(entries: seq<CidrEntry>, v4: seq<Range>, v6: seq<Range>) {
    && SortedMerge(RangesOf(entries, true), v4, MAX4)
    && SortedMerge(RangesOf(entries, false), v6, MAX6)
  }

  function Answer(v4: seq<Range>, v6: seq<Range>, ip: Addr): Option<string> {
    var a := CanonicalIP(ip);
    if !ip.IsValid() then None else Probe(if a.Is4() then v4 else v6, a.Number())
  }

  /** The index agrees with the scan on every address when overlapping entries agree. */
  lemma IndexAgreesWithScan(entries: seq<CidrEntry>, v4: seq<Range>, v6: seq<Range>, ip: Addr, p: string)
    requires Indexes(entries, v4, v6) && EntriesAgree(entries)
    ensures Answer(v4, v6, ip) == Some(p) <==> Published(entries, ip, p)
  {
    if ip.IsValid() {
      var is4 := CanonicalIP(ip).Is4();
      var rs := if is4 then v4 else v6;
      RangesWellFormed(entries, is4);
      AgreementIsCompatibility(entries);
      SortedMergeMeaning(RangesOf(entries, is4), rs, Top(is4));
      ProbeIsCovers(rs, Top(is4), CanonicalIP(ip).Number(), p);
      assert Covers(rs, CanonicalIP(ip).Number(), p) <==> Covers(RangesOf(entries, is4), CanonicalIP(ip).Number(), p);
      CoversIsPublished(entries, ip, p);
    }
  }

  /**
   Without agreement even the yes-or-no answer is lost: an address beyond a nested prefix of another
   provider is published by the enclosing prefix, and the index does not find it.
   */
  lemma NestedPrefixHidesOuter(outer: CidrEntry, inner: CidrEntry, w: Word32, v4: seq<Range>, v6: seq<Range>)
    requires outer.prefix.Prefix4? && outer.prefix.IsValid() && inner.prefix.Prefix4? && inner.prefix.IsValid()
    requires outer.provider != inner.provider
    requires outer.prefix.First() <= inner.prefix.First() && inner.prefix.Last() < w <= outer.prefix.Last()
    requires Indexes([outer, inner], v4, v6)
    ensures Answer(v4, v6, V4(w)) == None
    ensures Published([outer, inner], V4(w), outer.provider)
  {
    ValueOfFamily(inner.prefix);
    PairRanges(outer, inner);
    PairMerged(RangeOf(outer), RangeOf(inner), v4);
    ProbeAt(v4, w, 2);
    ContainsIffBetween(outer.prefix, V4(w));
    assert EntryMatches([outer, inner][0], V4(w), outer.provider);
  }

  lemma PairRanges(d: CidrEntry, e: CidrEntry)
    requires d.prefix.Prefix4? && d.prefix.IsValid() && e.prefix.Prefix4? && e.prefix.IsValid()
    ensures RangesOf([d, e], true) == [RangeOf(d), RangeOf(e)]
  {
    assert [d, e][..1] == [d] && [d][..0] == [];
    assert RangesOf([d], true) == [RangeOf(d)];
  }

  lemma PairMerged(a: Range, b: Range, out: seq<Range>)
    requires Before(a, b) && a.provider != b.provider && SortedMerge([a, b], out, MAX4)
    ensures out == [a, b]
  {
    var s :| Ordered(s) && multiset(s) == multiset([a, b]) && out == Merged(s, MAX4);
    TwoSorted(a, b, s);
    MergedSnoc(s, 0, MAX4);
    MergedSnoc(s, 1, MAX4);
    assert s[..2] == s;
  }

  lemma TwoSorted(a: Range, b: Range, s: seq<Range>)
    requires Before(a, b) && Ordered(s) && multiset(s) == multiset([a, b])
    ensures s == [a, b]
  {
    assert |s| == |multiset(s)| == 2;
    assert s == [s[0], s[1]];
    assert multiset{s[0], s[1]} == multiset{a, b};
    assert multiset{s[0], s[1]}[a] == 1 && multiset{s[0], s[1]}[b] == 1;
    assert !Before(s[1], s[0]);
  }

  // ---------- the index object ----------

  class CidrIndex {
    var v4: seq<Range>
    var v6: seq<Range>
    ghost var entries: seq<CidrEntry>

    ghost predicate Valid()
      reads this
    {
      Indexes(entries, v4, v6)
    }

    constructor Build(entries: seq<CidrEntry>)
      ensures Valid() && this.entries == entries
    {
      v4, v6 := [], [];
      this.entries := entries;
      new;
      for i := 0 to |entries|
        invariant v4 == RangesOf(entries[..i], true)
        invariant v6 == RangesOf(entries[..i], false)
        invariant this.entries == entries
      {
        var e := entries[i];
        assert entries[..i + 1][..i] == entries[..i];
        var p := Masked(e.prefix);
        if !p.IsValid() {
          continue;
        }
        MaskedKeepsEnds(e.prefix);
        ValueOfFamily(e.prefix);
        var last := LastAddrOf(p);
        var r := Range(p.Number(), last.Number(), e.provider);
        if p.Prefix4? {
          v4 := v4 + [r];
        } else {
          v6 := v6 + [r];
        }
      }
      assert entries[..|entries|] == entries;
      var merged4 := SortMergeSlice(v4, MAX4);
      v4 := merged4;
      var merged6 := SortMergeSlice(v6, MAX6);
      v6 := merged6;
    }

    /** The provider owning the address: that of the linear scan whenever the entries agree with each other. */
    method Lookup(ip: Addr) returns (found: Option<string>)
      requires Valid()
      ensures found == Answer(v4, v6, ip)
      ensures EntriesAgree(entries) ==> forall p :: found == Some(p) <==> Published(entries, ip, p)
    {
      if EntriesAgree(entries) {
        forall p ensures Answer(v4, v6, ip) == Some(p) <==> Published(entries, ip, p) {
          IndexAgreesWithScan(entries, v4, v6, ip, p);
        }
      }
      if !ip.IsValid() {
        return None;
      }
      var a := CanonicalIP(ip);
      var rs := v6;
      if a.Is4() {
        rs := v4;
      }
      if |rs| == 0 {
        return None;
      }
      ValidStartsAscend();
      var i := SearchFirstAbove(rs, a.Number());
      ProbeAt(rs, a.Number(), i);
      if i == 0 {
        return None;
      }
      var r := rs[i - 1];
      if a.Number() <= r.last {
        return Some(r.provider);
      }
      return None;
    }

    lemma ValidStartsAscend()
      requires Valid()
      ensures StartsAscend(v4) && StartsAscend(v6)
    {
      RangesWellFormed(entries, true);
      RangesWellFormed(entries, false);
      SortedMergeStartsAscend(RangesOf(entries, true), v4, MAX4);
      SortedMergeStartsAscend(RangesOf(entries, false), v6, MAX6);
    }
  }

  /** A slice is a fresh array here: the caller overwrites its own slice with the result. */
  method SortMergeSlice(rs: seq<Range>, top: nat) returns (out: seq<Range>)
    ensures SortedMerge(rs, out, top)
  {
    var a := new Range[|rs|](i requires 0 <= i < |rs| => rs[i]);
    assert a[..] == rs;
    var n := SortMerge(a, top);
    out := a[..n];
  }

  /** Binary search for the first range that starts above x; |rs| when there is none. */
  method SearchFirstAbove(rs: seq<Range>, x: nat) returns (i: nat)
    requires StartsAscend(rs)
    ensures i <= |rs|
    ensures forall k :: 0 <= k < i ==> rs[k].first <= x
    ensures forall k :: i <= k < |rs| ==> rs[k].first > x
  {
    i := 0;
    var j := |rs|;
    while i < j
      invariant i <= j <= |rs|
      invariant forall k :: 0 <= k < i ==> rs[k].first <= x
      invariant forall k :: j <= k < |rs| ==> rs[k].first > x
    {
      var h := (i + j) / 2;
      if rs[h].first > x {
        j := h;
      } else {
        i := h + 1;
      }
    }
  }
}
