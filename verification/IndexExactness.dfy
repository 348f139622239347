/**
 When the range index answers as the linear scan it replaced (cidrindex.go), address by address: the
 exact condition on the published entries.
 */
module IndexExactness {
  import opened Common
  import opened Netip
  import opened RangeMerge
  import opened CidrIndex

  predicate At(r: Range, x: nat) {
    r.first <= x <= r.last
  }

  predicate Covered(rs: seq<Range>, x: nat) {
    exists r :: r in rs && At(r, x)
  }

  /** a lies inside b and is not all of it. */
  predicate Inside(a: Range, b: Range) {
    b.first <= a.first && a.last <= b.last && (a.first != b.first || a.last != b.last)
  }

  /** d, of another provider, comes after e in the sorted list and ends before x, which e holds. */
  predicate Shadows(d: Range, e: Range, x: nat) {
    Inside(d, e) && d.provider != e.provider && d.last < x <= e.last
  }

  /** Wherever a nested range could hide x, another nested range holds x. */
  predicate Backed(rs: seq<Range>, x: nat) {
    forall d, e :: d in rs && e in rs && Shadows(d, e, x) ==> exists f :: f in rs && Inside(f, e) && At(f, x)
  }

  predicate Laminar(rs: seq<Range>) {
    forall a, b :: a in rs && b in rs && Overlap(a, b) && a.first <= b.first ==> b.last <= a.last || a.first == b.first
  }

  // ---------- what a probe of the merged list sees ----------

  /** Some range holds x among those at the end of s that share the last one's provider. */
  predicate RunReaches(s: seq<Range>, x: nat) {
    s != []
    && var k := |s| - 1;
       s[k].last >= x || (k > 0 && s[k - 1].provider == s[k].provider && RunReaches(s[..k], x))
  }

  function Seen(s: seq<Range>, x: nat): Option<string> {
    if s == [] then None
    else
      var k := |s| - 1;
      if s[k].first > x then Seen(s[..k], x)
      else if RunReaches(s, x) then Some(s[k].provider) else None
  }

  lemma {:induction false} TailProvider(s: seq<Range>, top: nat)
    requires WellFormed(s, top) && Ordered(s) && s != []
    ensures Merged(s, top) != [] && Merged(s, top)[|Merged(s, top)| - 1].provider == s[|s| - 1].provider
  {
    MergedTail(s, top);
    if |s| > 1 {
      TailProvider(s[..|s| - 1], top);
    }
  }

  /** Merging in a range that starts at or below x: the last range then reaches x if it does, or one it joins. */
  lemma MergeOneReaches(out: seq<Range>, r: Range, top: nat, x: nat)
    requires out != [] && r.first <= x
    ensures var next, prev := MergeOne(out, r, top), out[|out| - 1];
            next != [] && (next[|next| - 1].last >= x <==>
                           r.last >= x || (prev.provider == r.provider && prev.last >= x))
  {
  }

  lemma {:induction false} TailReaches(s: seq<Range>, top: nat, x: nat)
    requires WellFormed(s, top) && Ordered(s) && s != [] && s[|s| - 1].first <= x
    ensures Merged(s, top) != []
    ensures Merged(s, top)[|Merged(s, top)| - 1].last >= x <==> RunReaches(s, x)
  {
    var k := |s| - 1;
    if k > 0 {
      assert !Before(s[k], s[k - 1]);
      TailProvider(s[..k], top);
      TailReaches(s[..k], top, x);
      MergeOneReaches(Merged(s[..k], top), s[k], top, x);
    } else {
      assert Merged(s[..k], top) == [];
    }
  }

  /** Probing the merged list sees what the run at the end of the ranges starting at or below x holds. */
  lemma {:induction false} ProbeIsSeen(s: seq<Range>, top: nat, x: nat)
    requires WellFormed(s, top) && Ordered(s)
    ensures Probe(Merged(s, top), x) == Seen(s, x)
  {
    if s != [] {
      var k := |s| - 1;
      MergedTail(s, top);
      if s[k].first > x {
        MergedTail(s[..k], top);
        ProbeIsSeen(s[..k], top, x);
        LaterRangeIsNotSeen(Merged(s[..k], top), s[k], top, x);
      } else {
        TailProvider(s, top);
        TailReaches(s, top, x);
      }
    }
  }

  lemma LaterRangeIsNotSeen(out: seq<Range>, r: Range, top: nat, x: nat)
    requires r.first > x
    ensures Probe(MergeOne(out, r, top), x) == Probe(out, x)
  {
    if out != [] {
      var prev := out[|out| - 1];
      var wide := out[..|out| - 1] + [prev.(last := r.last)];
      assert wide[..|out| - 1] == out[..|out| - 1];
      assert (out + [r])[..|out|] == out;
    }
  }

  lemma {:induction false} RunHasCover(s: seq<Range>, x: nat) returns (c: nat)
    requires RunReaches(s, x)
    ensures c < |s| && s[c].last >= x
    ensures forall j :: c <= j < |s| ==> s[j].provider == s[|s| - 1].provider
  {
    var k := |s| - 1;
    if s[k].last >= x {
      return k;
    }
    c := RunHasCover(s[..k], x);
  }

  lemma {:induction false} RunReachesFrom(s: seq<Range>, x: nat, c: nat)
    requires c < |s| && s[c].last >= x
    requires forall j :: c <= j < |s| ==> s[j].provider == s[c].provider
    ensures RunReaches(s, x)
  {
    var k := |s| - 1;
    if c < k {
      RunReachesFrom(s[..k], x, c);
    }
  }

  /** The ranges that start at or below x form a prefix, and the rest is not seen. */
  lemma {:induction false} SeenPrefix(s: seq<Range>, x: nat) returns (n: nat)
    requires Ordered(s)
    ensures n <= |s| && Seen(s, x) == Seen(s[..n], x)
    ensures forall j :: 0 <= j < n ==> s[j].first <= x
    ensures forall j :: n <= j < |s| ==> s[j].first > x
  {
    if s == [] {
      return 0;
    }
    var k := |s| - 1;
    if s[k].first > x {
      n := SeenPrefix(s[..k], x);
      assert s[..k][..n] == s[..n];
    } else {
      n := |s|;
      assert s[..n] == s;
      forall j | 0 <= j < n ensures s[j].first <= x {
        assert j < k ==> !Before(s[k], s[j]);
      }
    }
  }

  // ---------- a backed number is seen ----------

  lemma {:induction false} LastCover(s: seq<Range>, x: nat) returns (c: nat)
    requires Covered(s, x)
    ensures c < |s| && At(s[c], x) && forall j :: c < j < |s| ==> !At(s[j], x)
  {
    var k := |s| - 1;
    if At(s[k], x) {
      return k;
    }
    var r :| r in s && At(r, x);
    assert r in s[..k];
    c := LastCover(s[..k], x);
  }

  lemma BackedIsSeen(s: seq<Range>, x: nat)
    requires Ordered(s) && Backed(s, x) && Covered(s, x)
    ensures Seen(s, x).Some?
  {
    var n := SeenPrefix(s, x);
    var c := LastCover(s, x);
    forall j | c <= j < n ensures s[j].provider == s[c].provider {
      if j > c {
        AfterCover(s, x, c, j);
      }
    }
    RunReachesFrom(s[..n], x, c);
  }

  /** What comes after the last range that holds x, and starts at or below x, has its provider. */
  lemma AfterCover(s: seq<Range>, x: nat, c: nat, j: nat)
    requires Ordered(s) && Backed(s, x) && c < j < |s| && At(s[c], x) && s[j].first <= x
    requires forall i :: c < i < |s| ==> !At(s[i], x)
    ensures s[j].provider == s[c].provider
  {
    assert !Before(s[j], s[c]);
    assert s[c] in s && s[j] in s;
    if Shadows(s[j], s[c], x) {
      var f :| f in s && Inside(f, s[c]) && At(f, x);
      var i :| 0 <= i < |s| && s[i] == f;
      BeforeMeansEarlier(s, c, i);
    }
  }

  lemma BeforeMeansEarlier(s: seq<Range>, i: nat, j: nat)
    requires Ordered(s) && i < |s| && j < |s| && Before(s[i], s[j])
    ensures i < j
  {
  }

  lemma SeenIsCovered(s: seq<Range>, x: nat)
    requires Ordered(s) && Seen(s, x).Some?
    ensures Covered(s, x) && Covers(s, x, Seen(s, x).value)
  {
    var n := SeenPrefix(s, x);
    var c := RunHasCover(s[..n], x);
    assert At(s[c], x) && s[c] in s;
    assert Holds(s[c], x, Seen(s, x).value);
  }

  // ---------- a number that is not backed can be missed ----------

  /** An order the sort may choose for rest and e that leaves e behind every range with the same ends. */
  lemma {:induction false} OrderWithLast(rest: seq<Range>, e: Range) returns (s: seq<Range>, i: nat)
    ensures Ordered(s) && multiset(s) == multiset(rest) + multiset{e}
    ensures i < |s| && s[i] == e && forall j :: i < j < |s| ==> Before(e, s[j])
  {
    if rest == [] {
      return [e], 0;
    }
    var r := rest[|rest| - 1];
    s, i := OrderWithLast(rest[..|rest| - 1], e);
    assert rest == rest[..|rest| - 1] + [r];
    i := InsertKeepsLast(s, r, e, i);
    InsertOrdered(s, r);
    InsertRearranges(s, r);
    s := Insert(s, r);
  }

  lemma {:induction false} InsertKeepsLast(s: seq<Range>, r: Range, e: Range, i: nat) returns (i': nat)
    requires i < |s| && s[i] == e && forall j :: i < j < |s| ==> Before(e, s[j])
    ensures i' < |Insert(s, r)| && Insert(s, r)[i'] == e
    ensures forall j :: i' < j < |Insert(s, r)| ==> Before(e, Insert(s, r)[j])
  {
    var k := |s| - 1;
    if Before(s[k], r) {
      i' := i;
      assert Before(e, r);
    } else if i == k {
      i' := |Insert(s[..k], r)|;
    } else {
      i' := InsertKeepsLast(s[..k], r, e, i);
    }
  }

  /** An outcome of the sort in which e comes last among the ranges with its ends. */
  lemma SortedWithLast(rs: seq<Range>, e: Range) returns (s: seq<Range>, i: nat)
    requires e in rs
    ensures Ordered(s) && multiset(s) == multiset(rs)
    ensures i < |s| && s[i] == e && forall j :: i < j < |s| ==> Before(e, s[j])
  {
    var k :| 0 <= k < |rs| && rs[k] == e;
    s, i := OrderWithLast(rs[..k] + rs[k + 1..], e);
    assert rs == rs[..k] + [e] + rs[k + 1..];
  }

  /** Some outcome of sorting and merging always exists. */
  lemma SomeMerge(rs: seq<Range>, top: nat) returns (out: seq<Range>)
    ensures SortedMerge(rs, out, top)
  {
    var s: seq<Range> := [];
    if rs != [] {
      var i: nat;
      s, i := SortedWithLast(rs, rs[0]);
    }
    out := Merged(s, top);
  }

  lemma SameMembers(a: seq<Range>, b: seq<Range>)
    requires multiset(a) == multiset(b)
    ensures forall r :: r in a <==> r in b
  {
    forall r ensures r in a <==> r in b {
      assert r in a <==> r in multiset(a);
      assert r in b <==> r in multiset(b);
    }
  }

  /** In that order a range d of another provider inside e hides x, if nothing else inside e holds x. */
  lemma ShadowedIsMissed(s: seq<Range>, x: nat, e: Range, d: Range, i: nat)
    requires Ordered(s) && Laminar(s)
    requires i < |s| && s[i] == e && forall j :: i < j < |s| ==> Before(e, s[j])
    requires d in s && Shadows(d, e, x) && At(e, x) && d.first <= d.last
    requires forall f :: f in s && Inside(f, e) ==> !At(f, x)
    ensures Seen(s, x).None?
  {
    var n := SeenPrefix(s, x);
    var m :| 0 <= m < |s| && s[m] == d;
    BeforeMeansEarlier(s, i, m);
    assert m < n;
    forall c | 0 <= c < n && s[c].last >= x ensures c <= i {
      CoverIsNotLater(s, x, e, i, c);
    }
    RunStopsShort(s[..n], x, i, m);
  }

  /** A change of provider after the last range that reaches x cuts the run off from x. */
  lemma RunStopsShort(s: seq<Range>, x: nat, i: nat, m: nat)
    requires i < m < |s| && s[i].provider != s[m].provider
    requires forall c :: 0 <= c < |s| && s[c].last >= x ==> c <= i
    ensures !RunReaches(s, x)
  {
    if RunReaches(s, x) {
      var c := RunHasCover(s, x);
    }
  }

  lemma CoverIsNotLater(s: seq<Range>, x: nat, e: Range, i: nat, c: nat)
    requires Laminar(s) && i < |s| && s[i] == e && forall j :: i < j < |s| ==> Before(e, s[j])
    requires At(e, x) && c < |s| && At(s[c], x)
    requires forall f :: f in s && Inside(f, e) ==> !At(f, x)
    ensures c <= i
  {
    assert s[c] in s && e in s;
    if c > i {
      assert Overlap(e, s[c]);
    }
  }

  // ---------- the condition is exact ----------

  /** What probing some outcome of the sort and merge answers. */
  ghost predicate MayProbe(rs: seq<Range>, top: nat, x: nat, o: Option<string>) {
    exists out :: SortedMerge(rs, out, top) && Probe(out, x) == o
  }

  /** The yes-or-no answer for x is that of the scan, whatever order the sort leaves ties in. */
  ghost predicate ShowsRight(rs: seq<Range>, top: nat, x: nat) {
    forall o :: MayProbe(rs, top, x, o) ==> (o.Some? <==> Covered(rs, x))
  }

  /** So is the provider. */
  ghost predicate NamesRight(rs: seq<Range>, top: nat, x: nat) {
    forall o :: MayProbe(rs, top, x, o) ==> forall p :: o == Some(p) <==> Covers(rs, x, p)
  }

  lemma ShowsIffBacked(rs: seq<Range>, top: nat, x: nat)
    requires WellFormed(rs, top) && Laminar(rs)
    ensures ShowsRight(rs, top, x) <==> Backed(rs, x)
  {
    if Backed(rs, x) {
      forall o | MayProbe(rs, top, x, o) ensures o.Some? <==> Covered(rs, x) {
        BackedShows(rs, top, x, o);
      }
    } else {
      UnbackedFails(rs, top, x);
    }
  }

  lemma BackedShows(rs: seq<Range>, top: nat, x: nat, o: Option<string>)
    requires WellFormed(rs, top) && Backed(rs, x) && MayProbe(rs, top, x, o)
    ensures o.Some? <==> Covered(rs, x)
    ensures o.Some? ==> Covers(rs, x, o.value)
  {
    var out :| SortedMerge(rs, out, top) && Probe(out, x) == o;
    var s :| Ordered(s) && multiset(s) == multiset(rs) && out == Merged(s, top);
    SameMembers(s, rs);
    Permuted(rs, s, top);
    ProbeIsSeen(s, top, x);
    if Covered(rs, x) {
      var r :| r in rs && At(r, x);
      assert r in s;
      BackedIsSeen(s, x);
    }
    if Seen(s, x).Some? {
      SeenIsCovered(s, x);
      var r :| r in s && At(r, x);
      assert r in rs;
      CoversPermuted(s, rs, x, Seen(s, x).value);
    }
  }

  lemma UnbackedFails(rs: seq<Range>, top: nat, x: nat)
    requires WellFormed(rs, top) && Laminar(rs) && !Backed(rs, x)
    ensures MayProbe(rs, top, x, None)
    ensures Covered(rs, x)
  {
    var d, e :| d in rs && e in rs && Shadows(d, e, x) && forall f :: f in rs && Inside(f, e) ==> !At(f, x);
    var s, i := SortedWithLast(rs, e);
    SameMembers(s, rs);
    Permuted(rs, s, top);
    assert d.first <= d.last;
    ShadowedIsMissed(s, x, e, d, i);
    ProbeIsSeen(s, top, x);
    assert SortedMerge(rs, Merged(s, top), top);
    assert At(e, x);
  }

  predicate OneProviderAt(rs: seq<Range>, x: nat) {
    forall a, b :: a in rs && b in rs && At(a, x) && At(b, x) ==> a.provider == b.provider
  }

  lemma NamesIffBackedByOne(rs: seq<Range>, top: nat, x: nat)
    requires WellFormed(rs, top) && Laminar(rs)
    ensures NamesRight(rs, top, x) <==> Backed(rs, x) && OneProviderAt(rs, x)
  {
    if NamesRight(rs, top, x) {
      NamesRightShows(rs, top, x);
      ShowsIffBacked(rs, top, x);
    }
    if Backed(rs, x) && OneProviderAt(rs, x) {
      forall o, p | MayProbe(rs, top, x, o) ensures o == Some(p) <==> Covers(rs, x, p) {
        BackedShows(rs, top, x, o);
        CoveredByOne(rs, x, p, o);
      }
    }
  }

  lemma CoveredByOne(rs: seq<Range>, x: nat, p: string, answer: Option<string>)
    requires OneProviderAt(rs, x) && (answer.Some? <==> Covered(rs, x))
    requires answer.Some? ==> Covers(rs, x, answer.value)
    ensures answer == Some(p) <==> Covers(rs, x, p)
  {
    if Covers(rs, x, p) {
      var i :| 0 <= i < |rs| && Holds(rs[i], x, p);
      assert rs[i] in rs && At(rs[i], x);
      var j :| 0 <= j < |rs| && Holds(rs[j], x, answer.value);
      assert rs[j] in rs && At(rs[j], x);
    }
  }

  lemma NamesRightShows(rs: seq<Range>, top: nat, x: nat)
    requires WellFormed(rs, top) && NamesRight(rs, top, x)
    ensures ShowsRight(rs, top, x) && OneProviderAt(rs, x)
  {
    var some := SomeMerge(rs, top);
    assert MayProbe(rs, top, x, Probe(some, x));
    forall r | r in rs && At(r, x) ensures Probe(some, x) == Some(r.provider) {
      HolderCovers(rs, r, x);
    }
    forall o | MayProbe(rs, top, x, o) ensures o.Some? <==> Covered(rs, x) {
      if Covered(rs, x) {
        var r :| r in rs && At(r, x);
        HolderCovers(rs, r, x);
      }
      if o.Some? {
        var k :| 0 <= k < |rs| && Holds(rs[k], x, o.value);
        assert rs[k] in rs && At(rs[k], x);
      }
    }
  }

  lemma HolderCovers(rs: seq<Range>, r: Range, x: nat)
    requires r in rs && At(r, x)
    ensures Covers(rs, x, r.provider)
  {
    var k :| 0 <= k < |rs| && rs[k] == r;
    assert Holds(rs[k], x, r.provider);
  }

  // ---------- on the published entries ----------

  predicate OfFamily(e: CidrEntry, v4: bool) {
    e.prefix.IsValid() && e.prefix.Prefix4? == v4
  }

  lemma RangesOfMembers(entries: seq<CidrEntry>, v4: bool, r: Range)
    ensures r in RangesOf(entries, v4) <==> exists e :: e in entries && OfFamily(e, v4) && RangeOf(e) == r
  {
    if r in RangesOf(entries, v4) {
      var k :| 0 <= k < |RangesOf(entries, v4)| && RangesOf(entries, v4)[k] == r;
      var origin := RangesComeFromEntries(entries, v4);
      assert entries[origin[k]] in entries && OfFamily(entries[origin[k]], v4);
    }
    if e :| e in entries && OfFamily(e, v4) && RangeOf(e) == r {
      var i :| 0 <= i < |entries| && entries[i] == e;
      EntriesBecomeRanges(entries, v4, i);
    }
  }

  /** The ranges of prefixes are nested or disjoint. */
  lemma PrefixesAreLaminar(entries: seq<CidrEntry>, v4: bool)
    ensures Laminar(RangesOf(entries, v4))
  {
    var rs := RangesOf(entries, v4);
    forall a, b | a in rs && b in rs && Overlap(a, b) && a.first <= b.first
      ensures b.last <= a.last || a.first == b.first
    {
      RangesOfMembers(entries, v4, a);
      RangesOfMembers(entries, v4, b);
      var d :| d in entries && OfFamily(d, v4) && RangeOf(d) == a;
      var e :| e in entries && OfFamily(e, v4) && RangeOf(e) == b;
      if d.prefix.bits <= e.prefix.bits {
        NestedOrDisjoint(d.prefix, e.prefix);
      } else {
        NestedOrDisjoint(e.prefix, d.prefix);
      }
    }
  }

  /**
   What the entries must meet at number x of one family: where an entry that holds x has an entry of
   another provider inside it that ends before x, some entry inside it holds x.
   */
  predicate EntriesBack(entries: seq<CidrEntry>, v4: bool, x: nat) {
    forall d, e :: d in entries && e in entries && OfFamily(d, v4) && OfFamily(e, v4)
                   && Shadows(RangeOf(d), RangeOf(e), x)
                   ==> exists f :: f in entries && OfFamily(f, v4)
                                   && Inside(RangeOf(f), RangeOf(e)) && At(RangeOf(f), x)
  }

  lemma EntriesBackIsBacked(entries: seq<CidrEntry>, v4: bool, x: nat)
    ensures EntriesBack(entries, v4, x) <==> Backed(RangesOf(entries, v4), x)
  {
    var rs := RangesOf(entries, v4);
    forall r ensures r in rs <==> exists e :: e in entries && OfFamily(e, v4) && RangeOf(e) == r {
      RangesOfMembers(entries, v4, r);
    }
  }

  ghost predicate ScanFinds(entries: seq<CidrEntry>, ip: Addr) {
    exists p :: Published(entries, ip, p)
  }

  /** What some index built from the entries answers: the sort leaves ties in any order. */
  ghost predicate MayAnswer(entries: seq<CidrEntry>, ip: Addr, o: Option<string>) {
    exists v4, v6 :: Indexes(entries, v4, v6) && Answer(v4, v6, ip) == o
  }

  /** Every such answer says of the address what the scan says: whether it is published. */
  ghost predicate AnswersYesOrNo(entries: seq<CidrEntry>, ip: Addr) {
    forall o :: MayAnswer(entries, ip, o) ==> (o.Some? <==> ScanFinds(entries, ip))
  }

  /** The same, and by whom. */
  ghost predicate AnswersByWhom(entries: seq<CidrEntry>, ip: Addr) {
    forall o :: MayAnswer(entries, ip, o) ==> forall p :: o == Some(p) <==> Published(entries, ip, p)
  }

  lemma ScanIsCovered(entries: seq<CidrEntry>, ip: Addr)
    requires ip.IsValid()
    ensures var a := CanonicalIP(ip);
            ScanFinds(entries, ip) <==> Covered(RangesOf(entries, a.Is4()), a.Number())
  {
    var a := CanonicalIP(ip);
    var rs := RangesOf(entries, a.Is4());
    if ScanFinds(entries, ip) {
      var p :| Published(entries, ip, p);
      CoversIsPublished(entries, ip, p);
      var i :| 0 <= i < |rs| && Holds(rs[i], a.Number(), p);
      assert rs[i] in rs && At(rs[i], a.Number());
    }
    if Covered(rs, a.Number()) {
      var r :| r in rs && At(r, a.Number());
      HolderCovers(rs, r, a.Number());
      CoversIsPublished(entries, ip, r.provider);
    }
  }

  lemma AnswersAreProbes(entries: seq<CidrEntry>, ip: Addr, o: Option<string>)
    requires ip.IsValid()
    ensures var a := CanonicalIP(ip);
            MayAnswer(entries, ip, o) <==> MayProbe(RangesOf(entries, a.Is4()), Top(a.Is4()), a.Number(), o)
  {
    var a := CanonicalIP(ip);
    var v4 := a.Is4();
    if MayProbe(RangesOf(entries, v4), Top(v4), a.Number(), o) {
      var out :| SortedMerge(RangesOf(entries, v4), out, Top(v4)) && Probe(out, a.Number()) == o;
      var other := SomeMerge(RangesOf(entries, !v4), Top(!v4));
      assert Indexes(entries, if v4 then out else other, if v4 then other else out);
    }
  }

  lemma AnswersAreProbesEverywhere(entries: seq<CidrEntry>, ip: Addr)
    requires ip.IsValid()
    ensures var a := CanonicalIP(ip);
            && (AnswersYesOrNo(entries, ip) <==> ShowsRight(RangesOf(entries, a.Is4()), Top(a.Is4()), a.Number()))
            && (AnswersByWhom(entries, ip) <==> NamesRight(RangesOf(entries, a.Is4()), Top(a.Is4()), a.Number()))
  {
    var a := CanonicalIP(ip);
    var rs := RangesOf(entries, a.Is4());
    ScanIsCovered(entries, ip);
    forall p ensures Covers(rs, a.Number(), p) <==> Published(entries, ip, p) {
      CoversIsPublished(entries, ip, p);
    }
    forall o ensures MayAnswer(entries, ip, o) <==> MayProbe(rs, Top(a.Is4()), a.Number(), o) {
      AnswersAreProbes(entries, ip, o);
    }
  }

  /**
   The index tells published addresses from others, as the scan does, exactly when the entries back the
   address: for every address, all entries and every order of ties.
   */
  lemma YesOrNoIsExact(entries: seq<CidrEntry>, ip: Addr)
    requires ip.IsValid()
    ensures AnswersYesOrNo(entries, ip) <==> EntriesBack(entries, CanonicalIP(ip).Is4(), CanonicalIP(ip).Number())
  {
    var a := CanonicalIP(ip);
    AnswersAreProbesEverywhere(entries, ip);
    RangesWellFormed(entries, a.Is4());
    PrefixesAreLaminar(entries, a.Is4());
    ShowsIffBacked(RangesOf(entries, a.Is4()), Top(a.Is4()), a.Number());
    EntriesBackIsBacked(entries, a.Is4(), a.Number());
  }

  ghost predicate OnePublisher(entries: seq<CidrEntry>, ip: Addr) {
    forall p, q :: Published(entries, ip, p) && Published(entries, ip, q) ==> p == q
  }

  /** It names the publisher, as the scan does, exactly when the address is backed and has no two publishers. */
  lemma ByWhomIsExact(entries: seq<CidrEntry>, ip: Addr)
    requires ip.IsValid()
    ensures AnswersByWhom(entries, ip) <==>
            EntriesBack(entries, CanonicalIP(ip).Is4(), CanonicalIP(ip).Number()) && OnePublisher(entries, ip)
  {
    var a := CanonicalIP(ip);
    AnswersAreProbesEverywhere(entries, ip);
    RangesWellFormed(entries, a.Is4());
    PrefixesAreLaminar(entries, a.Is4());
    NamesIffBackedByOne(RangesOf(entries, a.Is4()), Top(a.Is4()), a.Number());
    EntriesBackIsBacked(entries, a.Is4(), a.Number());
    OnePublisherIsOneProvider(entries, ip);
  }

  lemma OnePublisherIsOneProvider(entries: seq<CidrEntry>, ip: Addr)
    requires ip.IsValid()
    ensures var a := CanonicalIP(ip);
            OnePublisher(entries, ip) <==> OneProviderAt(RangesOf(entries, a.Is4()), a.Number())
  {
    var a := CanonicalIP(ip);
    var rs := RangesOf(entries, a.Is4());
    forall p ensures Covers(rs, a.Number(), p) <==> Published(entries, ip, p) {
      CoversIsPublished(entries, ip, p);
    }
    forall r | r in rs && At(r, a.Number()) ensures Covers(rs, a.Number(), r.provider) {
      HolderCovers(rs, r, a.Number());
    }
    forall p | Covers(rs, a.Number(), p) ensures exists r :: r in rs && At(r, a.Number()) && r.provider == p {
      var k :| 0 <= k < |rs| && Holds(rs[k], a.Number(), p);
      assert rs[k] in rs;
    }
  }
}
