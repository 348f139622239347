/**
 Sorting and merging address ranges (sortMerge in cidrindex.go). The ranges of one family are
 numbers up to `top`. `Merged` builds its result in a separate list; the method `SortMerge` compacts
 the array it reads from, and is proved to leave the same list behind.
 */
module RangeMerge {
  import opened Common

  datatype Range = Range(first: nat, last: nat, provider: string)

  predicate WellFormed(rs: seq<Range>, top: nat) {
    forall i :: 0 <= i < |rs| ==> rs[i].first <= rs[i].last <= top
  }

  /** The comparison given to the sort: lower start first, then the wider range first. */
  predicate Before(a: Range, b: Range) {
    if a.first != b.first then a.first < b.first else a.last > b.last
  }

  predicate Ordered(rs: seq<Range>) {
    forall i, j :: 0 <= i < j < |rs| ==> !Before(rs[j], rs[i])
  }

  predicate Holds(r: Range, x: nat, p: string) {
    r.provider == p && r.first <= x <= r.last
  }

  /** What a list of ranges means: which number belongs to which provider. */
  predicate Covers(rs: seq<Range>, x: nat, p: string) {
    exists i :: 0 <= i < |rs| && Holds(rs[i], x, p)
  }

  predicate Overlap(a: Range, b: Range) {
    a.first <= b.last && b.first <= a.last
  }

  /** Ranges that share a number carry the same provider. */
  predicate Compatible(rs: seq<Range>) {
    forall i, j :: 0 <= i < |rs| && 0 <= j < |rs| && Overlap(rs[i], rs[j]) ==> rs[i].provider == rs[j].provider
  }

  predicate Disjoint(rs: seq<Range>) {
    forall i, j :: 0 <= i < j < |rs| ==> rs[i].last < rs[j].first
  }

  /** Neighbours of one provider are at least one number apart. */
  predicate Gapped(rs: seq<Range>) {
    forall i :: 0 < i < |rs| && rs[i - 1].provider == rs[i].provider ==> rs[i - 1].last + 1 < rs[i].first
  }

  predicate CanonicalForm(rs: seq<Range>, top: nat) {
    WellFormed(rs, top) && Disjoint(rs) && Gapped(rs)
  }

  // ---------- merging, out of place ----------

  function NextAddr(a: nat, top: nat): Option<nat> {
    if a < top then Some(a + 1) else None
  }

  function MergeOne(out: seq<Range>, r: Range, top: nat): seq<Range> {
    if out == [] then [r]
    else
      var prev := out[|out| - 1];
      if prev.provider != r.provider then out + [r]
      else if r.first <= prev.last || NextAddr(prev.last, top) == Some(r.first) then
        if r.last > prev.last then out[..|out| - 1] + [prev.(last := r.last)] else out
      else out + [r]
  }

  function Merged(rs: seq<Range>, top: nat): seq<Range> {
    if rs == [] then [] else MergeOne(Merged(rs[..|rs| - 1], top), rs[|rs| - 1], top)
  }

  /** How the last merged range relates to the ranges merged so far. */
  ghost predicate TailOf(rs: seq<Range>, out: seq<Range>) {
    && (rs == [] <==> out == [])
    && (rs != [] ==>
          && out[|out| - 1].first <= rs[|rs| - 1].first
          && exists i :: 0 <= i < |rs| && rs[i].last == out[|out| - 1].last
                         && rs[i].provider == out[|out| - 1].provider)
  }

  /** Merging in a range leaves at the end that range, or the one before it, or the two joined. */
  lemma MergeOneTail(out: seq<Range>, r: Range, top: nat)
    requires out != [] && WellFormed(out, top) && WellFormed([r], top) && out[|out| - 1].first <= r.first
    ensures WellFormed(MergeOne(out, r, top), top)
    ensures var next, prev := MergeOne(out, r, top), out[|out| - 1];
            && next != [] && next[|next| - 1].first <= r.first
            && (|| (next[|next| - 1].last == r.last && next[|next| - 1].provider == r.provider)
                || (next[|next| - 1].last == prev.last && next[|next| - 1].provider == prev.provider))
  {
    assert [r][0] == r;
  }

  lemma {:induction false} MergedTail(rs: seq<Range>, top: nat)
    requires WellFormed(rs, top) && Ordered(rs)
    ensures TailOf(rs, Merged(rs, top)) && WellFormed(Merged(rs, top), top)
  {
    if rs != [] {
      var k := |rs| - 1;
      var init, r := rs[..k], rs[k];
      MergedTail(init, top);
      if init != [] {
        var out, tail := Merged(init, top), Merged(rs, top)[|Merged(rs, top)| - 1];
        assert !Before(r, rs[k - 1]);
        MergeOneTail(out, r, top);
        var i :| 0 <= i < k && init[i].last == out[|out| - 1].last && init[i].provider == out[|out| - 1].provider;
        var w := if tail.last == r.last && tail.provider == r.provider then k else i;
        assert rs[w].last == tail.last && rs[w].provider == tail.provider;
      } else {
        assert rs[0].last == Merged(rs, top)[0].last;
      }
    }
  }

  /** Merging changes nothing about which number belongs to which provider. */
  lemma {:induction false} MergedCovers(rs: seq<Range>, top: nat, x: nat, p: string)
    requires WellFormed(rs, top) && Ordered(rs)
    ensures Covers(Merged(rs, top), x, p) <==> Covers(rs, x, p)
  {
    if rs != [] {
      var k := |rs| - 1;
      var init, r := rs[..k], rs[k];
      MergedCovers(init, top, x, p);
      MergedTail(init, top);
      CoversAppend(init, r, x, p);
      assert init + [r] == rs;
      if init != [] {
        assert !Before(r, rs[k - 1]);
      }
      MergeOneCovers(Merged(init, top), r, top, x, p);
    }
  }

  lemma CoversAppend(rs: seq<Range>, r: Range, x: nat, p: string)
    ensures Covers(rs + [r], x, p) <==> Covers(rs, x, p) || Holds(r, x, p)
  {
    var both := rs + [r];
    if Covers(rs, x, p) {
      var i :| 0 <= i < |rs| && Holds(rs[i], x, p);
      assert Holds(both[i], x, p);
    }
    if Holds(r, x, p) {
      assert Holds(both[|rs|], x, p);
    }
  }

  lemma MergeOneCovers(out: seq<Range>, r: Range, top: nat, x: nat, p: string)
    requires out != [] ==> out[|out| - 1].first <= r.first
    requires WellFormed(out, top) && r.first <= r.last <= top
    ensures Covers(MergeOne(out, r, top), x, p) <==> Covers(out, x, p) || Holds(r, x, p)
  {
    CoversAppend(out, r, x, p);
    if out != [] {
      var init, prev := out[..|out| - 1], out[|out| - 1];
      CoversAppend(init, prev, x, p);
      CoversAppend(init, prev.(last := r.last), x, p);
      assert init + [prev] == out;
    } else {
      assert out + [r] == [r];
    }
  }

  /** The merged list of compatible ranges is in canonical form. */
  lemma {:induction false} MergedCanonical(rs: seq<Range>, top: nat)
    requires WellFormed(rs, top) && Ordered(rs) && Compatible(rs)
    ensures CanonicalForm(Merged(rs, top), top)
  {
    if rs != [] {
      var k := |rs| - 1;
      var init, r := rs[..k], rs[k];
      MergedCanonical(init, top);
      if init != [] {
        NextIsBeyondOthers(rs, top);
        MergeOneCanonical(Merged(init, top), r, top);
      }
    }
  }

  /** The last range starts no earlier than the tail merged so far, and beyond it unless it has the same provider. */
  lemma NextIsBeyondOthers(rs: seq<Range>, top: nat)
    requires WellFormed(rs, top) && Ordered(rs) && Compatible(rs) && |rs| > 1
    ensures var out := Merged(rs[..|rs| - 1], top);
            && out != []
            && out[|out| - 1].first <= rs[|rs| - 1].first
            && (out[|out| - 1].provider != rs[|rs| - 1].provider ==> out[|out| - 1].last < rs[|rs| - 1].first)
  {
    var k := |rs| - 1;
    var init := rs[..k];
    MergedTail(init, top);
    var out := Merged(init, top);
    var prev := out[|out| - 1];
    var i :| 0 <= i < k && init[i].last == prev.last && init[i].provider == prev.provider;
    assert !Before(rs[k], rs[i]) && !Before(rs[k], rs[k - 1]);
    assert Overlap(rs[i], rs[k]) ==> rs[i].provider == rs[k].provider;
  }

  lemma MergeOneCanonical(out: seq<Range>, r: Range, top: nat)
    requires CanonicalForm(out, top) && out != [] && r.first <= r.last <= top
    requires out[|out| - 1].first <= r.first
    requires out[|out| - 1].provider != r.provider ==> out[|out| - 1].last < r.first
    ensures CanonicalForm(MergeOne(out, r, top), top)
  {
    var prev := out[|out| - 1];
    if prev.provider == r.provider && r.first <= prev.last + 1 {
      if r.last > prev.last {
        WidenCanonical(out, r.last, top);
      }
    } else {
      AppendCanonical(out, r, top);
    }
  }

  lemma AppendCanonical(out: seq<Range>, r: Range, top: nat)
    requires CanonicalForm(out, top) && out != [] && r.first <= r.last <= top
    requires out[|out| - 1].last < r.first
    requires out[|out| - 1].provider == r.provider ==> out[|out| - 1].last + 1 < r.first
    ensures CanonicalForm(out + [r], top)
  {
    var next := out + [r];
    assert Disjoint(next) by {
      forall i | 0 <= i < |out| ensures out[i].last < r.first {
        if i < |out| - 1 {
          assert out[i].last < out[|out| - 1].first;
        }
      }
    }
  }

  lemma WidenCanonical(out: seq<Range>, last: nat, top: nat)
    requires CanonicalForm(out, top) && out != [] && last <= top
    requires out[|out| - 1].last < last
    ensures CanonicalForm(out[..|out| - 1] + [out[|out| - 1].(last := last)], top)
  {
    var next := out[..|out| - 1] + [out[|out| - 1].(last := last)];
    assert forall i :: 0 <= i < |out| ==> next[i].first == out[i].first && next[i].provider == out[i].provider;
    assert forall i :: 0 <= i < |out| - 1 ==> next[i].last == out[i].last;
  }

  // ---------- uniqueness of the canonical form ----------

  ghost predicate SameCoverage(a: seq<Range>, b: seq<Range>) {
    forall x, p :: Covers(a, x, p) <==> Covers(b, x, p)
  }

  /** A canonical list is determined by what it covers. */
  lemma {:induction false} CanonicalFormIsUnique(a: seq<Range>, b: seq<Range>, top: nat)
    requires CanonicalForm(a, top) && CanonicalForm(b, top) && SameCoverage(a, b)
    ensures a == b
    decreases |a|
  {
    BothEmpty(a, b);
    if a != [] {
      HeadReaches(a, b, top);
      HeadReaches(b, a, top);
      TailsAgree(a, b, top);
      CanonicalFormIsUnique(a[1..], b[1..], top);
      assert a == [a[0]] + a[1..] && b == [b[0]] + b[1..];
    }
  }

  lemma BothEmpty(a: seq<Range>, b: seq<Range>)
    requires forall i :: 0 <= i < |a| ==> a[i].first <= a[i].last
    requires forall i :: 0 <= i < |b| ==> b[i].first <= b[i].last
    requires SameCoverage(a, b)
    ensures a == [] <==> b == []
  {
    if a != [] {
      assert Holds(a[0], a[0].first, a[0].provider);
      assert Covers(a, a[0].first, a[0].provider);
    }
    if b != [] {
      assert Holds(b[0], b[0].first, b[0].provider);
      assert Covers(b, b[0].first, b[0].provider);
    }
  }

  lemma TailsAgree(a: seq<Range>, b: seq<Range>, top: nat)
    requires CanonicalForm(a, top) && CanonicalForm(b, top) && SameCoverage(a, b)
    requires a != [] && b != [] && a[0].last == b[0].last
    ensures SameCoverage(a[1..], b[1..])
  {
    forall x, p ensures Covers(a[1..], x, p) <==> Covers(b[1..], x, p) {
      CoversTail(a, top, x, p);
      CoversTail(b, top, x, p);
      assert Covers(a, x, p) <==> Covers(b, x, p);
    }
  }

  /** The first range of b is the first range of a, or ends no earlier. */
  lemma HeadReaches(a: seq<Range>, b: seq<Range>, top: nat)
    requires CanonicalForm(a, top) && CanonicalForm(b, top) && a != [] && b != []
    requires SameCoverage(a, b)
    ensures b[0].first <= a[0].first
    ensures a[0].first == b[0].first ==> a[0].provider == b[0].provider && a[0].last <= b[0].last
  {
    assert Holds(a[0], a[0].first, a[0].provider);
    assert Covers(a, a[0].first, a[0].provider);
    var i :| 0 <= i < |b| && Holds(b[i], a[0].first, a[0].provider);
    if i > 0 {
      assert b[0].last < b[i].first;
    }
    var next := b[0].last + 1;
    GapIsUncovered(b, top);
    assert !Covers(a, next, b[0].provider);
    assert !Holds(a[0], next, b[0].provider);
  }

  /** The number right after the first range is not covered by the first range's provider. */
  lemma GapIsUncovered(rs: seq<Range>, top: nat)
    requires CanonicalForm(rs, top) && rs != []
    ensures !Covers(rs, rs[0].last + 1, rs[0].provider)
  {
    forall j | 0 <= j < |rs| ensures !Holds(rs[j], rs[0].last + 1, rs[0].provider) {
      if j > 1 {
        assert rs[0].last < rs[1].first <= rs[1].last < rs[j].first;
      }
    }
  }

  lemma CoversTail(rs: seq<Range>, top: nat, x: nat, p: string)
    requires CanonicalForm(rs, top) && rs != []
    ensures Covers(rs[1..], x, p) <==> Covers(rs, x, p) && x > rs[0].last
  {
    if Covers(rs[1..], x, p) {
      var i :| 0 <= i < |rs| - 1 && Holds(rs[1..][i], x, p);
      assert Holds(rs[i + 1], x, p);
      assert rs[0].last < rs[i + 1].first;
    }
    if Covers(rs, x, p) && x > rs[0].last {
      var i :| 0 <= i < |rs| && Holds(rs[i], x, p);
      assert Holds(rs[1..][i - 1], x, p);
    }
  }

  // ---------- sorting and merging, in place ----------

  /** out is the merge of some sorted rearrangement of rs; the sort leaves ties in any order. */
  ghost predicate SortedMerge(rs: seq<Range>, out: seq<Range>, top: nat) {
    exists s :: Ordered(s) && multiset(s) == multiset(rs) && out == Merged(s, top)
  }

  lemma CoversPermuted(a: seq<Range>, b: seq<Range>, x: nat, p: string)
    requires multiset(a) == multiset(b) && Covers(a, x, p)
    ensures Covers(b, x, p)
  {
    var i :| 0 <= i < |a| && Holds(a[i], x, p);
    assert a[i] in multiset(b);
    var j :| 0 <= j < |b| && b[j] == a[i];
    assert Holds(b[j], x, p);
  }

  lemma Permuted(a: seq<Range>, b: seq<Range>, top: nat)
    requires multiset(a) == multiset(b)
    ensures WellFormed(a, top) ==> WellFormed(b, top)
    ensures Compatible(a) ==> Compatible(b)
  {
    forall j | 0 <= j < |b| ensures exists i :: 0 <= i < |a| && a[i] == b[j] {
      assert b[j] in multiset(a);
    }
  }

  /** For every outcome of the sort: the same coverage, in canonical form when the ranges are compatible. */
  lemma SortedMergeMeaning(rs: seq<Range>, out: seq<Range>, top: nat)
    requires WellFormed(rs, top) && SortedMerge(rs, out, top)
    ensures SameCoverage(out, rs)
    ensures Compatible(rs) ==> CanonicalForm(out, top)
  {
    var s :| Ordered(s) && multiset(s) == multiset(rs) && out == Merged(s, top);
    Permuted(rs, s, top);
    forall x, p ensures Covers(out, x, p) <==> Covers(rs, x, p) {
      MergedCovers(s, top, x, p);
      if Covers(s, x, p) { CoversPermuted(s, rs, x, p); }
      if Covers(rs, x, p) { CoversPermuted(rs, s, x, p); }
    }
    if Compatible(rs) {
      MergedCanonical(s, top);
    }
  }

  /** The result depends on what the input covers alone, not on its order or its duplicates. */
  lemma SortedMergeIgnoresOrder(a: seq<Range>, b: seq<Range>, outA: seq<Range>, outB: seq<Range>, top: nat)
    requires WellFormed(a, top) && Compatible(a) && WellFormed(b, top) && Compatible(b)
    requires SortedMerge(a, outA, top) && SortedMerge(b, outB, top)
    requires SameCoverage(a, b)
    ensures outA == outB
  {
    SortedMergeMeaning(a, outA, top);
    SortedMergeMeaning(b, outB, top);
    forall x, p ensures Covers(outA, x, p) <==> Covers(outB, x, p) {
      assert Covers(outA, x, p) <==> Covers(a, x, p);
      assert Covers(a, x, p) <==> Covers(b, x, p);
      assert Covers(outB, x, p) <==> Covers(b, x, p);
    }
    CanonicalFormIsUnique(outA, outB, top);
  }

  function Insert(s: seq<Range>, r: Range): seq<Range> {
    if s == [] || Before(s[|s| - 1], r) then s + [r] else Insert(s[..|s| - 1], r) + [s[|s| - 1]]
  }

  lemma {:induction false} InsertRearranges(s: seq<Range>, r: Range)
    ensures multiset(Insert(s, r)) == multiset(s) + multiset{r}
    ensures forall x :: x in Insert(s, r) ==> x == r || x in s
  {
    if s != [] && !Before(s[|s| - 1], r) {
      InsertRearranges(s[..|s| - 1], r);
      assert s == s[..|s| - 1] + [s[|s| - 1]];
    }
  }

  lemma {:induction false} InsertOrdered(s: seq<Range>, r: Range)
    requires Ordered(s)
    ensures Ordered(Insert(s, r))
  {
    if s != [] {
      var init, last := s[..|s| - 1], s[|s| - 1];
      if Before(last, r) {
        forall i | 0 <= i < |s| ensures !Before(r, s[i]) {
          assert i < |s| - 1 ==> !Before(last, s[i]);
        }
      } else {
        InsertOrdered(init, r);
        InsertRearranges(init, r);
        var t := Insert(init, r);
        forall i | 0 <= i < |t| ensures !Before(last, t[i]) {
          assert t[i] in t;
        }
      }
    }
  }

  /** Sorts in place. Callers know no more of the outcome than that it is an ordered rearrangement. */
  method SortSlice(a: array<Range>)
    modifies a
    ensures Ordered(a[..]) && multiset(a[..]) == multiset(old(a[..]))
  {
    var s: seq<Range> := [];
    for i := 0 to a.Length
      invariant a[..] == old(a[..])
      invariant Ordered(s) && multiset(s) == multiset(a[..i])
    {
      InsertOrdered(s, a[i]);
      InsertRearranges(s, a[i]);
      s := Insert(s, a[i]);
      assert a[..i + 1] == a[..i] + [a[i]];
    }
    assert a[..a.Length] == a[..];
    assert |s| == |multiset(s)| == a.Length;
    forall i | 0 <= i < a.Length {
      a[i] := s[i];
    }
    assert a[..] == s;
  }

  /** One round of the compaction loop: r, read from beyond the first n elements, is merged into them. */
  method MergeInto(a: array<Range>, n: nat, r: Range, top: nat) returns (m: nat)
    requires 1 <= n < a.Length
    modifies a
    ensures n <= m <= n + 1
    ensures a[..m] == MergeOne(old(a[..n]), r, top)
    ensures forall j :: n < j < a.Length ==> a[j] == old(a[j])
    ensures m == n ==> a[n] == old(a[n])
  {
    var prev := a[n - 1];
    ghost var out := a[..n];
    if prev.provider == r.provider {
      var limit := NextAddr(prev.last, top);
      if r.first <= prev.last || (limit.Some? && r.first == limit.value) {
        if r.last > prev.last {
          a[n - 1] := prev.(last := r.last);
          assert a[..n] == out[..n - 1] + [prev.(last := r.last)];
        }
        return n;
      }
    }
    a[n] := r;
    assert a[..n + 1] == out + [r];
    return n + 1;
  }

  /** Sorts a and compacts it in place; the result is its first n elements. */
  method SortMerge(a: array<Range>, top: nat) returns (n: nat)
    modifies a
    ensures n <= a.Length
    ensures SortedMerge(old(a[..]), a[..n], top)
  {
    if a.Length < 2 {
      ShortMerged(a[..], top);
      assert a[..a.Length] == a[..];
      return a.Length;
    }
    SortSlice(a);
    ghost var s := a[..];
    n := 1;
    MergedSnoc(s, 0, top);
    for i := 1 to a.Length
      invariant 1 <= n <= i
      invariant a[..n] == Merged(s[..i], top)
      invariant forall j :: i <= j < a.Length ==> a[j] == s[j]  // nothing unread is overwritten
    {
      MergedSnoc(s, i, top);
      n := MergeInto(a, n, a[i], top);
    }
    assert s[..a.Length] == s;
  }

  lemma ShortMerged(s: seq<Range>, top: nat)
    requires |s| < 2
    ensures SortedMerge(s, s, top)
  {
    assert Ordered(s);
    assert Merged(s, top) == s by {
      if |s| == 1 {
        assert s == [s[0]] && s[..0] == [];
        assert Merged(s, top) == MergeOne(Merged([], top), s[0], top);
      }
    }
  }

  lemma MergedSnoc(s: seq<Range>, i: nat, top: nat)
    requires i < |s|
    ensures Merged(s[..i + 1], top) == MergeOne(Merged(s[..i], top), s[i], top)
    ensures i == 0 ==> Merged(s[..1], top) == [s[0]] == s[..1]
  {
    assert s[..i + 1][..i] == s[..i];
  }
}
