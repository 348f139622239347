/**
 The quote-aware splitter (splitTopLevel in main.go): it cuts at the separators outside double quotes.
 */
module TopLevelSplit {

  const QUOTE: char := '"'

  function Quotes(s: string): nat {
    if s == "" then 0 else Quotes(s[..|s| - 1]) + (if s[|s| - 1] == QUOTE then 1 else 0)
  }

  predicate Even(s: string) {
    Quotes(s) % 2 == 0
  }

  /** A separator at i that an even number of quotes precedes. A quote is never a separator. */
  predicate TopLevel(s: string, sep: char, i: nat)
    requires i < |s|
  {
    sep != QUOTE && s[i] == sep && Even(s[..i])
  }

  predicate Atomic(s: string, sep: char) {
    forall i :: 0 <= i < |s| ==> !TopLevel(s, sep, i)
  }

  function Joined(pieces: seq<string>, sep: char): string
    requires pieces != []
  {
    var k := |pieces| - 1;
    if k == 0 then pieces[0] else Joined(pieces[..k], sep) + [sep] + pieces[k]
  }

  /** pieces is a split of s: lossless, cut only at top level, and not to be cut any further. */
  predicate IsSplit(s: string, sep: char, pieces: seq<string>) {
    && pieces != []
    && Joined(pieces, sep) == s
    && (forall k :: 0 <= k < |pieces| ==> Atomic(pieces[k], sep))
    && (forall k :: 0 <= k < |pieces| - 1 ==> Even(pieces[k]))
  }

  /** What the scan has made of the text read so far: finished pieces, and the piece it is in. */
  predicate Scanned(read: string, sep: char, out: seq<string>, piece: string, depth: int) {
    && Joined(out + [piece], sep) == read
    && depth == Quotes(piece) % 2
    && Atomic(piece, sep)
    && (forall k :: 0 <= k < |out| ==> Atomic(out[k], sep) && Even(out[k]))
    && (sep == QUOTE ==> out == [])
  }

  method SplitTopLevel(s: string, sep: char) returns (out: seq<string>)
    ensures IsSplit(s, sep, out)
    ensures sep == '"' ==> out == [s]
  {
    out := [];
    var depth := 0;
    var start := 0;
    for i := 0 to |s|
      invariant 0 <= start <= i
      invariant Scanned(s[..i], sep, out, s[start..i], depth)
    {
      SliceSnoc(s, start, i);
      SliceSnoc(s, 0, i);
      if s[i] == QUOTE {
        Extend(s[..i], sep, out, s[start..i], depth, s[i]);
        depth := 1 - depth;
      } else if s[i] == sep {
        if depth == 0 {
          Cut(s[..i], sep, out, s[start..i]);
          out := out + [s[start..i]];
          start := i + 1;
          assert s[start..i + 1] == "";
        } else {
          Extend(s[..i], sep, out, s[start..i], depth, s[i]);
        }
      } else {
        Extend(s[..i], sep, out, s[start..i], depth, s[i]);
      }
    }
    assert s[start..|s|] == s[start..] && s[..|s|] == s;
    Finish(s, sep, out, s[start..], depth);
    out := out + [s[start..]];
  }

  lemma SliceSnoc(s: string, start: nat, i: nat)
    requires start <= i < |s|
    ensures s[start..i + 1] == s[start..i] + [s[i]]
    ensures start == 0 ==> s[..i + 1] == s[..i] + [s[i]]
  {
  }

  lemma Extend(read: string, sep: char, out: seq<string>, piece: string, depth: int, c: char)
    requires Scanned(read, sep, out, piece, depth)
    requires c == QUOTE || c != sep || depth != 0
    ensures Scanned(read + [c], sep, out, piece + [c], if c == QUOTE then 1 - depth else depth)
  {
    ExtendPiece(piece, c, sep);
    assert (out + [piece + [c]])[..|out|] == out && (out + [piece])[..|out|] == out;
  }

  lemma ExtendPiece(piece: string, c: char, sep: char)
    requires Atomic(piece, sep)
    requires c == QUOTE || c != sep || !Even(piece)
    ensures Quotes(piece + [c]) == Quotes(piece) + if c == QUOTE then 1 else 0
    ensures Atomic(piece + [c], sep)
  {
    var longer := piece + [c];
    assert longer[..|piece|] == piece;
    forall i | 0 <= i < |longer| ensures !TopLevel(longer, sep, i) {
      if i < |piece| {
        assert longer[..i] == piece[..i];
        assert !TopLevel(piece, sep, i);
      }
    }
  }

  lemma Cut(read: string, sep: char, out: seq<string>, piece: string)
    requires sep != QUOTE && Scanned(read, sep, out, piece, 0)
    ensures Scanned(read + [sep], sep, out + [piece], "", 0)
  {
    assert (out + [piece] + [""])[..|out| + 1] == out + [piece];
  }

  lemma Finish(s: string, sep: char, out: seq<string>, piece: string, depth: int)
    requires Scanned(s, sep, out, piece, depth)
    ensures IsSplit(s, sep, out + [piece])
    ensures sep == QUOTE ==> out + [piece] == [s]
  {
  }

  // ---------- where the cuts are ----------

  lemma {:induction false} QuotesConcat(a: string, b: string)
    ensures Quotes(a + b) == Quotes(a) + Quotes(b)
  {
    if b == "" {
      assert a + b == a;
    } else {
      QuotesConcat(a, b[..|b| - 1]);
      assert (a + b)[..|a + b| - 1] == a + b[..|b| - 1];
    }
  }

  lemma TopLevelInConcat(a: string, b: string, sep: char, i: nat)
    requires i < |a + b|
    ensures i < |a| ==> (TopLevel(a + b, sep, i) <==> TopLevel(a, sep, i))
    ensures i >= |a| && Even(a) ==> (TopLevel(a + b, sep, i) <==> TopLevel(b, sep, i - |a|))
  {
    if i < |a| {
      assert (a + b)[..i] == a[..i];
    } else {
      assert (a + b)[..i] == a + b[..i - |a|];
      QuotesConcat(a, b[..i - |a|]);
    }
  }

  lemma {:induction false} JoinedIsEven(pieces: seq<string>, sep: char)
    requires pieces != [] && sep != QUOTE && forall k :: 0 <= k < |pieces| ==> Even(pieces[k])
    ensures Even(Joined(pieces, sep))
  {
    var k := |pieces| - 1;
    if k > 0 {
      JoinedIsEven(pieces[..k], sep);
      QuotesConcat(Joined(pieces[..k], sep), [sep]);
      QuotesConcat(Joined(pieces[..k], sep) + [sep], pieces[k]);
      assert [sep][..0] == "" && Quotes([sep]) == 0;
    }
  }

  /** All but the last piece of a split form a split of the text before the last cut. */
  lemma SplitInit(s: string, sep: char, pieces: seq<string>)
    requires IsSplit(s, sep, pieces) && |pieces| > 1 && sep != QUOTE
    ensures var init, last := pieces[..|pieces| - 1], pieces[|pieces| - 1];
            var head := Joined(init, sep);
            && IsSplit(head, sep, init) && Even(head) && Even(head + [sep])
            && s == head + [sep] + last && Atomic(last, sep)
  {
    var init := pieces[..|pieces| - 1];
    JoinedIsEven(init, sep);
    QuotesConcat(Joined(init, sep), [sep]);
    assert [sep][..0] == "" && Quotes([sep]) == 0;
  }

  /** Where cut k falls: after the first k + 1 pieces. */
  function CutAt(pieces: seq<string>, sep: char, k: nat): nat
    requires k < |pieces|
  {
    |Joined(pieces[..k + 1], sep)|
  }

  /** The last cut of a split is at a top-level separator, and none follows it. */
  lemma LastCut(s: string, sep: char, pieces: seq<string>)
    requires IsSplit(s, sep, pieces) && |pieces| > 1 && sep != QUOTE
    ensures var p := CutAt(pieces, sep, |pieces| - 2);
            && p < |s| && TopLevel(s, sep, p)
            && forall i :: p < i < |s| ==> !TopLevel(s, sep, i)
  {
    SplitInit(s, sep, pieces);
    var head, last := Joined(pieces[..|pieces| - 1], sep), pieces[|pieces| - 1];
    assert s[..|head|] == head;
    forall i | |head| < i < |s| ensures !TopLevel(s, sep, i) {
      TopLevelInConcat(head + [sep], last, sep, i);
      assert !TopLevel(last, sep, i - |head| - 1);
    }
  }

  lemma {:induction false} CutsAreTopLevel(s: string, sep: char, pieces: seq<string>, i: nat)
    requires IsSplit(s, sep, pieces) && sep != QUOTE && i < |s|
    ensures TopLevel(s, sep, i) <==> exists k :: 0 <= k < |pieces| - 1 && CutAt(pieces, sep, k) == i
    decreases |pieces|
  {
    if |pieces| == 1 {
      assert !TopLevel(pieces[0], sep, i);
    } else {
      var init := pieces[..|pieces| - 1];
      var head := Joined(init, sep);
      SplitInit(s, sep, pieces);
      LastCut(s, sep, pieces);
      assert CutAt(pieces, sep, |pieces| - 2) == |head|;
      forall k | 0 <= k < |pieces| - 2 ensures CutAt(pieces, sep, k) == CutAt(init, sep, k) < |head| {
        assert pieces[..k + 1] == init[..k + 1];
        CutInside(init, sep, k);
      }
      if i < |head| {
        assert s == head + ([sep] + pieces[|pieces| - 1]);
        TopLevelInConcat(head, [sep] + pieces[|pieces| - 1], sep, i);
        CutsAreTopLevel(head, sep, init, i);
        if TopLevel(s, sep, i) {
          var k :| 0 <= k < |init| - 1 && CutAt(init, sep, k) == i;
          assert CutAt(pieces, sep, k) == i;
        }
      }
    }
  }

  lemma {:induction false} QuotesAreCounted(s: string)
    ensures Quotes(s) == multiset(s)['"']
  {
    if s != "" {
      var k := |s| - 1;
      QuotesAreCounted(s[..k]);
      assert s == s[..k] + [s[k]];
    }
  }

  /** The cuts are exactly the separators preceded by an even number of double quotes. */
  lemma CutsAreTopLevelSeparators(s: string, sep: char, pieces: seq<string>, i: nat)
    requires IsSplit(s, sep, pieces) && sep != '"' && i < |s|
    ensures s[i] == sep && multiset(s[..i])['"'] % 2 == 0 <==>
            exists k :: 0 <= k < |pieces| - 1 && CutAt(pieces, sep, k) == i
  {
    CutsAreTopLevel(s, sep, pieces, i);
    QuotesAreCounted(s[..i]);
  }

  lemma {:induction false} CutInside(pieces: seq<string>, sep: char, k: nat)
    requires k < |pieces| - 1
    ensures CutAt(pieces, sep, k) < |Joined(pieces, sep)|
    decreases |pieces|
  {
    var init := pieces[..|pieces| - 1];
    if k < |pieces| - 2 {
      CutInside(init, sep, k);
      assert pieces[..k + 1] == init[..k + 1];
    }
  }

  lemma OnePieceIffAtomic(s: string, sep: char, pieces: seq<string>)
    requires IsSplit(s, sep, pieces) && sep != QUOTE
    ensures |pieces| == 1 <==> Atomic(s, sep)
  {
    if |pieces| > 1 {
      LastCut(s, sep, pieces);
    }
  }

  /** A text has one split. */
  lemma {:induction false} SplitIsUnique(s: string, sep: char, a: seq<string>, b: seq<string>)
    requires IsSplit(s, sep, a) && IsSplit(s, sep, b) && sep != QUOTE
    ensures a == b
    decreases |a|
  {
    OnePieceIffAtomic(s, sep, a);
    OnePieceIffAtomic(s, sep, b);
    if |a| > 1 {
      LastCut(s, sep, a);
      LastCut(s, sep, b);
      SplitInit(s, sep, a);
      SplitInit(s, sep, b);
      var p := CutAt(a, sep, |a| - 2);
      assert CutAt(b, sep, |b| - 2) == p;
      var ha, hb := Joined(a[..|a| - 1], sep), Joined(b[..|b| - 1], sep);
      assert ha == s[..p] == hb;
      assert a[|a| - 1] == s[p + 1..] == b[|b| - 1];
      SplitIsUnique(ha, sep, a[..|a| - 1], b[..|b| - 1]);
      assert a == a[..|a| - 1] + [a[|a| - 1]] && b == b[..|b| - 1] + [b[|b| - 1]];
    }
  }

  /** Splitting a piece again returns it alone. */
  lemma PiecesAreFinal(s: string, sep: char, pieces: seq<string>, k: nat, again: seq<string>)
    requires IsSplit(s, sep, pieces) && k < |pieces| && sep != QUOTE
    requires IsSplit(pieces[k], sep, again)
    ensures again == [pieces[k]]
  {
    assert IsSplit(pieces[k], sep, [pieces[k]]);
    SplitIsUnique(pieces[k], sep, again, [pieces[k]]);
  }
}
