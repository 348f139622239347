/**
 The search for a site block, on the pieces of the text (find_block, deploy/swap-caddy-block.py): where a
 header is found, and where its block ends, with white space and braces counted character by character.
 */
module CaddyTexts {
  import opened CaddyBlock

  /** A line that starts with blanks, the site name, white space and an opening brace; tail is what follows it. */
  ghost predicate IsHeaded(text: string, site: string, head: string, margin: string, gap: string, tail: string) {
    && text == head + margin + site + gap + "{" + tail
    && (head == "" || head[|head| - 1] == '\n')
    && (forall k :: 0 <= k < |margin| ==> margin[k] == ' ' || margin[k] == '\t')
    && forall k :: 0 <= k < |gap| ==> IsWhite(gap[k] as int)
  }

  /** The code points of white space, one by one. */
  predicate IsWhite(c: int) {
    c in {0x9, 0xA, 0xB, 0xC, 0xD, 0x1C, 0x1D, 0x1E, 0x1F, 0x20, 0x85, 0xA0, 0x1680,
          0x2000, 0x2001, 0x2002, 0x2003, 0x2004, 0x2005, 0x2006, 0x2007, 0x2008, 0x2009, 0x200A,
          0x2028, 0x2029, 0x202F, 0x205F, 0x3000}
  }

  lemma SpaceIsWhite(c: char)
    ensures IsSpace(c) <==> IsWhite(c as int)
  {
  }

  function Opens(s: string): nat {
    multiset(s)['{']
  }

  function Closers(s: string): nat {
    multiset(s)['}']
  }

  lemma {:induction false} DepthCounts(s: string)
    ensures Depth(s) == Opens(s) - Closers(s)
  {
    if s != "" {
      var k := |s| - 1;
      DepthCounts(s[..k]);
      assert s == s[..k] + [s[k]];
    }
  }

  /** The first e characters have as many closing braces as opening ones, for the first time. */
  ghost predicate FirstBalance(rest: string, e: nat) {
    && 0 < e <= |rest| && Opens(rest[..e]) == Closers(rest[..e])
    && forall k :: 0 < k < e ==> Opens(rest[..k]) > Closers(rest[..k])
  }

  // ---------- headers ----------

  lemma HeadedIsHeader(text: string, site: string, head: string, margin: string, gap: string, tail: string)
    requires IsHeaded(text, site, head, margin, gap, tail)
    ensures HeaderAt(text, site, |head|, |head + margin|, |head + margin + site + gap|)
    ensures text[|head + margin + site + gap|..] == "{" + tail
  {
    forall k | |head + margin + site| <= k < |head + margin + site + gap| ensures IsSpace(text[k]) {
      assert text[k] == gap[k - |head + margin + site|];
      SpaceIsWhite(text[k]);
    }
  }

  lemma HeaderIsHeaded(text: string, site: string, p: nat, j: nat, q: nat)
    requires HeaderAt(text, site, p, j, q)
    ensures IsHeaded(text, site, text[..p], text[p..j], text[j + |site|..q], text[q + 1..])
  {
    var gap := text[j + |site|..q];
    assert text == text[..p] + text[p..j] + text[j..j + |site|] + gap + [text[q]] + text[q + 1..];
    forall k | 0 <= k < |gap| ensures IsWhite(gap[k] as int) {
      assert gap[k] == text[j + |site| + k];
      SpaceIsWhite(gap[k]);
    }
  }

  // ---------- braces ----------

  lemma ClosesAtFirstBalance(text: string, q: nat, e: nat)
    requires Closes(text, q, e)
    ensures FirstBalance(text[q..], e + 1 - q)
  {
    var rest := text[q..];
    forall k | 0 < k <= e + 1 - q
      ensures rest[..k] == text[q..q + k] && Depth(rest[..k]) == Opens(rest[..k]) - Closers(rest[..k])
    {
      DepthCounts(rest[..k]);
    }
    forall k | 0 < k < e + 1 - q ensures Opens(rest[..k]) > Closers(rest[..k]) {
      assert Depth(text[q..q + k]) > 0;
    }
  }

  /** Where no block ends, the depth never returns to zero. */
  lemma {:induction false} StaysOpen(text: string, q: nat, k: nat)
    requires q < k <= |text| && text[q] == '{' && forall b: nat :: !EndsAt(text, q, b)
    ensures Depth(text[q..k]) > 0
  {
    if k == q + 1 {
      assert text[q..k] == "{" && "{"[..0] == "";
    } else {
      StaysOpen(text, q, k - 1);
      DepthNext(text, q, k - 1);
      if Depth(text[q..k]) == 0 {
        forall i | q < i <= k - 1 ensures Depth(text[q..i]) > 0 {
          StaysOpen(text, q, i);
        }
        assert Closes(text, q, k - 1);
        assert EndsAt(text, q, EndAfter(text, k - 1));
      }
    }
  }

  // ---------- the outcome ----------

  /** No header starts earlier. */
  ghost predicate IsFirstHead(text: string, site: string, head: string) {
    forall h, m, g, t :: IsHeaded(text, site, h, m, g, t) ==> |head| <= |h|
  }

  /** What the search answers about the rest of the text, from the brace on. */
  ghost predicate AnswersFor(text: string, head: string, rest: string, r: Outcome) {
    match r
    case NotFound => false
    case Unbalanced => forall k :: 0 < k <= |rest| ==> Opens(rest[..k]) > Closers(rest[..k])
    case Found(a, b) =>
      a == |head| && exists e: nat :: FirstBalance(rest, e)
                                 && b == |text| - |rest| + e + if e < |rest| && rest[e] == '\n' then 1 else 0
  }

  lemma HeadedHasHeader(text: string, site: string, head: string, margin: string, gap: string, tail: string)
    requires IsHeaded(text, site, head, margin, gap, tail)
    ensures HasHeader(text, site, |head|)
  {
    HeadedIsHeader(text, site, head, margin, gap, tail);
    assert Header(text, site, |head|, |head + margin + site + gap|);
  }

  lemma HeaderSplits(text: string, site: string, p: nat, q: nat) returns (margin: string, gap: string)
    requires Header(text, site, p, q)
    ensures p <= q < |text| && IsHeaded(text, site, text[..p], margin, gap, text[q + 1..])
    ensures text[q..] == "{" + text[q + 1..]
  {
    var j: nat :| HeaderAt(text, site, p, j, q);
    HeaderIsHeaded(text, site, p, j, q);
    margin, gap := text[p..j], text[j + |site|..q];
  }

  lemma AnswerOfHeader(text: string, site: string, p: nat, q: nat, r: Outcome)
    requires Header(text, site, p, q) && FollowsFrom(text, p, q, r)
    ensures AnswersFor(text, text[..p], text[q..], r)
  {
    var rest := text[q..];
    if r.Found? {
      var e: nat :| Closes(text, q, e) && r.end == EndAfter(text, e);
      ClosesAtFirstBalance(text, q, e);
      assert e + 1 < |text| ==> text[e + 1] == rest[e + 1 - q];
      assert FirstBalance(rest, e + 1 - q);
    } else {
      forall k | 0 < k <= |rest| ensures Opens(rest[..k]) > Closers(rest[..k]) {
        StaysOpen(text, q, q + k);
        DepthCounts(rest[..k]);
        assert rest[..k] == text[q..q + k];
      }
    }
  }

  /**
   The first header decides: its block ends after the brace that first balances its own, and one
   newline, unless none ever does.
   */
  lemma FirstHeaderDecides(text: string, site: string, r: Outcome)
    returns (head: string, margin: string, gap: string, tail: string)
    requires IsOutcome(text, site, r) && !r.NotFound?
    ensures IsHeaded(text, site, head, margin, gap, tail) && IsFirstHead(text, site, head)
    ensures AnswersFor(text, head, "{" + tail, r)
  {
    var p: nat, q: nat :| FirstHeader(text, site, p, q) && FollowsFrom(text, p, q, r);
    margin, gap := HeaderSplits(text, site, p, q);
    head, tail := text[..p], text[q + 1..];
    AnswerOfHeader(text, site, p, q, r);
    forall h, m, g, t | IsHeaded(text, site, h, m, g, t) ensures |head| <= |h| {
      HeadedHasHeader(text, site, h, m, g, t);
    }
  }

  /** The search reports that there is no block exactly when no line of the text is a header. */
  lemma NotFoundIffNoLineIsHeader(text: string, site: string, r: Outcome)
    requires IsOutcome(text, site, r)
    ensures r.NotFound? <==> forall head, margin, gap, tail :: !IsHeaded(text, site, head, margin, gap, tail)
  {
    if r.NotFound? {
      forall head, margin, gap, tail ensures !IsHeaded(text, site, head, margin, gap, tail) {
        if IsHeaded(text, site, head, margin, gap, tail) {
          HeadedHasHeader(text, site, head, margin, gap, tail);
        }
      }
    } else {
      var head, margin, gap, tail := FirstHeaderDecides(text, site, r);
    }
  }

  /** A site on a line of its own is found, or a block before it is. */
  lemma SiteLineIsFound(head: string, margin: string, site: string, tail: string, r: Outcome)
    requires forall k :: 0 <= k < |margin| ==> margin[k] == ' ' || margin[k] == '\t'
    requires IsOutcome(head + "\n" + margin + site + " {" + tail, site, r)
    ensures HasHeader(head + "\n" + margin + site + " {" + tail, site, |head| + 1)
    ensures r != NotFound && (r.Found? ==> r.start <= |head| + 1)
  {
    var text := head + "\n" + margin + site + " {" + tail;
    assert text == (head + "\n") + margin + site + " " + "{" + tail;
    assert IsHeaded(text, site, head + "\n", margin, " ", tail);
    HeadedHasHeader(text, site, head + "\n", margin, " ", tail);
    NotFoundIffNoLineIsHeader(text, site, r);
  }
}
