/**
 Finding and replacing a site block by counting braces (find_block and the splice in main,
 deploy/swap-caddy-block.py).
 */
module CaddyBlock {

  predicate IsBlank(c: char) {
    c == ' ' || c == '\t'
  }

  /** The characters \s stands for in a pattern over text. */
  predicate IsSpace(c: char) {
    || '\t' <= c <= '\r' || '\U{1c}' <= c <= ' ' || c == '\U{85}' || c == '\U{a0}' || c == '\U{1680}'
    || '\U{2000}' <= c <= '\U{200a}' || c == '\U{2028}' || c == '\U{2029}' || c == '\U{202f}'
    || c == '\U{205f}' || c == '\U{3000}'
  }

  predicate LineStart(text: string, p: nat)
    requires p <= |text|
  {
    p == 0 || text[p - 1] == '\n'
  }

  predicate AllBlank(text: string, from: nat, to: nat)
    requires from <= to <= |text|
  {
    forall k :: from <= k < to ==> IsBlank(text[k])
  }

  predicate AllSpace(text: string, from: nat, to: nat)
    requires from <= to <= |text|
  {
    forall k :: from <= k < to ==> IsSpace(text[k])
  }

  /** The header pattern matches at p: blanks up to j, the site name, white space up to q, and the brace at q. */
  predicate HeaderAt(text: string, site: string, p: nat, j: nat, q: nat) {
    && p <= j
    && NameAt(text, site, j, q)
    && LineStart(text, p)
    && AllBlank(text, p, j)
  }

  /** The site name at j, white space up to q, and the brace at q. */
  predicate NameAt(text: string, site: string, j: nat, q: nat) {
    && j + |site| <= q < |text|
    && text[j..j + |site|] == site
    && AllSpace(text, j + |site|, q)
    && text[q] == '{'
  }

  /** The pattern matches at p and its brace is at q. */
  ghost predicate Header(text: string, site: string, p: nat, q: nat) {
    exists j: nat :: HeaderAt(text, site, p, j, q)
  }

  ghost predicate HasHeader(text: string, site: string, p: nat) {
    exists q: nat :: Header(text, site, p, q)
  }

  /** The first match: at p, with its brace at q. */
  ghost predicate FirstHeader(text: string, site: string, p: nat, q: nat) {
    Header(text, site, p, q) && forall p': nat :: p' < p ==> !HasHeader(text, site, p')
  }

  // ---------- braces ----------

  function Delta(c: char): int {
    if c == '{' then 1 else if c == '}' then -1 else 0
  }

  function Depth(s: string): int {
    if s == "" then 0 else Depth(s[..|s| - 1]) + Delta(s[|s| - 1])
  }

  /** The depth, counted from the brace at q, first returns to zero with the brace at e. */
  predicate Closes(text: string, q: nat, e: nat) {
    && q <= e < |text|
    && Depth(text[q..e + 1]) == 0
    && forall k :: q < k <= e ==> Depth(text[q..k]) > 0
  }

  /** The end of the block that closes at e: a newline right after the brace belongs to it. */
  function EndAfter(text: string, e: nat): nat {
    if e + 1 < |text| && text[e + 1] == '\n' then e + 2 else e + 1
  }

  /** The block whose brace is at q ends at b. */
  ghost predicate EndsAt(text: string, q: nat, b: nat) {
    exists e: nat :: Closes(text, q, e) && b == EndAfter(text, e)
  }

  datatype Outcome = NotFound | Unbalanced | Found(start: nat, end: nat)

  /** What the search answers once the first header is known. */
  ghost predicate FollowsFrom(text: string, p: nat, q: nat, r: Outcome) {
    match r
    case NotFound => false
    case Unbalanced => forall b: nat :: !EndsAt(text, q, b)
    case Found(a, b) => a == p && EndsAt(text, q, b)
  }

  /** What the search for a block must answer. */
  ghost predicate IsOutcome(text: string, site: string, r: Outcome) {
    if r.NotFound? then forall p: nat :: !HasHeader(text, site, p)
    else exists p: nat, q: nat :: FirstHeader(text, site, p, q) && FollowsFrom(text, p, q, r)
  }

  // ---------- the search ----------

  /** Tries the pattern at one place, giving back blanks one by one. */
  method MatchHeader(text: string, site: string, p: nat) returns (ok: bool, q: nat)
    requires p <= |text|
    ensures ok <==> HasHeader(text, site, p)
    ensures ok ==> Header(text, site, p, q)
  {
    if !LineStart(text, p) {
      return false, 0;
    }
    var end := p;
    while end < |text| && IsBlank(text[end])
      invariant p <= end <= |text|
      invariant AllBlank(text, p, end)
    {
      end := end + 1;
    }
    var j := end;
    ok, q := MatchName(text, site, j);
    while !ok && p < j
      invariant p <= j <= end
      invariant ok ==> NameAt(text, site, j, q)
      invariant !ok ==> forall k: nat, x: nat :: j <= k <= end ==> !NameAt(text, site, k, x)
    {
      j := j - 1;
      ok, q := MatchName(text, site, j);
    }
    if ok {
      assert HeaderAt(text, site, p, j, q);
      assert Header(text, site, p, q);
    } else {
      NoHeader(text, site, p, end);
    }
  }

  method MatchName(text: string, site: string, j: nat) returns (ok: bool, q: nat)
    requires j <= |text|
    ensures ok <==> exists x: nat :: NameAt(text, site, j, x)
    ensures ok ==> NameAt(text, site, j, q)
  {
    if j + |site| > |text| || text[j..j + |site|] != site {
      return false, 0;
    }
    q := j + |site|;
    while q < |text| && IsSpace(text[q])
      invariant j + |site| <= q <= |text|
      invariant AllSpace(text, j + |site|, q)
    {
      q := q + 1;
    }
    ok := q < |text| && text[q] == '{';
    if ok {
      assert NameAt(text, site, j, q);
    } else {
      NoBrace(text, site, j, q);
    }
  }

  lemma NoBrace(text: string, site: string, j: nat, q: nat)
    requires j + |site| <= q <= |text| && AllSpace(text, j + |site|, q)
    requires q < |text| ==> !IsSpace(text[q]) && text[q] != '{'
    ensures forall x: nat :: !NameAt(text, site, j, x)
  {
    assert !IsSpace('{');
    forall x: nat ensures !NameAt(text, site, j, x) {
      if j + |site| <= x < |text| && text[x] == '{' {
        assert q < x;
        assert !AllSpace(text, j + |site|, x);
      }
    }
  }

  lemma NoHeader(text: string, site: string, p: nat, end: nat)
    requires p <= end <= |text| && AllBlank(text, p, end)
    requires end < |text| ==> !IsBlank(text[end])
    requires forall k: nat, x: nat :: p <= k <= end ==> !NameAt(text, site, k, x)
    ensures !HasHeader(text, site, p)
  {
    forall j: nat, q: nat ensures !HeaderAt(text, site, p, j, q) {
    }
  }

  method FindBlock(text: string, site: string) returns (r: Outcome)
    ensures IsOutcome(text, site, r)
    ensures r.Found? ==> r.start <= r.end <= |text|
  {
    var p: nat := 0;
    var ok: bool, q: nat := MatchHeader(text, site, 0);
    while !ok && p < |text|
      invariant p <= |text|
      invariant ok <==> HasHeader(text, site, p)
      invariant ok ==> Header(text, site, p, q)
      invariant forall p': nat :: p' < p ==> !HasHeader(text, site, p')
    {
      p := p + 1;
      ok, q := MatchHeader(text, site, p);
    }
    if !ok {
      NoHeaderBeyond(text, site);
      return NotFound;
    }
    assert FirstHeader(text, site, p, q);
    r := ScanBlock(text, p, q);
    assert IsOutcome(text, site, r);
  }

  lemma NoHeaderBeyond(text: string, site: string)
    ensures forall p: nat :: p > |text| ==> !HasHeader(text, site, p)
  {
  }

  /** Counts braces from the one at q. */
  method ScanBlock(text: string, p: nat, q: nat) returns (r: Outcome)
    requires p <= q < |text| && text[q] == '{'
    ensures FollowsFrom(text, p, q, r)
    ensures r.Found? ==> r.start <= r.end <= |text|
  {
    var depth := 0;
    var i := q;
    while i < |text|
      invariant q <= i <= |text|
      invariant depth == Depth(text[q..i])
      invariant forall k :: q < k <= i ==> Depth(text[q..k]) > 0
    {
      DepthNext(text, q, i);
      var c := text[i];
      if c == '{' {
        depth := depth + 1;
      } else if c == '}' {
        depth := depth - 1;
        if depth == 0 {
          assert Closes(text, q, i);
          assert EndsAt(text, q, EndAfter(text, i));
          return Found(p, EndAfter(text, i));
        }
      }
      i := i + 1;
    }
    return Unbalanced;
  }

  lemma DepthNext(text: string, q: nat, i: nat)
    requires q <= i < |text|
    ensures Depth(text[q..i + 1]) == Depth(text[q..i]) + Delta(text[i])
  {
    assert text[q..i + 1][..i - q] == text[q..i];
  }

  // ---------- the answer is determined ----------

  lemma FirstHeaderIsUnique(text: string, site: string, p: nat, q: nat, p': nat, q': nat)
    requires FirstHeader(text, site, p, q) && FirstHeader(text, site, p', q')
    ensures p == p' && q == q'
  {
    assert HasHeader(text, site, p) && HasHeader(text, site, p');
    assert p == p';
    var j: nat :| HeaderAt(text, site, p, j, q);
    var j': nat :| HeaderAt(text, site, p, j', q');
    if j <= j' {
      BraceIsUnique(text, site, p, j, q, j', q');
    } else {
      BraceIsUnique(text, site, p, j', q', j, q);
    }
  }

  /** However the blanks are shared between the margin and the name, the brace is the same. */
  lemma BraceIsUnique(text: string, site: string, p: nat, j: nat, q: nat, j': nat, q': nat)
    requires HeaderAt(text, site, p, j, q) && HeaderAt(text, site, p, j', q') && j <= j'
    ensures q == q'
  {
    assert !IsSpace('{');
    if j < j' {
      forall k | 0 <= k < |site| ensures IsBlank(site[k]) {
        ShiftedNameIsBlank(text, site, p, j, j', k);
      }
      forall k | j <= k < j + |site| ensures IsSpace(text[k]) {
        assert text[j..j + |site|][k - j] == site[k - j];
      }
      forall k | j' <= k < j' + |site| ensures IsSpace(text[k]) {
        assert text[j'..j' + |site|][k - j'] == site[k - j'];
      }
    }
  }

  /** A name that matches at two places of one margin is made of blanks. */
  lemma {:induction false} ShiftedNameIsBlank(text: string, site: string, p: nat, j: nat, j': nat, k: nat)
    requires p <= j < j' <= j' + |site| <= |text| && AllBlank(text, p, j') && k < |site|
    requires text[j..j + |site|] == site && text[j'..j' + |site|] == site
    ensures IsBlank(site[k])
  {
    assert text[j + k] == text[j..j + |site|][k];
    if j + k >= j' {
      ShiftedNameIsBlank(text, site, p, j, j', j + k - j');
      assert text[j + k] == text[j'..j' + |site|][j + k - j'];
    }
  }

  /** The outcome is a function of the text: where the first header is, and where its braces first balance. */
  lemma OutcomeIsUnique(text: string, site: string, r: Outcome, r': Outcome)
    requires IsOutcome(text, site, r) && IsOutcome(text, site, r')
    ensures r == r'
  {
    if !r.NotFound? && !r'.NotFound? {
      var p: nat, q: nat :| FirstHeader(text, site, p, q) && FollowsFrom(text, p, q, r);
      var p': nat, q': nat :| FirstHeader(text, site, p', q') && FollowsFrom(text, p', q', r');
      FirstHeaderIsUnique(text, site, p, q, p', q');
      EndIsUnique(text, q);
    } else {
      OutcomeHasHeader(text, site, r);
      OutcomeHasHeader(text, site, r');
    }
  }

  lemma EndIsUnique(text: string, q: nat)
    ensures forall b: nat, b': nat :: EndsAt(text, q, b) && EndsAt(text, q, b') ==> b == b'
  {
    forall e: nat, e': nat | Closes(text, q, e) && Closes(text, q, e') ensures e == e' {
      if e < e' {
        ClosesOnce(text, q, e, e');
      } else if e' < e {
        ClosesOnce(text, q, e', e);
      }
    }
  }

  lemma ClosesOnce(text: string, q: nat, e: nat, later: nat)
    requires Closes(text, q, e) && e < later
    ensures !Closes(text, q, later)
  {
    assert !(Depth(text[q..e + 1]) > 0);
  }

  lemma OutcomeHasHeader(text: string, site: string, r: Outcome)
    requires IsOutcome(text, site, r)
    ensures r.NotFound? <==> forall p: nat :: !HasHeader(text, site, p)
  {
    if !r.NotFound? {
      var p: nat, q: nat :| FirstHeader(text, site, p, q) && FollowsFrom(text, p, q, r);
      assert HasHeader(text, site, p);
    }
  }

  /** The removed span: from the header to a closing brace where the depth returns to zero, and to no earlier one. */
  lemma RemovedSpanBalances(text: string, site: string, a: nat, b: nat) returns (q: nat, e: nat)
    requires IsOutcome(text, site, Found(a, b))
    ensures a <= q < e < b <= |text|
    ensures Header(text, site, a, q) && text[e] == '}' && Closes(text, q, e)
    ensures b == e + 1 || (b == e + 2 && text[e + 1] == '\n')
    ensures b == e + 1 && b < |text| ==> text[b] != '\n'
  {
    var p: nat;
    p, q :| FirstHeader(text, site, p, q) && FollowsFrom(text, p, q, Found(a, b));
    e :| Closes(text, q, e) && b == EndAfter(text, e);
    ClosingBrace(text, q, e);
  }

  lemma ClosingBrace(text: string, q: nat, e: nat)
    requires Closes(text, q, e) && text[q] == '{'
    ensures q < e && text[e] == '}'
  {
    DepthNext(text, q, q);
    assert text[q..q] == "";
    DepthNext(text, q, e);
    assert q < e ==> Depth(text[q..e]) > 0;
  }

  // ---------- replacing the block ----------

  function Splice(text: string, a: nat, b: nat, block: string): string
    requires a <= b <= |text|
  {
    text[..a] + block + text[b..]
  }

  /** Text outside the removed span is kept. */
  lemma SpliceKeepsTheRest(text: string, a: nat, b: nat, block: string)
    requires a <= b <= |text|
    ensures var out := Splice(text, a, b, block);
            && |out| == a + |block| + (|text| - b)
            && out[..a] == text[..a] && out[a..a + |block|] == block && out[a + |block|..] == text[b..]
  {
  }

  /** A name that starts at the margin and stays on its line. */
  predicate IsSite(site: string) {
    site != "" && !IsSpace(site[0]) && site[0] != '{' && '\n' !in site
  }

  /** A replacement block: the site's header at its very start, closed by its last brace, then a newline. */
  ghost predicate IsBlockWith(block: string, site: string, q: nat) {
    && |block| >= 2
    && block[|block| - 1] == '\n'
    && HeaderAt(block, site, 0, 0, q)
    && Closes(block, q, |block| - 2)
  }

  ghost predicate IsBlock(block: string, site: string) {
    exists q: nat :: IsBlockWith(block, site, q)
  }

  /** A header of the new text that starts before the block also ends before it, so it is a header of the old text. */
  lemma EarlierHeaderIsOld(text: string, site: string, a: nat, b: nat, block: string, p: nat, j: nat, q: nat)
    requires IsSite(site) && a <= b <= |text| && LineStart(text, a) && |block| > 0 && block[0] == site[0]
    requires p < a && HeaderAt(Splice(text, a, b, block), site, p, j, q)
    ensures HeaderAt(text, site, p, j, q)
  {
    var out := Splice(text, a, b, block);
    assert forall k :: 0 <= k < a ==> out[k] == text[k];
    assert out[a] == block[0] && out[a - 1] == '\n';
    NameMissesNewline(out, site, p, j, q, a - 1);
    assert q < a;
    assert out[j..j + |site|] == text[j..j + |site|];
  }

  /** A header that starts before a newline followed by the site's first character ends before that character. */
  lemma NameMissesNewline(out: string, site: string, p: nat, j: nat, q: nat, n: nat)
    requires IsSite(site) && HeaderAt(out, site, p, j, q)
    requires p <= n && n + 1 < |out| && out[n] == '\n' && out[n + 1] == site[0]
    ensures q <= n
  {
    assert !IsBlank('\n');
    forall k | j <= k < j + |site| ensures out[k] != '\n' {
      assert out[k] == out[j..j + |site|][k - j] == site[k - j];
      assert site[k - j] in site;
    }
    assert !IsSpace(site[0]);
  }

  lemma BlockSlice(text: string, a: nat, b: nat, block: string, i: nat, k: nat)
    requires a <= b <= |text| && i <= k <= |block|
    ensures a + k <= |Splice(text, a, b, block)|
    ensures Splice(text, a, b, block)[a + i..a + k] == block[i..k]
  {
  }

  /** The block, where it was put, is a header whose braces close at the block's own last brace. */
  lemma BlockHasHeader(text: string, site: string, a: nat, b: nat, block: string, q: nat)
    requires a <= b <= |text| && LineStart(text, a) && HeaderAt(block, site, 0, 0, q)
    ensures HeaderAt(Splice(text, a, b, block), site, a, a, a + q)
  {
    var out := Splice(text, a, b, block);
    assert forall k :: 0 <= k < a ==> out[k] == text[k];
    BlockSlice(text, a, b, block, 0, |site|);
    BlockSlice(text, a, b, block, 0, |block|);
    forall k | a + |site| <= k <= a + q ensures out[k] == block[k - a] {
      assert out[a..a + |block|][k - a] == out[k];
    }
  }

  lemma BlockCloses(text: string, a: nat, b: nat, block: string, q: nat, e: nat)
    requires a <= b <= |text| && Closes(block, q, e)
    ensures Closes(Splice(text, a, b, block), a + q, a + e)
  {
    var out := Splice(text, a, b, block);
    BlockSlice(text, a, b, block, q, e + 1);
    var q' := a + q;
    forall k | q' < k <= a + e ensures Depth(out[q'..k]) > 0 {
      BlockSlice(text, a, b, block, q, k - a);
      assert Depth(block[q..k - a]) > 0;
    }
  }

  /** In the new text the first match is the new block itself. */
  lemma FirstMatchIsTheBlock(text: string, site: string, a: nat, b: nat, block: string, q: nat)
    requires IsSite(site) && IsBlockWith(block, site, q)
    requires a <= b <= |text| && LineStart(text, a)
    requires forall p: nat :: p < a ==> !HasHeader(text, site, p)
    ensures FirstHeader(Splice(text, a, b, block), site, a, a + q)
  {
    var out := Splice(text, a, b, block);
    BlockHasHeader(text, site, a, b, block, q);
    assert block[0] == block[0..0 + |site|][0];
    assert Header(out, site, a, a + q);
    forall p: nat | p < a ensures !HasHeader(out, site, p) {
      if HasHeader(out, site, p) {
        EarlierMatchIsOld(text, site, a, b, block, p);
      }
    }
  }

  lemma EarlierMatchIsOld(text: string, site: string, a: nat, b: nat, block: string, p: nat)
    requires IsSite(site) && a <= b <= |text| && LineStart(text, a) && |block| > 0 && block[0] == site[0]
    requires p < a && HasHeader(Splice(text, a, b, block), site, p)
    ensures HasHeader(text, site, p)
  {
    var q: nat :| Header(Splice(text, a, b, block), site, p, q);
    var j: nat :| HeaderAt(Splice(text, a, b, block), site, p, j, q);
    EarlierHeaderIsOld(text, site, a, b, block, p, j, q);
    assert Header(text, site, p, q);
  }

  lemma BlockIsTheOutcome(text: string, site: string, a: nat, b: nat, block: string)
    requires IsSite(site) && IsBlock(block, site)
    requires a <= b <= |text| && IsOutcome(text, site, Found(a, b))
    ensures IsOutcome(Splice(text, a, b, block), site, Found(a, a + |block|))
  {
    var out := Splice(text, a, b, block);
    var p: nat, q0: nat :| FirstHeader(text, site, p, q0) && FollowsFrom(text, p, q0, Found(a, b));
    var q: nat :| IsBlockWith(block, site, q);
    FirstMatchIsTheBlock(text, site, a, b, block, q);
    BlockEnds(text, site, a, b, block, q);
    assert FollowsFrom(out, a, a + q, Found(a, a + |block|));
  }

  lemma BlockEnds(text: string, site: string, a: nat, b: nat, block: string, q: nat)
    requires a <= b <= |text| && IsBlockWith(block, site, q)
    ensures EndsAt(Splice(text, a, b, block), a + q, a + |block|)
  {
    var out := Splice(text, a, b, block);
    var e: nat := a + |block| - 2;
    BlockCloses(text, a, b, block, q, |block| - 2);
    SpliceKeepsTheRest(text, a, b, block);
    assert out[e + 1] == out[a..a + |block|][|block| - 1] == '\n';
    assert EndAfter(out, e) == a + |block|;
  }

  /** Swapping is idempotent: the new text's first match spans exactly the new block. */
  lemma SwapIsIdempotent(text: string, site: string, a: nat, b: nat, block: string, r: Outcome)
    requires IsSite(site) && IsBlock(block, site)
    requires a <= b <= |text| && IsOutcome(text, site, Found(a, b))
    requires IsOutcome(Splice(text, a, b, block), site, r)
    ensures r == Found(a, a + |block|)
    ensures a + |block| <= |Splice(text, a, b, block)|
    ensures Splice(Splice(text, a, b, block), a, a + |block|, block) == Splice(text, a, b, block)
  {
    BlockIsTheOutcome(text, site, a, b, block);
    OutcomeIsUnique(Splice(text, a, b, block), site, r, Found(a, a + |block|));
    SpliceKeepsTheRest(text, a, b, block);
  }

  // ---------- the block the script writes ----------

  function Braced(body: string): string {
    "{" + body + "}"
  }

  const SITE := "ip.unt1.com"

  const NEW_BLOCK := SITE + " " + Braced(BODY) + "\n"

  const BODY := PREAMBLE + Braced(HEADER) + COMMENT + PROXY + Braced(UPSTREAM) + "\n"

  /** Text without braces. */
  type Plain = s: string | '{' !in s && '}' !in s

  const PREAMBLE: Plain := "\n\tencode gzip\n\theader "
  const HEADER: Plain := SERVER + REFERRER + CONTENT_TYPE + NOSNIFF
  const SERVER: Plain := "\n\t\t-Server"
  const REFERRER: Plain := "\n\t\tReferrer-Policy \"no-referrer\""
  const CONTENT_TYPE: Plain := "\n\t\tX-Content-Type-Options "
  const NOSNIFF: Plain := "\"nosniff\"\n\t"
  const COMMENT: Plain := FORWARD + TO_SERVICE + COUNTRY + UNCHANGED
  const FORWARD: Plain := "\n\n\t# Forward everything to the "
  const TO_SERVICE: Plain := "local Go service. CF-Connecting-IP /"
  const COUNTRY: Plain := "\n\t# CF-IPCountry / CF-Ray pass "
  const UNCHANGED: Plain := "through unchanged from Cloudflare."
  const PROXY: Plain := "\n\treverse_proxy 127.0.0.1:8080 "
  const UPSTREAM := HOST + Braced("host") + REAL_IP + Braced("remote_host") + "\n\t"
  const HOST: Plain := "\n\t\theader_up Host "
  const REAL_IP: Plain := "\n\t\theader_up X-Real-IP "

  /** Every brace in s closes in s. */
  ghost predicate Balanced(s: string) {
    Depth(s) == 0 && forall k :: 0 <= k <= |s| ==> Depth(s[..k]) >= 0
  }

  lemma {:induction false} DepthConcat(a: string, b: string)
    ensures Depth(a + b) == Depth(a) + Depth(b)
  {
    if b == "" {
      assert a + b == a;
    } else {
      DepthConcat(a, b[..|b| - 1]);
      assert (a + b)[..|a + b| - 1] == a + b[..|b| - 1];
    }
  }

  lemma Concat(a: string, b: string)
    requires Balanced(a) && Balanced(b)
    ensures Balanced(a + b)
  {
    DepthConcat(a, b);
    forall k | 0 <= k <= |a + b| ensures Depth((a + b)[..k]) >= 0 {
      if k <= |a| {
        assert (a + b)[..k] == a[..k];
      } else {
        assert (a + b)[..k] == a + b[..k - |a|];
        DepthConcat(a, b[..k - |a|]);
      }
    }
  }

  lemma BracedDepth(body: string)
    ensures Depth("{" + body) == 1 + Depth(body)
    ensures Depth(Braced(body)) == Depth(body)
  {
    assert "{"[..0] == "" && "}"[..0] == "";
    assert Depth("{") == 1 && Depth("}") == -1;
    DepthConcat("{", body);
    DepthConcat("{" + body, "}");
  }

  /** Inside its braces a balanced text never returns to depth zero. */
  lemma BracedPrefix(body: string, k: nat)
    requires Balanced(body) && 0 < k < |Braced(body)|
    ensures Depth(Braced(body)[..k]) > 0
  {
    assert Braced(body)[..k] == "{" + body[..k - 1];
    BracedDepth(body[..k - 1]);
  }

  lemma BracedIsBalanced(body: string)
    requires Balanced(body)
    ensures Balanced(Braced(body))
  {
    BracedDepth(body);
    var s := Braced(body);
    forall k | 0 <= k <= |s| ensures Depth(s[..k]) >= 0 {
      if k == |s| {
        assert s[..k] == s;
      } else if k > 0 {
        BracedPrefix(body, k);
      }
    }
  }

  lemma {:induction false} PlainIsBalanced(s: Plain)
    ensures Balanced(s)
  {
    if s != "" {
      var k := |s| - 1;
      assert s[k] in s;
      PlainIsBalanced(s[..k]);
      forall i | 0 <= i <= |s| ensures Depth(s[..i]) >= 0 {
        if i <= k {
          assert s[..i] == s[..k][..i];
        } else {
          assert s[..i] == s;
        }
      }
    }
  }

  lemma UpstreamIsBalanced()
    ensures Balanced(UPSTREAM)
  {
    PlainIsBalanced(HOST);
    PlainIsBalanced("host");
    BracedIsBalanced("host");
    Concat(HOST, Braced("host"));
    PlainIsBalanced(REAL_IP);
    Concat(HOST + Braced("host"), REAL_IP);
    PlainIsBalanced("remote_host");
    BracedIsBalanced("remote_host");
    Concat(HOST + Braced("host") + REAL_IP, Braced("remote_host"));
    PlainIsBalanced("\n\t");
    Concat(HOST + Braced("host") + REAL_IP + Braced("remote_host"), "\n\t");
  }

  lemma BodyIsBalanced()
    ensures Balanced(BODY)
  {
    PlainIsBalanced(PREAMBLE);
    PlainIsBalanced(HEADER);
    BracedIsBalanced(HEADER);
    Concat(PREAMBLE, Braced(HEADER));
    PlainIsBalanced(COMMENT);
    Concat(PREAMBLE + Braced(HEADER), COMMENT);
    PlainIsBalanced(PROXY);
    Concat(PREAMBLE + Braced(HEADER) + COMMENT, PROXY);
    UpstreamIsBalanced();
    BracedIsBalanced(UPSTREAM);
    Concat(PREAMBLE + Braced(HEADER) + COMMENT + PROXY, Braced(UPSTREAM));
    PlainIsBalanced("\n");
    Concat(PREAMBLE + Braced(HEADER) + COMMENT + PROXY + Braced(UPSTREAM), "\n");
  }

  /** The site's name, a space, and a balanced body in braces: a replacement block. */
  lemma BodyMakesBlock(site: string, body: string)
    requires Balanced(body)
    ensures IsBlock(site + " " + Braced(body) + "\n", site)
  {
    var block := site + " " + Braced(body) + "\n";
    var q, e := |site| + 1, |block| - 2;
    assert block[0..0 + |site|] == site;
    assert HeaderAt(block, site, 0, 0, q);
    forall k | q < k <= e ensures Depth(block[q..k]) > 0 {
      assert block[q..k] == Braced(body)[..k - q];
      BracedPrefix(body, k - q);
    }
    assert block[q..e + 1] == Braced(body);
    BracedDepth(body);
    assert IsBlockWith(block, site, q);
  }

  /** The script's own block qualifies, so running the script on its own output changes nothing. */
  lemma ScriptBlockQualifies()
    ensures IsSite(SITE) && IsBlock(NEW_BLOCK, SITE)
  {
    BodyIsBalanced();
    BodyMakesBlock(SITE, BODY);
    SiteNameQualifies();
  }

  lemma SiteNameQualifies()
    ensures IsSite(SITE)
  {
  }
}
