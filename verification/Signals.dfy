/**
 The Source field of a verdict: signal names joined with '+', grown one at a time (appendSource, vpn.go).
 */
module Signals {

  datatype Signal = IpList | IpPrefix | Cidr | Asn | AsnHosting | Rdns | Whois {
    function Name(): string {
      match this
      case IpList => "ip-list"
      case IpPrefix => "ip-prefix"
      case Cidr => "cidr"
      case Asn => "asn"
      case AsnHosting => "asn-hosting"
      case Rdns => "rdns"
      case Whois => "whois"
    }

    /** The step of the classification that raises it; a step raises at most one. */
    function Stage(): nat {
      match this
      case IpList => 0
      case IpPrefix => 0
      case Cidr => 1
      case Asn => 2
      case AsnHosting => 2
      case Rdns => 3
      case Whois => 4
    }
  }

  /** Signals in the order of the steps, at most one a step: so no signal occurs twice. */
  predicate InOrder(ss: seq<Signal>) {
    forall i, j :: 0 <= i < j < |ss| ==> ss[i].Stage() < ss[j].Stage()
  }

  // ---------- splitting and joining ----------

  const PLUS: char := '+'

  function Join(parts: seq<string>): string
    requires parts != []
  {
    var k := |parts| - 1;
    if k == 0 then parts[0] else Join(parts[..k]) + [PLUS] + parts[k]
  }

  /** The library's Split on '+': n separators make n + 1 parts. */
  function Split(s: string): (parts: seq<string>)
    ensures parts != []
  {
    if s == "" then [""]
    else
      var parts, c := Split(s[..|s| - 1]), s[|s| - 1];
      var k := |parts| - 1;
      if c == PLUS then parts + [""] else parts[..k] + [parts[k] + [c]]
  }

  lemma SplitSnoc(s: string, c: char)
    ensures c == PLUS ==> Split(s + [c]) == Split(s) + [""]
    ensures c != PLUS ==>
              Split(s + [c]) == Split(s)[..|Split(s)| - 1] + [Split(s)[|Split(s)| - 1] + [c]]
  {
    assert (s + [c])[..|s|] == s;
  }

  lemma {:induction false} SplitPlain(s: string, head: string)
    requires PLUS !in s
    ensures Split(head + [PLUS] + s) == Split(head) + [s]
  {
    if s == "" {
      SplitSnoc(head, PLUS);
      assert head + [PLUS] + s == head + [PLUS];
    } else {
      var k := |s| - 1;
      var init := head + [PLUS] + s[..k];
      SplitPlain(s[..k], head);
      SplitSnoc(init, s[k]);
      assert s[k] in s;
      assert s[..k] + [s[k]] == s;
      assert head + [PLUS] + s == init + [s[k]];
    }
  }

  lemma {:induction false} SplitOne(s: string)
    requires PLUS !in s
    ensures Split(s) == [s]
  {
    if s != "" {
      var k := |s| - 1;
      SplitOne(s[..k]);
      SplitSnoc(s[..k], s[k]);
      assert s[k] in s;
      assert s[..k] + [s[k]] == s;
    }
  }

  /** Splitting a join recovers the parts. */
  lemma {:induction false} SplitOfJoin(parts: seq<string>)
    requires parts != [] && forall i :: 0 <= i < |parts| ==> PLUS !in parts[i]
    ensures Split(Join(parts)) == parts
  {
    var k := |parts| - 1;
    if k == 0 {
      SplitOne(parts[0]);
      assert parts == [parts[0]];
    } else {
      SplitOfJoin(parts[..k]);
      SplitPlain(parts[k], Join(parts[..k]));
      assert parts == parts[..k] + [parts[k]];
    }
  }

  // ---------- the Source field ----------

  function AppendSource(s: string, more: string): string {
    if s == "" then more
    else if more in Split(s) then s
    else s + "+" + more
  }

  function NamesOf(ss: seq<Signal>): seq<string> {
    seq(|ss|, i requires 0 <= i < |ss| => ss[i].Name())
  }

  /** The Source field that reports the signals. */
  function Rendered(ss: seq<Signal>): string {
    if ss == [] then "" else Join(NamesOf(ss))
  }

  lemma NamesArePlain(x: Signal)
    ensures PLUS !in x.Name() && x.Name() != ""
  {
  }

  lemma NamesDiffer(x: Signal, y: Signal)
    requires x.Name() == y.Name()
    ensures x == y
  {
    assert x.Name()[|x.Name()| - 1] == y.Name()[|y.Name()| - 1];
    assert |x.Name()| == |y.Name()|;
  }

  /** Splitting a reported Source recovers exactly the signals, in order. */
  lemma SourceSplitsIntoSignals(ss: seq<Signal>)
    requires ss != []
    ensures Split(Rendered(ss)) == NamesOf(ss) && Rendered(ss) != ""
  {
    forall i | 0 <= i < |ss| ensures PLUS !in NamesOf(ss)[i] {
      NamesArePlain(ss[i]);
    }
    SplitOfJoin(NamesOf(ss));
    NamesArePlain(ss[0]);
    assert NamesOf(ss)[0] != "";
    assert Rendered(ss) == "" ==> Split(Rendered(ss)) == [""];
  }

  lemma RenderedIsInjective(ss: seq<Signal>, ts: seq<Signal>)
    requires Rendered(ss) == Rendered(ts)
    ensures ss == ts
  {
    if ss != [] {
      SourceSplitsIntoSignals(ss);
    }
    if ts != [] {
      SourceSplitsIntoSignals(ts);
    }
    if ss != [] && ts != [] {
      assert |ss| == |NamesOf(ss)| == |ts|;
      forall i | 0 <= i < |ss| ensures ss[i] == ts[i] {
        assert NamesOf(ss)[i] == NamesOf(ts)[i];
        NamesDiffer(ss[i], ts[i]);
      }
    }
  }

  /** Appending a later signal extends the list by it; appending one again changes nothing. */
  lemma AppendSourceExtends(ss: seq<Signal>, x: Signal)
    ensures AppendSource(Rendered(ss), x.Name()) == Rendered(if x in ss then ss else ss + [x])
  {
    if ss == [] {
      assert NamesOf([x]) == [x.Name()];
    } else {
      SourceSplitsIntoSignals(ss);
      assert x.Name() in NamesOf(ss) <==> x in ss by {
        if x.Name() in NamesOf(ss) {
          var i :| 0 <= i < |ss| && NamesOf(ss)[i] == x.Name();
          NamesDiffer(ss[i], x);
        }
        if x in ss {
          var i :| 0 <= i < |ss| && ss[i] == x;
          assert NamesOf(ss)[i] == x.Name();
        }
      }
      assert NamesOf(ss + [x]) == NamesOf(ss) + [x.Name()];
      assert NamesOf(ss + [x])[..|ss|] == NamesOf(ss);
    }
  }

  lemma AppendSourceAdds(ss: seq<Signal>, x: Signal)
    requires x !in ss
    ensures AppendSource(Rendered(ss), x.Name()) == Rendered(ss + [x])
  {
    AppendSourceExtends(ss, x);
  }
}
