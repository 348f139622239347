/**
 Recording a relay's addresses (addRelayAddr, relay.go): all of them in canonical form, with one endpoint
 shown for each family, its first address.
 */
module Relay {
  import opened Common
  import opened Netip
  import opened Feeds

  /** The first address of a family. */
  ghost predicate IsFirst(addrs: seq<Addr>, is4: bool, o: Option<Addr>) {
    match o
    case None => forall i :: 0 <= i < |addrs| ==> addrs[i].Is4() != is4
    case Some(a) =>
      exists i :: 0 <= i < |addrs| && addrs[i] == a && a.Is4() == is4
                  && forall j :: 0 <= j < i ==> addrs[j].Is4() != is4
  }

  /** The addresses the given texts name, in order and in canonical form; a text that names none is skipped. */
  function Recorded(texts: seq<Option<Addr>>): seq<Addr> {
    if texts == [] then []
    else
      var t, before := texts[|texts| - 1], Recorded(texts[..|texts| - 1]);
      if t.None? then before else before + [CanonicalIP(t.value)]
  }

  predicate AllCanonical(addrs: seq<Addr>) {
    forall i :: 0 <= i < |addrs| ==> Canonical(addrs[i]) && addrs[i].IsValid()
  }

  class RelayRecord {
    const provider: string
    const hostname: string
    const city: string
    const country: string
    const host: string
    var v4: Option<Addr>
    var v6: Option<Addr>
    var addrs: seq<Addr>
    ghost var texts: seq<Option<Addr>>

    ghost predicate Valid()
      reads this
    {
      && addrs == Recorded(texts)
      && AllCanonical(addrs)
      && IsFirst(addrs, true, v4)
      && IsFirst(addrs, false, v6)
    }

    constructor New(provider: string, hostname: string, city: string, country: string, host: string)
      ensures Valid() && texts == []
      ensures Info() == RelayInfo(provider, hostname, city, country, host, None, None, [])
    {
      this.provider, this.hostname, this.city, this.country, this.host := provider, hostname, city, country, host;
      v4, v6, addrs, texts := None, None, [], [];
    }

    function Info(): RelayInfo
      reads this
    {
      RelayInfo(provider, hostname, city, country, host, v4, v6, addrs)
    }

    /** parsed is the address the text names, None when it names none. */
    method AddRelayAddr(parsed: Option<Addr>)
      requires Valid() && (parsed.Some? ==> parsed.value.IsValid())
      modifies this
      ensures Valid() && texts == old(texts) + [parsed]
      ensures addrs == old(addrs) + if parsed.None? then [] else [CanonicalIP(parsed.value)]
      ensures old(v4).Some? ==> v4 == old(v4)
      ensures old(v6).Some? ==> v6 == old(v6)
    {
      RecordedGrows(texts, parsed);
      texts := texts + [parsed];
      if parsed.None? {
        return;
      }
      var a := CanonicalIP(parsed.value);
      CanonicalGrows(addrs, parsed.value);
      FirstGrows(addrs, a, true, v4);
      FirstGrows(addrs, a, false, v6);
      addrs := addrs + [a];
      if a.Is4() {
        if v4.None? {
          v4 := Some(a);
        }
        return;
      }
      if v6.None? {
        v6 := Some(a);
      }
    }
  }

  lemma RecordedGrows(texts: seq<Option<Addr>>, t: Option<Addr>)
    ensures Recorded(texts + [t]) == Recorded(texts) + if t.None? then [] else [CanonicalIP(t.value)]
  {
    assert (texts + [t])[..|texts|] == texts;
  }

  lemma CanonicalGrows(addrs: seq<Addr>, a: Addr)
    requires AllCanonical(addrs) && a.IsValid()
    ensures AllCanonical(addrs + [CanonicalIP(a)])
  {
    CanonicalHost(a);
  }

  lemma FirstGrows(addrs: seq<Addr>, a: Addr, is4: bool, o: Option<Addr>)
    requires IsFirst(addrs, is4, o)
    ensures IsFirst(addrs + [a], is4, if o.None? && a.Is4() == is4 then Some(a) else o)
  {
    var all := addrs + [a];
    if o.None? && a.Is4() == is4 {
      assert all[|addrs|] == a;
      forall j | 0 <= j < |addrs| ensures all[j].Is4() != is4 {
        assert all[j] == addrs[j];
      }
    } else if o.Some? {
      var i :| 0 <= i < |addrs| && addrs[i] == o.value && o.value.Is4() == is4
               && forall j :: 0 <= j < i ==> addrs[j].Is4() != is4;
      assert all[i] == o.value;
      forall j | 0 <= j < i ensures all[j].Is4() != is4 {
        assert all[j] == addrs[j];
      }
    }
  }

  /** However many texts were tried, the record finds exactly the hosts they name. */
  lemma {:induction false} RecordedNamesTheHosts(texts: seq<Option<Addr>>, b: Addr)
    requires forall i :: 0 <= i < |texts| && texts[i].Some? ==> texts[i].value.IsValid()
    ensures CanonicalIP(b) in Recorded(texts) <==>
            exists i :: 0 <= i < |texts| && texts[i].Some? && Host(texts[i].value) == Host(b)
  {
    if texts != [] {
      var k := |texts| - 1;
      RecordedNamesTheHosts(texts[..k], b);
      if texts[k].Some? {
        CanonicalIPIsTheHostsOneForm(texts[k].value, b);
      }
      assert forall i :: 0 <= i < k ==> texts[..k][i] == texts[i];
    }
  }
}
