/**
 What the provider feeds hold (vpn.go, relay.go), and what they say about one address: the naive
 reading of the raw feeds against which the derived tables are proved.
 */
module Feeds {
  import opened Common
  import opened Netip
  import opened Names

  /** One exit as its operator publishes it. The endpoints stand for their printed form, None for the empty one. */
  datatype RelayInfo = RelayInfo(
    provider: string, hostname: string, city: string, country: string, host: string,
    v4: Option<Addr>, v6: Option<Addr>, addrs: seq<Addr>)

  datatype SourceData = SourceData(relays: seq<RelayInfo>, addrs: seq<Addr>, cidrs: seq<Prefix>, fetched: int) {
    predicate Empty() {
      |relays| == 0 && |addrs| == 0 && |cidrs| == 0
    }
  }

  type Sources = map<string, SourceData>

  /** What is known of one address: the provider it is tagged with, and the relay that published it. */
  datatype Tag = Tag(provider: string, relay: Option<RelayInfo>)

  predicate OnList(addrs: seq<Addr>, a: Addr) {
    exists i :: 0 <= i < |addrs| && CanonicalIP(addrs[i]) == a
  }

  predicate Lists(src: SourceData, a: Addr) {
    OnList(src.addrs, a)
  }

  /** The last relay of a feed that has the address. */
  function LastRelay(relays: seq<RelayInfo>, a: Addr): Option<RelayInfo> {
    if relays == [] then None
    else if a in relays[|relays| - 1].addrs then Some(relays[|relays| - 1])
    else LastRelay(relays[..|relays| - 1], a)
  }

  lemma {:induction false} LastRelayIsTheLast(relays: seq<RelayInfo>, a: Addr, r: RelayInfo)
    ensures LastRelay(relays, a) == Some(r) <==>
            exists i :: 0 <= i < |relays| && relays[i] == r && a in r.addrs
                        && forall j :: i < j < |relays| ==> a !in relays[j].addrs
  {
    if relays != [] {
      var k := |relays| - 1;
      if a !in relays[k].addrs {
        LastRelayIsTheLast(relays[..k], a, r);
      }
    }
  }

  ghost function Listers(sources: Sources, a: Addr): set<string> {
    set n | n in sources && Lists(sources[n], a)
  }

  ghost function Relayers(sources: Sources, a: Addr): set<string> {
    set n | n in sources && LastRelay(sources[n].relays, a).Some?
  }

  function RelayTag(r: RelayInfo): Tag {
    Tag(r.provider, Some(r))
  }

  /**
   What the raw feeds say of an address: an address list wins, then the feed of relays with the greatest
   name; within it, the last relay that has the address.
   */
  ghost predicate IsExact(sources: Sources, a: Addr, t: Option<Tag>) {
    if Listers(sources, a) != {} then
      exists n :: Greatest(Listers(sources, a), n) && t == Some(Tag(n, None))
    else if Relayers(sources, a) != {} then
      exists n :: Greatest(Relayers(sources, a), n) && t == Some(RelayTag(LastRelay(sources[n].relays, a).value))
    else t == None
  }

  lemma ExactIsUnique(sources: Sources, a: Addr, t: Option<Tag>, t': Option<Tag>)
    requires IsExact(sources, a, t) && IsExact(sources, a, t')
    ensures t == t'
  {
    if Listers(sources, a) != {} {
      var n :| Greatest(Listers(sources, a), n) && t == Some(Tag(n, None));
      var n' :| Greatest(Listers(sources, a), n') && t' == Some(Tag(n', None));
      GreatestIsUnique(Listers(sources, a), n, n');
    } else if Relayers(sources, a) != {} {
      var n :| Greatest(Relayers(sources, a), n) && t == Some(RelayTag(LastRelay(sources[n].relays, a).value));
      var n' :| Greatest(Relayers(sources, a), n') && t' == Some(RelayTag(LastRelay(sources[n'].relays, a).value));
      GreatestIsUnique(Relayers(sources, a), n, n');
    }
  }

  // ---------- the same, read off a sorted list of names ----------

  function FirstOf<T>(x: Option<T>, y: Option<T>): Option<T> {
    if x.Some? then x else y
  }

  function TagOfRelays(relays: seq<RelayInfo>, a: Addr): Option<Tag> {
    match LastRelay(relays, a)
    case None => None
    case Some(r) => Some(RelayTag(r))
  }

  /** The tag the relay feeds give, later names first. */
  function RelayedTag(sources: Sources, names: seq<string>, a: Addr): Option<Tag>
    requires forall n :: n in names ==> n in sources
  {
    if names == [] then None
    else
      var k := |names| - 1;
      FirstOf(TagOfRelays(sources[names[k]].relays, a), RelayedTag(sources, names[..k], a))
  }

  /** The tag the address lists give, later names first. */
  function ListedTag(sources: Sources, names: seq<string>, a: Addr): Option<Tag>
    requires forall n :: n in names ==> n in sources
  {
    if names == [] then None
    else
      var k := |names| - 1;
      if Lists(sources[names[k]], a) then Some(Tag(names[k], None)) else ListedTag(sources, names[..k], a)
  }

  lemma {:induction false} RelayedTagIsTheLast(sources: Sources, names: seq<string>, a: Addr)
    requires forall n :: n in names ==> n in sources
    ensures RelayedTag(sources, names, a) == None ==> forall n :: n in names ==> LastRelay(sources[n].relays, a).None?
    ensures RelayedTag(sources, names, a) != None ==>
              exists i :: 0 <= i < |names| && LastRelay(sources[names[i]].relays, a).Some?
                          && RelayedTag(sources, names, a) == TagOfRelays(sources[names[i]].relays, a)
                          && forall j :: i < j < |names| ==> LastRelay(sources[names[j]].relays, a).None?
  {
    if names != [] {
      RelayedTagIsTheLast(sources, names[..|names| - 1], a);
    }
  }

  lemma {:induction false} ListedTagIsTheLast(sources: Sources, names: seq<string>, a: Addr)
    requires forall n :: n in names ==> n in sources
    ensures ListedTag(sources, names, a) == None ==> forall n :: n in names ==> !Lists(sources[n], a)
    ensures ListedTag(sources, names, a) != None ==>
              exists i :: 0 <= i < |names| && Lists(sources[names[i]], a)
                          && ListedTag(sources, names, a) == Some(Tag(names[i], None))
                          && forall j :: i < j < |names| ==> !Lists(sources[names[j]], a)
  {
    if names != [] {
      ListedTagIsTheLast(sources, names[..|names| - 1], a);
    }
  }

  /** The last name of a sorted list with a property is the greatest key with it. */
  lemma LastWithIsGreatest(names: seq<string>, keys: set<string>, chosen: set<string>, i: nat)
    requires SortedKeys(names, keys) && chosen <= keys && i < |names| && names[i] in chosen
    requires forall j :: i < j < |names| ==> names[j] !in chosen
    ensures Greatest(chosen, names[i])
  {
    LeqIsTotal(names[i], names[i]);
    forall m | m in chosen ensures Leq(m, names[i]) {
      var k :| 0 <= k < |names| && names[k] == m;
    }
  }

  /** Relay feeds in ascending order, then address lists: that is the naive reading. */
  lemma SortedPassesAreExact(sources: Sources, names: seq<string>, a: Addr)
    requires SortedKeys(names, sources.Keys)
    ensures IsExact(sources, a, FirstOf(ListedTag(sources, names, a), RelayedTag(sources, names, a)))
  {
    ListedTagIsTheLast(sources, names, a);
    RelayedTagIsTheLast(sources, names, a);
    if ListedTag(sources, names, a) != None {
      var i :| 0 <= i < |names| && Lists(sources[names[i]], a)
               && ListedTag(sources, names, a) == Some(Tag(names[i], None))
               && forall j :: i < j < |names| ==> !Lists(sources[names[j]], a);
      assert names[i] in Listers(sources, a);
      LastWithIsGreatest(names, sources.Keys, Listers(sources, a), i);
    } else if RelayedTag(sources, names, a) != None {
      assert Listers(sources, a) == {};
      var i :| 0 <= i < |names| && LastRelay(sources[names[i]].relays, a).Some?
               && RelayedTag(sources, names, a) == TagOfRelays(sources[names[i]].relays, a)
               && forall j :: i < j < |names| ==> LastRelay(sources[names[j]].relays, a).None?;
      assert names[i] in Relayers(sources, a);
      LastWithIsGreatest(names, sources.Keys, Relayers(sources, a), i);
    } else {
      assert Listers(sources, a) == {} && Relayers(sources, a) == {};
    }
  }
}
