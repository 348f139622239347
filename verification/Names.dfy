/** Names in the order strings are sorted in: by the first character that differs. */
module Names {

  predicate Leq(a: string, b: string) {
    || a == ""
    || (b != "" && (a[0] < b[0] || (a[0] == b[0] && Leq(a[1..], b[1..]))))
  }

  /** At the first character that differs the smaller one decides; a name comes after what it starts with. */
  lemma {:induction false} LeqIsByFirstDifference(a: string, b: string)
    ensures Leq(a, b) <==>
            || (|a| <= |b| && a == b[..|a|])
            || exists i :: 0 <= i < |a| && i < |b| && a[..i] == b[..i] && a[i] < b[i]
  {
    if a != "" && b != "" {
      if a[0] == b[0] {
        LeqIsByFirstDifference(a[1..], b[1..]);
        LaterDifference(a, b);
      } else if a[0] < b[0] {
        assert a[..0] == b[..0];
      } else {
        forall i | 0 <= i < |a| && i < |b| ensures a[..i] == b[..i] <==> i == 0 {
          HeadsDiffer(a, b, i);
        }
      }
    }
  }

  lemma HeadsDiffer(a: string, b: string, i: nat)
    requires i < |a| && i < |b| && a[0] != b[0]
    ensures a[..i] == b[..i] <==> i == 0
  {
    if i > 0 {
      assert a[..i][0] == a[0] && b[..i][0] == b[0];
    }
  }

  lemma LaterDifference(a: string, b: string)
    requires a != "" && b != "" && a[0] == b[0]
    ensures |a| <= |b| && a == b[..|a|] <==> |a| <= |b| && a[1..] == b[1..][..|a| - 1]
    ensures (exists i :: 0 <= i < |a| && i < |b| && a[..i] == b[..i] && a[i] < b[i]) <==>
            exists i :: 0 <= i < |a| - 1 && i < |b| - 1 && a[1..][..i] == b[1..][..i] && a[1..][i] < b[1..][i]
  {
    assert a == [a[0]] + a[1..] && b == [b[0]] + b[1..];
    if i :| 0 <= i < |a| && i < |b| && a[..i] == b[..i] && a[i] < b[i] {
      assert a[1..][..i - 1] == a[..i][1..] && b[1..][..i - 1] == b[..i][1..];
      assert a[1..][i - 1] < b[1..][i - 1];
    }
    if i :| 0 <= i < |a| - 1 && i < |b| - 1 && a[1..][..i] == b[1..][..i] && a[1..][i] < b[1..][i] {
      assert a[..i + 1] == [a[0]] + a[1..][..i] && b[..i + 1] == [b[0]] + b[1..][..i];
      assert a[i + 1] < b[i + 1];
    }
  }

  lemma {:induction false} LeqIsTotal(a: string, b: string)
    ensures Leq(a, b) || Leq(b, a)
    ensures Leq(a, b) && Leq(b, a) ==> a == b
  {
    if a != "" && b != "" && a[0] == b[0] {
      LeqIsTotal(a[1..], b[1..]);
      assert a == [a[0]] + a[1..] && b == [b[0]] + b[1..];
    }
  }

  lemma {:induction false} LeqIsTransitive(a: string, b: string, c: string)
    requires Leq(a, b) && Leq(b, c)
    ensures Leq(a, c)
  {
    if a != "" && b != "" && c != "" && a[0] == b[0] && b[0] == c[0] {
      LeqIsTransitive(a[1..], b[1..], c[1..]);
    }
  }

  predicate Greatest(names: set<string>, n: string) {
    n in names && forall m :: m in names ==> Leq(m, n)
  }

  lemma GreatestIsUnique(names: set<string>, n: string, m: string)
    requires Greatest(names, n) && Greatest(names, m)
    ensures n == m
  {
    LeqIsTotal(n, m);
  }

  predicate Ascending(names: seq<string>) {
    forall i, j :: 0 <= i < j < |names| ==> names[i] != names[j] && Leq(names[i], names[j])
  }

  /** The keys, each once, in ascending order. */
  ghost predicate SortedKeys(names: seq<string>, keys: set<string>) {
    Ascending(names) && forall n :: n in names <==> n in keys
  }

  /** Puts a new name in its place of an ascending list. */
  method Insert(names: seq<string>, n: string) returns (r: seq<string>)
    requires Ascending(names) && n !in names
    ensures Ascending(r) && forall m :: m in r <==> m in names || m == n
  {
    var i := |names|;
    while i > 0 && !Leq(names[i - 1], n)
      invariant 0 <= i <= |names|
      invariant forall k :: i <= k < |names| ==> Leq(n, names[k])
    {
      i := i - 1;
      LeqIsTotal(names[i], n);
    }
    forall k | 0 <= k < i ensures Leq(names[k], n) {
      if k < i - 1 {
        LeqIsTransitive(names[k], names[i - 1], n);
      }
    }
    r := names[..i] + [n] + names[i..];
  }

  /** The keys of a map, met in any order, then sorted. */
  method SortedNames<T>(m: map<string, T>) returns (names: seq<string>)
    ensures SortedKeys(names, m.Keys)
  {
    names := [];
    var left := m.Keys;
    while left != {}
      invariant left <= m.Keys
      invariant SortedKeys(names, m.Keys - left)
      decreases |left|
    {
      var n :| n in left;
      names := Insert(names, n);
      left := left - {n};
    }
  }

  /** Map order does not show: there is one sorted list of the keys. */
  lemma {:induction false} SortedKeysAreUnique(a: seq<string>, b: seq<string>, keys: set<string>)
    requires SortedKeys(a, keys) && SortedKeys(b, keys)
    ensures a == b
    decreases |a|
  {
    NoNamesNoKeys(a, keys);
    NoNamesNoKeys(b, keys);
    if a != [] {
      var x, y := a[|a| - 1], b[|b| - 1];
      LastIsGreatest(a, keys);
      LastIsGreatest(b, keys);
      GreatestIsUnique(keys, x, y);
      DropLast(a, keys);
      DropLast(b, keys);
      SortedKeysAreUnique(a[..|a| - 1], b[..|b| - 1], keys - {x});
      assert a == a[..|a| - 1] + [x] && b == b[..|b| - 1] + [y];
    }
  }

  lemma NoNamesNoKeys(names: seq<string>, keys: set<string>)
    requires SortedKeys(names, keys)
    ensures names == [] <==> keys == {}
  {
    if names != [] {
      assert names[0] in keys;
    }
  }

  lemma LastIsGreatest(names: seq<string>, keys: set<string>)
    requires SortedKeys(names, keys) && names != []
    ensures Greatest(keys, names[|names| - 1])
  {
    var x := names[|names| - 1];
    LeqIsTotal(x, x);
    forall m | m in keys ensures Leq(m, x) {
      var i :| 0 <= i < |names| && names[i] == m;
    }
  }

  lemma DropLast(names: seq<string>, keys: set<string>)
    requires SortedKeys(names, keys) && names != []
    ensures SortedKeys(names[..|names| - 1], keys - {names[|names| - 1]})
  {
    var x := names[|names| - 1];
    forall n | n in keys && n != x ensures n in names[..|names| - 1] {
      var i :| 0 <= i < |names| && names[i] == n;
      assert names[..|names| - 1][i] == n;
    }
  }
}
