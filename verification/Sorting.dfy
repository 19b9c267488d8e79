/** Byte strings in lexicographic order, and sorting by a byte-string key. */
module Sorting {
  import opened Packets

  type Name = seq<Byte>

  /** `a` is `b` or comes before it. */
  predicate Before(a: Name, b: Name) {
    a == [] || (b != [] && (a[0] < b[0] || (a[0] == b[0] && Before(a[1..], b[1..]))))
  }

  /** The names agree on their first `k` bytes, and either `a` ends there or its next byte is the smaller. */
  ghost predicate FirstDifference(a: Name, b: Name, k: nat) {
    k <= |a| && k <= |b| && a[..k] == b[..k] && (k == |a| || (k < |b| && a[k] < b[k]))
  }

  /** The order is decided at the first difference, where the smaller byte, or the end of a name, comes first. */
  lemma {:induction false} BeforeExactly(a: Name, b: Name)
    ensures Before(a, b) <==> exists k: nat :: FirstDifference(a, b, k)
  {
    if a == [] || b == [] || a[0] != b[0] {
      if a == [] || Before(a, b) { assert FirstDifference(a, b, 0); }
      if k: nat :| FirstDifference(a, b, k) && a != [] {
        if k > 0 { assert a[0] == a[..k][0] == b[..k][0] == b[0]; }
      }
    } else {
      BeforeExactly(a[1..], b[1..]);
      if k: nat :| FirstDifference(a[1..], b[1..], k) {
        assert a[..k + 1] == [a[0]] + a[1..][..k] && b[..k + 1] == [b[0]] + b[1..][..k];
        assert FirstDifference(a, b, k + 1);
      }
      if k: nat :| FirstDifference(a, b, k) {
        assert a[1..][..k - 1] == a[..k][1..] && b[1..][..k - 1] == b[..k][1..];
        assert FirstDifference(a[1..], b[1..], k - 1);
      }
    }
  }

  lemma {:induction false} BeforeReflexive(a: Name)
    ensures Before(a, a)
  {
    if a != [] { BeforeReflexive(a[1..]); }
  }

  lemma {:induction false} BeforeTotal(a: Name, b: Name)
    ensures Before(a, b) || Before(b, a)
  {
    if a != [] && b != [] { BeforeTotal(a[1..], b[1..]); }
  }

  lemma {:induction false} BeforeAntisymmetric(a: Name, b: Name)
    requires Before(a, b) && Before(b, a)
    ensures a == b
  {
    if a != [] {
      BeforeAntisymmetric(a[1..], b[1..]);
      assert a == [a[0]] + a[1..] && b == [b[0]] + b[1..];
    }
  }

  lemma {:induction false} BeforeTransitive(a: Name, b: Name, c: Name)
    requires Before(a, b) && Before(b, c)
    ensures Before(a, c)
  {
    if a != [] && a[0] == b[0] == c[0] { BeforeTransitive(a[1..], b[1..], c[1..]); }
  }

  /** A value filed under a key. */
  datatype Keyed<V> = Keyed(key: Name, value: V)

  predicate Sorted<V>(s: seq<Keyed<V>>) {
    forall i, j :: 0 <= i < j < |s| ==> Before(s[i].key, s[j].key)
  }

  function Insert<V>(x: Keyed<V>, s: seq<Keyed<V>>): seq<Keyed<V>> {
    if s == [] then [x]
    else if Before(x.key, s[0].key) then [x] + s
    else [s[0]] + Insert(x, s[1..])
  }

  function Sort<V>(s: seq<Keyed<V>>): seq<Keyed<V>> {
    if s == [] then [] else Insert(s[0], Sort(s[1..]))
  }

  lemma {:induction false} InsertAbove<V>(x: Keyed<V>, s: seq<Keyed<V>>, low: Name)
    requires Before(low, x.key) && forall i :: 0 <= i < |s| ==> Before(low, s[i].key)
    ensures forall i :: 0 <= i < |Insert(x, s)| ==> Before(low, Insert(x, s)[i].key)
  {
    if s != [] && !Before(x.key, s[0].key) { InsertAbove(x, s[1..], low); }
  }

  lemma {:induction false} InsertSorts<V>(x: Keyed<V>, s: seq<Keyed<V>>)
    requires Sorted(s)
    ensures Sorted(Insert(x, s))
  {
    if s == [] {
    } else if Before(x.key, s[0].key) {
      forall j | 0 <= j < |s| ensures Before(x.key, s[j].key) {
        if j > 0 { BeforeTransitive(x.key, s[0].key, s[j].key); }
      }
    } else {
      BeforeTotal(x.key, s[0].key);
      InsertSorts(x, s[1..]);
      InsertAbove(x, s[1..], s[0].key);
    }
  }

  lemma {:induction false} InsertKeeps<V>(x: Keyed<V>, s: seq<Keyed<V>>)
    ensures multiset(Insert(x, s)) == multiset{x} + multiset(s)
  {
    if s != [] && !Before(x.key, s[0].key) {
      InsertKeeps(x, s[1..]);
      assert s == [s[0]] + s[1..];
    }
  }

  lemma {:induction false} SortSorts<V>(s: seq<Keyed<V>>)
    ensures Sorted(Sort(s)) && multiset(Sort(s)) == multiset(s)
  {
    if s != [] {
      SortSorts(s[1..]);
      InsertSorts(s[0], Sort(s[1..]));
      InsertKeeps(s[0], Sort(s[1..]));
      assert s == [s[0]] + s[1..];
    }
  }

  /** No two different entries share a key. */
  ghost predicate KeysTell<V(!new)>(s: multiset<Keyed<V>>) {
    forall x, y :: x in s && y in s && x.key == y.key ==> x == y
  }

  lemma SameHead<V(!new)>(s: seq<Keyed<V>>, t: seq<Keyed<V>>)
    requires Sorted(s) && Sorted(t) && s != [] && multiset(s) == multiset(t) && KeysTell(multiset(s))
    ensures t != [] && s[0] == t[0]
  {
    assert |multiset(s)| == |s| && |multiset(t)| == |t|;
    assert s[0] in multiset(s) && t[0] in multiset(t);
    var i :| 0 <= i < |t| && t[i] == s[0];
    var j :| 0 <= j < |s| && s[j] == t[0];
    BeforeReflexive(s[0].key);
    BeforeReflexive(t[0].key);
    BeforeAntisymmetric(s[0].key, t[0].key);
  }

  lemma TailsMatch<V(!new)>(s: seq<Keyed<V>>, t: seq<Keyed<V>>)
    requires s != [] && t != [] && s[0] == t[0] && multiset(s) == multiset(t)
    ensures multiset(s[1..]) == multiset(t[1..])
    ensures KeysTell(multiset(s)) ==> KeysTell(multiset(s[1..]))
    ensures s[1..] == t[1..] ==> s == t
  {
    assert s == [s[0]] + s[1..] && t == [t[0]] + t[1..];
    assert multiset(s[1..]) == multiset(s) - multiset{s[0]};
    assert multiset(t[1..]) == multiset(t) - multiset{t[0]};
  }

  lemma SortedTail<V>(s: seq<Keyed<V>>)
    requires Sorted(s) && s != []
    ensures Sorted(s[1..])
  {
  }

  /** Where keys tell entries apart, there is only one sorted arrangement. */
  lemma {:induction false} SortedIsUnique<V(!new)>(s: seq<Keyed<V>>, t: seq<Keyed<V>>)
    requires Sorted(s) && Sorted(t) && multiset(s) == multiset(t) && KeysTell(multiset(s))
    ensures s == t
    decreases |s|
  {
    if s == [] {
      assert |multiset(t)| == |t|;
    } else {
      SameHead(s, t);
      TailsMatch(s, t);
      SortedTail(s);
      SortedTail(t);
      SortedIsUnique(s[1..], t[1..]);
    }
  }

  /** Sorting forgets the order its input came in. */
  lemma SortForgetsOrder<V(!new)>(s: seq<Keyed<V>>, t: seq<Keyed<V>>)
    requires multiset(s) == multiset(t) && KeysTell(multiset(s))
    ensures Sort(s) == Sort(t)
  {
    SortSorts(s);
    SortSorts(t);
    SortedIsUnique(Sort(s), Sort(t));
  }

  // ----- Plain names ------------------------------------------------------

  datatype Nothing = Nothing

  function Bare(names: seq<Name>): seq<Keyed<Nothing>> {
    seq(|names|, i requires 0 <= i < |names| => Keyed(names[i], Nothing))
  }

  function Keys<V>(s: seq<Keyed<V>>): seq<Name> {
    seq(|s|, i requires 0 <= i < |s| => s[i].key)
  }

  function SortNames(names: seq<Name>): seq<Name> { Keys(Sort(Bare(names))) }

  lemma {:induction false} BareCounts(names: seq<Name>, n: Name)
    ensures multiset(Bare(names))[Keyed(n, Nothing)] == multiset(names)[n]
  {
    if names != [] {
      BareCounts(names[1..], n);
      assert names == [names[0]] + names[1..] && Bare(names) == [Bare(names)[0]] + Bare(names[1..]);
    }
  }

  lemma BareMultiset(s: seq<Name>, t: seq<Name>)
    ensures multiset(Bare(s)) == multiset(Bare(t)) <==> multiset(s) == multiset(t)
  {
    forall n: Name
      ensures multiset(Bare(s))[Keyed(n, Nothing)] == multiset(s)[n]
      ensures multiset(Bare(t))[Keyed(n, Nothing)] == multiset(t)[n]
    {
      BareCounts(s, n);
      BareCounts(t, n);
    }
    if multiset(s) == multiset(t) {
      forall x: Keyed<Nothing> ensures multiset(Bare(s))[x] == multiset(Bare(t))[x] {
        assert x.value.Nothing? && x == Keyed(x.key, Nothing);
      }
    }
    if multiset(Bare(s)) == multiset(Bare(t)) {
      forall n: Name ensures multiset(s)[n] == multiset(t)[n] {}
    }
  }

  lemma SortNamesForgetsOrder(s: seq<Name>, t: seq<Name>)
    requires multiset(s) == multiset(t)
    ensures SortNames(s) == SortNames(t)
  {
    BareMultiset(s, t);
    SortForgetsOrder(Bare(s), Bare(t));
  }

  lemma SortNamesIn(s: seq<Name>)
    ensures multiset(SortNames(s)) == multiset(s) && |SortNames(s)| == |s|
    ensures forall n :: n in SortNames(s) <==> n in s
    ensures forall i, j :: 0 <= i < j < |s| ==> Before(SortNames(s)[i], SortNames(s)[j])
  {
    SortSorts(Bare(s));
    var r := Sort(Bare(s));
    assert |multiset(r)| == |r| && |multiset(Bare(s))| == |s|;
    forall i | 0 <= i < |r| ensures Bare(Keys(r))[i] == r[i] { assert r[i].value.Nothing?; }
    assert Bare(Keys(r)) == r;
    BareMultiset(Keys(r), s);
    forall n ensures n in SortNames(s) <==> n in s {
      assert n in multiset(SortNames(s)) <==> n in multiset(s);
    }
  }
}
