// Stable sorting by an order, and the order of names.
module Sorting {

  /** Before the first later element. */
  function Placed<T>(le: (T, T) -> bool, s: seq<T>, x: T): seq<T> {
    if s == [] then [x]
    else if !le(s[0], x) then [x] + s
    else [s[0]] + Placed(le, s[1..], x)
  }

  function SortBy<T>(le: (T, T) -> bool, s: seq<T>): seq<T> {
    if s == [] then [] else Placed(le, SortBy(le, s[..|s| - 1]), s[|s| - 1])
  }

  predicate Ascends<T>(le: (T, T) -> bool, s: seq<T>) {
    forall i, j :: 0 <= i < j < |s| ==> le(s[i], s[j])
  }

  ghost predicate Order<T(!new)>(le: (T, T) -> bool) {
    && (forall a, b :: le(a, b) || le(b, a))
    && (forall a, b, c :: le(a, b) && le(b, c) ==> le(a, c))
  }

  lemma {:induction false} PlacedKeeps<T>(le: (T, T) -> bool, s: seq<T>, x: T)
    ensures multiset(Placed(le, s, x)) == multiset(s) + multiset{x}
  {
    if s != [] {
      assert s == [s[0]] + s[1..];
      if le(s[0], x) {
        PlacedKeeps(le, s[1..], x);
      }
    }
  }

  lemma {:induction false} PlacedAscends<T(!new)>(le: (T, T) -> bool, s: seq<T>, x: T)
    requires Order(le) && Ascends(le, s)
    ensures Ascends(le, Placed(le, s, x))
  {
    if s != [] && le(s[0], x) {
      PlacedAscends(le, s[1..], x);
      PlacedKeeps(le, s[1..], x);
      var rest := Placed(le, s[1..], x);
      forall j | 0 <= j < |rest|
        ensures le(s[0], rest[j])
      {
        assert rest[j] in multiset(rest);
        if rest[j] != x {
          assert rest[j] in s[1..];
        }
      }
    }
  }

  /** Sorting neither adds nor loses anything. */
  lemma {:induction false} SortKeeps<T>(le: (T, T) -> bool, s: seq<T>)
    ensures multiset(SortBy(le, s)) == multiset(s)
    ensures |SortBy(le, s)| == |s|
    ensures forall x :: x in SortBy(le, s) <==> x in s
  {
    if s != [] {
      var rest := s[..|s| - 1];
      SortKeeps(le, rest);
      PlacedKeeps(le, SortBy(le, rest), s[|s| - 1]);
      assert s == rest + [s[|s| - 1]];
    }
    SameMembers(SortBy(le, s), s);
  }

  lemma SameMembers<T>(a: seq<T>, b: seq<T>)
    requires multiset(a) == multiset(b)
    ensures |a| == |b| && forall x :: x in a <==> x in b
  {
    assert |multiset(a)| == |a| && |multiset(b)| == |b|;
    forall x
      ensures x in a <==> x in b
    {
      assert x in a <==> x in multiset(a);
      assert x in b <==> x in multiset(b);
    }
  }

  lemma {:induction false} SortAscends<T(!new)>(le: (T, T) -> bool, s: seq<T>)
    requires Order(le)
    ensures Ascends(le, SortBy(le, s))
  {
    if s != [] {
      SortAscends(le, s[..|s| - 1]);
      PlacedAscends(le, SortBy(le, s[..|s| - 1]), s[|s| - 1]);
    }
  }

  lemma {:induction false} PlacedLast<T>(le: (T, T) -> bool, s: seq<T>, x: T)
    requires forall k :: 0 <= k < |s| ==> le(s[k], x)
    ensures Placed(le, s, x) == s + [x]
  {
    if s != [] {
      PlacedLast(le, s[1..], x);
    }
  }

  /** No two have the same key. */
  predicate Keyed<T, K(==)>(key: T -> K, s: seq<T>) {
    forall i, j :: 0 <= i < j < |s| ==> key(s[i]) != key(s[j])
  }

  lemma {:induction false} PlacedKeyed<T, K>(le: (T, T) -> bool, key: T -> K, s: seq<T>, x: T)
    requires Keyed(key, s) && forall k :: 0 <= k < |s| ==> key(s[k]) != key(x)
    ensures Keyed(key, Placed(le, s, x))
  {
    if s != [] && le(s[0], x) {
      PlacedKeyed(le, key, s[1..], x);
      PlacedKeeps(le, s[1..], x);
      var rest := Placed(le, s[1..], x);
      forall j | 0 <= j < |rest|
        ensures key(s[0]) != key(rest[j])
      {
        assert rest[j] in multiset(rest);
        if rest[j] != x {
          assert rest[j] in s[1..];
        }
      }
    }
  }

  lemma {:induction false} SortKeyed<T, K>(le: (T, T) -> bool, key: T -> K, s: seq<T>)
    requires Keyed(key, s)
    ensures Keyed(key, SortBy(le, s))
  {
    if s != [] {
      var rest := s[..|s| - 1];
      SortKeyed(le, key, rest);
      SortKeeps(le, rest);
      var sorted := SortBy(le, rest);
      forall k | 0 <= k < |sorted|
        ensures key(sorted[k]) != key(s[|s| - 1])
      {
        assert sorted[k] in multiset(sorted);
        assert sorted[k] in rest;
      }
      PlacedKeyed(le, key, sorted, s[|s| - 1]);
    }
  }

  /** What ascends already stays as it is. */
  lemma {:induction false} SortFixes<T>(le: (T, T) -> bool, s: seq<T>)
    requires Ascends(le, s)
    ensures SortBy(le, s) == s
  {
    if s != [] {
      var rest := s[..|s| - 1];
      SortFixes(le, rest);
      PlacedLast(le, rest, s[|s| - 1]);
    }
  }

  lemma TailKeeps<T>(s: seq<T>)
    requires s != []
    ensures multiset(s[1..]) == multiset(s) - multiset{s[0]}
  {
    assert s == [s[0]] + s[1..];
  }

  /** Only equal elements rank alike. */
  ghost predicate Distinguishes<T(!new)>(le: (T, T) -> bool, s: seq<T>) {
    forall x, y :: x in s && y in s && le(x, y) && le(y, x) ==> x == y
  }

  lemma TailAscends<T(!new)>(le: (T, T) -> bool, s: seq<T>)
    requires s != []
    ensures Ascends(le, s) ==> Ascends(le, s[1..])
    ensures Distinguishes(le, s) ==> Distinguishes(le, s[1..])
  {
  }

  lemma FirstsAgree<T(!new)>(le: (T, T) -> bool, a: seq<T>, b: seq<T>)
    requires Order(le) && Ascends(le, a) && Ascends(le, b) && multiset(a) == multiset(b) && a != [] && b != []
    requires Distinguishes(le, a)
    ensures a[0] == b[0]
  {
    hide Order, Ascends;
    SameMembers(a, b);
    assert a[0] in b && b[0] in a;
    FirstIsLeast(le, a, b[0]);
    FirstIsLeast(le, b, a[0]);
  }

  /** So any way of sorting gives the same, when only equal elements rank alike. */
  lemma {:induction false} AscendingUnique<T(!new)>(le: (T, T) -> bool, a: seq<T>, b: seq<T>)
    requires Order(le) && Ascends(le, a) && Ascends(le, b) && multiset(a) == multiset(b)
    requires Distinguishes(le, a)
    ensures a == b
    decreases |a|
  {
    hide Order, Ascends, Distinguishes;
    SameMembers(a, b);
    if a != [] {
      FirstsAgree(le, a, b);
      TailsAgree(a, b);
      TailAscends(le, a);
      TailAscends(le, b);
      AscendingUnique(le, a[1..], b[1..]);
      SameParts(a, b);
    }
  }

  lemma TailsAgree<T>(a: seq<T>, b: seq<T>)
    requires a != [] && b != [] && a[0] == b[0] && multiset(a) == multiset(b)
    ensures multiset(a[1..]) == multiset(b[1..])
  {
    TailKeeps(a);
    TailKeeps(b);
  }

  lemma SameParts<T>(a: seq<T>, b: seq<T>)
    requires a != [] && b != [] && a[0] == b[0] && a[1..] == b[1..]
    ensures a == b
  {
    assert a == [a[0]] + a[1..] && b == [b[0]] + b[1..];
  }

  lemma FirstIsLeast<T(!new)>(le: (T, T) -> bool, s: seq<T>, x: T)
    requires Order(le) && Ascends(le, s) && x in s
    ensures le(s[0], x)
  {
  }

  // ----- names -----------------------------------------------------------------------------

  /** The order of texts, by their first difference. */
  predicate NameLeq(a: string, b: string) {
    a == [] || (b != [] && (a[0] < b[0] || (a[0] == b[0] && NameLeq(a[1..], b[1..]))))
  }

  lemma {:induction false} NameTotal(a: string, b: string)
    ensures NameLeq(a, b) || NameLeq(b, a)
    ensures NameLeq(a, b) && NameLeq(b, a) ==> a == b
    ensures NameLeq(a, a)
    decreases |a| + |b|
  {
    if a != [] && b != [] {
      NameTotal(a[1..], b[1..]);
      assert a == [a[0]] + a[1..] && b == [b[0]] + b[1..];
    }
    if a != [] {
      NameReflexive(a);
    }
  }

  lemma {:induction false} NameReflexive(a: string)
    ensures NameLeq(a, a)
  {
    if a != [] {
      NameReflexive(a[1..]);
    }
  }

  lemma {:induction false} NameTransitive(a: string, b: string, c: string)
    requires NameLeq(a, b) && NameLeq(b, c)
    ensures NameLeq(a, c)
    decreases |a|
  {
    if a != [] && a[0] == b[0] && b[0] == c[0] {
      NameTransitive(a[1..], b[1..], c[1..]);
    }
  }

  lemma {:induction false} NamePrefix(prefix: string, a: string, b: string)
    ensures NameLeq(prefix + a, prefix + b) <==> NameLeq(a, b)
  {
    if prefix == [] {
      assert prefix + a == a && prefix + b == b;
    } else {
      assert (prefix + a)[1..] == prefix[1..] + a && (prefix + b)[1..] == prefix[1..] + b;
      NamePrefix(prefix[1..], a, b);
    }
  }

  /** By the first key, then by the second. */
  predicate KeysLeq(a: (string, string), b: (string, string)) {
    if a.0 == b.0 then NameLeq(a.1, b.1) else NameLeq(a.0, b.0)
  }

  lemma KeysOrdered()
    ensures Order(KeysLeq)
    ensures forall a, b :: KeysLeq(a, b) && KeysLeq(b, a) ==> a == b
  {
    forall a, b
      ensures KeysLeq(a, b) || KeysLeq(b, a)
      ensures KeysLeq(a, b) && KeysLeq(b, a) ==> a == b
    {
      NameTotal(a.0, b.0);
      NameTotal(a.1, b.1);
    }
    forall a, b, c | KeysLeq(a, b) && KeysLeq(b, c)
      ensures KeysLeq(a, c)
    {
      KeysTransitive(a, b, c);
    }
  }

  lemma KeysTransitive(a: (string, string), b: (string, string), c: (string, string))
    requires KeysLeq(a, b) && KeysLeq(b, c)
    ensures KeysLeq(a, c)
  {
    if a.0 == b.0 && b.0 == c.0 {
      NameTransitive(a.1, b.1, c.1);
    } else if a.0 != b.0 && b.0 != c.0 {
      NameTransitive(a.0, b.0, c.0);
      if a.0 == c.0 {
        NameTotal(a.0, b.0);
        assert false;
      }
    }
  }
}
