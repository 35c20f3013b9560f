/** Sorting with an explicit order. */
module Sorting {

  /** A strict total order. */
  ghost predicate StrictOrder<T(!new)>(less: (T, T) -> bool) {
    && (forall x, y :: less(x, y) ==> !less(y, x))
    && (forall x, y, z :: less(x, y) && less(y, z) ==> less(x, z))
    && (forall x, y :: less(x, y) || less(y, x) || x == y)
  }

  predicate Ascending<T>(less: (T, T) -> bool, s: seq<T>) {
    forall i, j | 0 <= i < j < |s| :: less(s[i], s[j])
  }

  function Insert<T>(less: (T, T) -> bool, x: T, s: seq<T>): (r: seq<T>)
    ensures multiset(r) == multiset(s) + multiset{x}
  {
    if s == [] then [x]
    else if less(s[0], x) then
      assert s == [s[0]] + s[1..];
      [s[0]] + Insert(less, x, s[1..])
    else [x] + s
  }

  function Sort<T>(less: (T, T) -> bool, s: seq<T>): (r: seq<T>)
    ensures multiset(r) == multiset(s)
  {
    if s == [] then []
    else
      assert s == s[..|s| - 1] + [s[|s| - 1]];
      Insert(less, s[|s| - 1], Sort(less, s[..|s| - 1]))
  }

  predicate Distinct<T(==)>(s: seq<T>) {
    forall i, j | 0 <= i < j < |s| :: s[i] != s[j]
  }

  lemma InMultiset<T>(s: seq<T>, t: seq<T>, x: T)
    requires multiset(s) == multiset(t)
    ensures x in s <==> x in t
  {
    assert x in s <==> x in multiset(s);
    assert x in t <==> x in multiset(t);
  }

  lemma InsertedFrom<T>(less: (T, T) -> bool, x: T, s: seq<T>, y: T)
    requires y in Insert(less, x, s)
    ensures y == x || y in s
  {
    hide Insert;
    assert y in multiset(Insert(less, x, s));
    assert y in multiset(s) + multiset{x};
  }

  lemma {:induction false} InsertAscending<T(!new)>(less: (T, T) -> bool, x: T, s: seq<T>)
    requires StrictOrder(less) && Ascending(less, s) && x !in s
    ensures Ascending(less, Insert(less, x, s))
  {
    if s != [] {
      if less(s[0], x) {
        var rest := s[1..];
        InsertAscending(less, x, rest);
        var r := Insert(less, x, rest);
        forall k | 0 <= k < |r| ensures less(s[0], r[k]) {
          assert r[k] in multiset(r);
          assert r[k] in multiset(rest) + multiset{x};
          if r[k] != x {
            assert r[k] in rest;
          }
        }
      } else {
        assert less(x, s[0]);
      }
    }
  }

  /** Sorting distinct elements arranges them in strictly ascending order. */
  lemma {:induction false} SortAscending<T(!new)>(less: (T, T) -> bool, s: seq<T>)
    requires StrictOrder(less) && Distinct(s)
    ensures Ascending(less, Sort(less, s))
  {
    if s != [] {
      var front, x := s[..|s| - 1], s[|s| - 1];
      SortAscending(less, front);
      InMultiset(front, Sort(less, front), x);
      InsertAscending(less, x, Sort(less, front));
    }
  }

  lemma NoElements<T(!new)>(t: seq<T>)
    ensures (forall x :: x !in t) ==> t == []
  {
    if t != [] {
      assert t[0] in t;
    }
  }

  /** There is only one strictly ascending arrangement of a set of elements. */
  lemma {:induction false} AscendingUnique<T(!new)>(less: (T, T) -> bool, s: seq<T>, t: seq<T>)
    requires StrictOrder(less) && Ascending(less, s) && Ascending(less, t)
    requires forall x :: x in s <==> x in t
    ensures s == t
  {
    if s == [] {
      NoElements(t);
    } else {
      assert s[0] in t && t[0] in s;
      assert s[0] == t[0];
      forall x ensures x in s[1..] <==> x in t[1..] {
        if x in s[1..] {
          assert x in s && less(s[0], x);
        }
        if x in t[1..] {
          assert x in t && less(t[0], x);
        }
      }
      AscendingUnique(less, s[1..], t[1..]);
    }
  }

  lemma AscendingDistinct<T(!new)>(less: (T, T) -> bool, s: seq<T>)
    requires StrictOrder(less) && Ascending(less, s)
    ensures Distinct(s)
  {
  }

  /** Sorting an ascending sequence leaves it as it is. */
  lemma SortKeepsAscending<T(!new)>(less: (T, T) -> bool, s: seq<T>)
    requires StrictOrder(less) && Ascending(less, s)
    ensures Sort(less, s) == s
  {
    AscendingDistinct(less, s);
    SortAscending(less, s);
    forall x ensures x in Sort(less, s) <==> x in s {
      InMultiset(Sort(less, s), s, x);
    }
    AscendingUnique(less, Sort(less, s), s);
  }

  // Strings

  /** Order of strings by code point. */
  function Less(a: string, b: string): bool {
    if b == "" then false
    else if a == "" then true
    else if a[0] != b[0] then a[0] < b[0]
    else Less(a[1..], b[1..])
  }

  lemma {:induction false} LessTrichotomy(a: string, b: string)
    ensures (Less(a, b) || Less(b, a) || a == b) && !(Less(a, b) && Less(b, a)) && !Less(a, a)
  {
    if a != "" && b != "" && a[0] == b[0] {
      LessTrichotomy(a[1..], b[1..]);
    }
    LessIrreflexive(a);
  }

  lemma {:induction false} LessIrreflexive(a: string)
    ensures !Less(a, a)
  {
    if a != "" {
      LessIrreflexive(a[1..]);
    }
  }

  lemma {:induction false} LessTransitive(a: string, b: string, c: string)
    requires Less(a, b) && Less(b, c)
    ensures Less(a, c)
  {
    if a != "" && a[0] == b[0] == c[0] {
      LessTransitive(a[1..], b[1..], c[1..]);
    }
  }

  lemma LessIsStrictOrder()
    ensures StrictOrder(Less)
  {
    forall x, y ensures (Less(x, y) || Less(y, x) || x == y) && !(Less(x, y) && Less(y, x)) {
      LessTrichotomy(x, y);
    }
    forall x, y, z | Less(x, y) && Less(y, z) ensures Less(x, z) {
      LessTransitive(x, y, z);
    }
  }

  // Sorting with ties

  /** No element is less than an earlier one. */
  predicate WeaklyAscending<T>(less: (T, T) -> bool, s: seq<T>) {
    forall i, j | 0 <= i < j < |s| :: !less(s[j], s[i])
  }

  /** A strict order by a key: elements with one key are tied. */
  ghost predicate WeakOrder<T(!new)>(less: (T, T) -> bool) {
    && (forall x, y :: less(x, y) ==> !less(y, x))
    && (forall x, y, z :: less(x, y) && less(y, z) ==> less(x, z))
    && (forall x, y, z :: !less(x, y) && !less(y, z) ==> !less(x, z))
  }

  lemma {:induction false} InsertWeaklyAscending<T(!new)>(less: (T, T) -> bool, x: T, s: seq<T>)
    requires WeakOrder(less) && WeaklyAscending(less, s)
    ensures WeaklyAscending(less, Insert(less, x, s))
  {
    if s != [] {
      if less(s[0], x) {
        var r := Insert(less, x, s[1..]);
        InsertWeaklyAscending(less, x, s[1..]);
        forall k | 0 <= k < |r| ensures !less(r[k], s[0]) {
          InsertedFrom(less, x, s[1..], r[k]);
          if r[k] != x {
            var j :| 0 <= j < |s[1..]| && s[1..][j] == r[k];
            assert s[j + 1] == r[k];
          }
        }
      } else {
        forall k | 0 <= k < |s| ensures !less(s[k], x) {
          assert k > 0 ==> !less(s[k], s[0]);
        }
      }
    }
  }

  lemma {:induction false} SortWeaklyAscending<T(!new)>(less: (T, T) -> bool, s: seq<T>)
    requires WeakOrder(less)
    ensures WeaklyAscending(less, Sort(less, s))
  {
    if s == [] {
    } else {
      hide Insert, WeakOrder, WeaklyAscending;
      SortWeaklyAscending(less, s[..|s| - 1]);
      InsertWeaklyAscending(less, s[|s| - 1], Sort(less, s[..|s| - 1]));
    }
  }

  /** Tied elements are equal. */
  ghost predicate TiesAreEqual<T(!new)>(less: (T, T) -> bool, s: seq<T>) {
    forall x, y :: x in s && y in s && !less(x, y) && !less(y, x) ==> x == y
  }

  /** When tied elements are equal there is only one ascending arrangement, repetitions included. */
  lemma {:induction false} WeaklyAscendingUnique<T(!new)>(less: (T, T) -> bool, s: seq<T>, t: seq<T>)
    requires multiset(s) == multiset(t) && WeaklyAscending(less, s) && WeaklyAscending(less, t)
    requires TiesAreEqual(less, s)
    ensures s == t
  {
    hide WeaklyAscending, TiesAreEqual;
    assert |multiset(s)| == |s| && |multiset(t)| == |t|;
    if s != [] {
      SameFirst(less, s, t);
      assert s == [s[0]] + s[1..] && t == [t[0]] + t[1..];
      assert multiset(s[1..]) == multiset(s) - multiset{s[0]};
      assert multiset(t[1..]) == multiset(t) - multiset{t[0]};
      TailsToo(less, s);
      TailsToo(less, t);
      WeaklyAscendingUnique(less, s[1..], t[1..]);
    }
  }

  lemma TailsToo<T(!new)>(less: (T, T) -> bool, s: seq<T>)
    requires s != []
    ensures WeaklyAscending(less, s) ==> WeaklyAscending(less, s[1..])
    ensures TiesAreEqual(less, s) ==> TiesAreEqual(less, s[1..])
  {
  }

  lemma SameFirst<T(!new)>(less: (T, T) -> bool, s: seq<T>, t: seq<T>)
    requires s != [] && t != [] && multiset(s) == multiset(t) && WeaklyAscending(less, s) && WeaklyAscending(less, t)
    requires TiesAreEqual(less, s)
    ensures s[0] == t[0]
  {
    InMultiset(s, t, s[0]);
    InMultiset(s, t, t[0]);
    LeastFirst(less, s, t[0]);
    LeastFirst(less, t, s[0]);
  }

  lemma LeastFirst<T(!new)>(less: (T, T) -> bool, s: seq<T>, x: T)
    requires WeaklyAscending(less, s) && x in s
    ensures !less(x, s[0]) || x == s[0]
  {
    var i :| 0 <= i < |s| && s[i] == x;
  }
}
