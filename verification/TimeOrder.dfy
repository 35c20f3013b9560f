/** Detector input in order of time. Sorting is not stable: any sorted permutation may come out. */
module TimeOrder {
  import opened Signals

  ghost predicate SortedPermutation(s: seq<SignalEntry>, r: seq<SignalEntry>) {
    && multiset(r) == multiset(s)
    && InOrder(r)
  }

  /** Entries with the same timestamp are the same entry. */
  ghost predicate TimesDistinct(s: seq<SignalEntry>) {
    forall x, y | x in s && y in s && x.timestamp == y.timestamp :: x == y
  }

  lemma MembersAgree(s: seq<SignalEntry>, r: seq<SignalEntry>, x: SignalEntry)
    requires multiset(s) == multiset(r)
    ensures x in s <==> x in r
  {
    assert x in s <==> x in multiset(s);
    assert x in r <==> x in multiset(r);
  }

  predicate InOrder(r: seq<SignalEntry>) {
    forall i, j | 0 <= i < j < |r| :: r[i].timestamp <= r[j].timestamp
  }

  method InsertByTime(r: seq<SignalEntry>, x: SignalEntry) returns (q: seq<SignalEntry>)
    requires InOrder(r)
    ensures InOrder(q) && multiset(q) == multiset(r) + multiset{x}
  {
    var k := |r|;
    while k > 0 && x.timestamp < r[k - 1].timestamp
      invariant 0 <= k <= |r|
      invariant k == |r| || x.timestamp < r[k].timestamp
    {
      k := k - 1;
    }
    q := r[..k] + [x] + r[k..];
    InsertKeepsOrder(r, k, x);
  }

  lemma InsertKeepsOrder(r: seq<SignalEntry>, k: nat, x: SignalEntry)
    requires InOrder(r) && k <= |r|
    requires k == 0 || r[k - 1].timestamp <= x.timestamp
    requires k == |r| || x.timestamp <= r[k].timestamp
    ensures InOrder(r[..k] + [x] + r[k..])
    ensures multiset(r[..k] + [x] + r[k..]) == multiset(r) + multiset{x}
  {
    assert r == r[..k] + r[k..];
    var q := r[..k] + [x] + r[k..];
    forall i, j | 0 <= i < j < |q| ensures q[i].timestamp <= q[j].timestamp {
      assert i < k ==> r[i].timestamp <= x.timestamp;
      assert j > k ==> x.timestamp <= r[j - 1].timestamp;
    }
  }

  method SortByTime(s: seq<SignalEntry>) returns (r: seq<SignalEntry>)
    ensures SortedPermutation(s, r)
  {
    r := [];
    for i := 0 to |s|
      invariant InOrder(r) && multiset(r) == multiset(s[..i])
    {
      assert s[..i + 1] == s[..i] + [s[i]];
      r := InsertByTime(r, s[i]);
    }
    assert s[..|s|] == s;
  }

  lemma TailsAgree(a: seq<SignalEntry>, b: seq<SignalEntry>)
    requires a != [] && b != [] && a[0] == b[0] && multiset(a) == multiset(b)
    ensures multiset(a[1..]) == multiset(b[1..])
  {
    assert a == [a[0]] + a[1..] && b == [b[0]] + b[1..];
    assert multiset(a[1..]) == multiset(a) - multiset{a[0]};
    assert multiset(b[1..]) == multiset(b) - multiset{b[0]};
  }

  lemma SameHead(s: seq<SignalEntry>, a: seq<SignalEntry>, b: seq<SignalEntry>)
    requires SortedPermutation(s, a) && SortedPermutation(s, b) && TimesDistinct(s) && a != []
    ensures b != [] && a[0] == b[0]
  {
    MembersAgree(a, b, a[0]);
    assert b != [];
    MembersAgree(a, b, b[0]);
    MembersAgree(s, a, a[0]);
    MembersAgree(s, b, b[0]);
    var i :| 0 <= i < |b| && b[i] == a[0];
    var j :| 0 <= j < |a| && a[j] == b[0];
  }

  /** With distinct timestamps there is only one order. */
  lemma {:induction false} OrderUnique(s: seq<SignalEntry>, a: seq<SignalEntry>, b: seq<SignalEntry>)
    requires SortedPermutation(s, a) && SortedPermutation(s, b) && TimesDistinct(s)
    ensures a == b
    decreases |a|
  {
    assert |multiset(a)| == |a| && |multiset(b)| == |b|;
    if a != [] {
      SameHead(s, a, b);
      TailsAgree(a, b);
      forall x | x in a[1..] ensures x in s {
        assert x in a;
        MembersAgree(s, a, x);
      }
      OrderUnique(a[1..], a[1..], b[1..]);
    }
  }
}
