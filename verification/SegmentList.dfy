/** Listing a segments directory, and the list of sealed segments (pkg/evidence/segment.go). */
module SegmentList {
  import opened Wrappers
  import opened Sorting
  import opened SegmentNames

  function NamesUpTo(n: nat): (names: seq<string>)
    ensures |names| == n
    ensures forall i | 0 <= i < n :: names[i] == SegmentName(i + 1)
  {
    seq(n, (i: nat) => SegmentName(i + 1))
  }

  function NumbersUpTo(n: nat): (numbers: seq<int>)
    ensures |numbers| == n
    ensures forall i | 0 <= i < n :: numbers[i] == i + 1
  {
    seq(n, (i: nat) => i + 1)
  }

  predicate Below(a: int, b: int) {
    a < b
  }

  /** What the file pattern evidence-*.jsonl matches. */
  predicate IsSegmentFile(name: string) {
    && |name| >= |PREFIX| + |SUFFIX|
    && name[..|PREFIX|] == PREFIX
    && name[|name| - |SUFFIX|..] == SUFFIX
  }

  /** Any text, also none, may stand for the star. */
  lemma SegmentFileTold(name: string)
    ensures IsSegmentFile(name) <==> exists star :: name == "evidence-" + star + ".jsonl"
  {
    if IsSegmentFile(name) {
      var star := name[|PREFIX|..|name| - |SUFFIX|];
      assert name == PREFIX + star + SUFFIX;
      assert name == "evidence-" + star + ".jsonl";
    }
    forall star | name == "evidence-" + star + ".jsonl" ensures IsSegmentFile(name) {
      assert name[..|PREFIX|] == PREFIX;
      assert name[|name| - |SUFFIX|..] == SUFFIX;
    }
  }

  lemma SegmentNamesMatch(n: nat)
    ensures IsSegmentFile(SegmentName(n))
  {
    var name := SegmentName(n);
    assert name[..|PREFIX|] == PREFIX;
    assert name[|name| - |SUFFIX|..] == SUFFIX;
  }

  /** The directory holds segments 1..n and no other file that looks like one. */
  ghost predicate Contiguous(dir: set<string>, n: nat) {
    n <= MAX_SEGMENTS && forall name :: name in dir && IsSegmentFile(name) <==> name in NamesUpTo(n)
  }

  /** The names listed so far, each with the number it parses to. */
  ghost predicate Listing(names: seq<string>, indices: seq<int>) {
    && |names| == |indices|
    && Distinct(names)
    && forall k | 0 <= k < |names| :: indices[k] > 0 && ParseSegmentIndex(names[k]) == Some(indices[k])
  }

  lemma AscendingNames(n: nat)
    requires n <= MAX_SEGMENTS
    ensures Ascending(Less, NamesUpTo(n))
  {
    hide SegmentName, Less;
    forall i, j | 0 <= i < j < n ensures Less(NamesUpTo(n)[i], NamesUpTo(n)[j]) {
      SegmentNameOrder(i + 1, j + 1);
    }
  }

  lemma InUpTo(name: string, n: nat)
    requires n <= MAX_SEGMENTS
    ensures name in NamesUpTo(n) <==>
            ParseSegmentIndex(name).Some? && 1 <= ParseSegmentIndex(name).value <= n
  {
    if name in NamesUpTo(n) {
      var i :| 0 <= i < n && name == NamesUpTo(n)[i];
      ParseSegmentIndexExact(name, i + 1);
    }
    if ParseSegmentIndex(name).Some? && 1 <= ParseSegmentIndex(name).value <= n {
      var index := ParseSegmentIndex(name).value;
      ParseSegmentIndexExact(name, index);
      assert name == NamesUpTo(n)[index - 1];
    }
  }

  lemma BelowIsStrictOrder()
    ensures StrictOrder(Below)
  {
  }

  lemma ListedIndex(names: seq<string>, indices: seq<int>, n: nat, x: int)
    requires n <= MAX_SEGMENTS && Listing(names, indices)
    requires forall name :: name in names <==> name in NamesUpTo(n)
    ensures x in indices <==> x in NumbersUpTo(n)
  {
    hide SegmentName, ParseSegmentIndex;
    if x in indices {
      var k :| 0 <= k < |indices| && indices[k] == x;
      assert names[k] in names;
      InUpTo(names[k], n);
      assert x == NumbersUpTo(n)[x - 1];
    }
    if x in NumbersUpTo(n) {
      assert NamesUpTo(n)[x - 1] in names;
      var k :| 0 <= k < |names| && names[k] == NamesUpTo(n)[x - 1];
      ParseSegmentIndexExact(names[k], x);
      assert indices[k] == x;
    }
  }

  lemma ListedIndicesDistinct(names: seq<string>, indices: seq<int>)
    requires Listing(names, indices)
    ensures Distinct(indices)
  {
    hide SegmentName, ParseSegmentIndex;
    forall i, j | 0 <= i < j < |indices| ensures indices[i] != indices[j] {
      ParseSegmentIndexExact(names[i], indices[i]);
      ParseSegmentIndexExact(names[j], indices[j]);
    }
  }

  /** The numbers of a complete listing, sorted, are 1..n. */
  lemma CompleteIndices(names: seq<string>, indices: seq<int>, n: nat)
    requires n <= MAX_SEGMENTS && Listing(names, indices)
    requires forall name :: name in names <==> name in NamesUpTo(n)
    ensures Sort(Below, indices) == NumbersUpTo(n)
  {
    hide SegmentName, ParseSegmentIndex, Sort;
    BelowIsStrictOrder();
    ListedIndicesDistinct(names, indices);
    SortAscending(Below, indices);
    forall x ensures x in Sort(Below, indices) <==> x in NumbersUpTo(n) {
      InMultiset(Sort(Below, indices), indices, x);
      ListedIndex(names, indices, n, x);
    }
    AscendingUnique(Below, Sort(Below, indices), NumbersUpTo(n));
  }

  lemma CompleteNames(names: seq<string>, n: nat)
    requires n <= MAX_SEGMENTS && Distinct(names)
    requires forall name :: name in names <==> name in NamesUpTo(n)
    ensures Sort(Less, names) == NamesUpTo(n)
  {
    LessIsStrictOrder();
    AscendingNames(n);
    SortAscending(Less, names);
    forall x ensures x in Sort(Less, names) <==> x in NamesUpTo(n) {
      InMultiset(Sort(Less, names), names, x);
    }
    AscendingUnique(Less, Sort(Less, names), NamesUpTo(n));
  }

  /** A listing that sorts to the names of 1..n is complete, and n is in range. */
  lemma SortedNamesAreComplete(names: seq<string>, indices: seq<int>)
    requires Listing(names, indices) && Sort(Less, names) == NamesUpTo(|names|)
    ensures |names| <= MAX_SEGMENTS
    ensures forall name :: name in names <==> name in NamesUpTo(|names|)
  {
    var n := |names|;
    forall name ensures name in names <==> name in NamesUpTo(n) {
      InMultiset(Sort(Less, names), names, name);
    }
    if n > 0 {
      assert NamesUpTo(n)[n - 1] in names;
      var k :| 0 <= k < n && names[k] == SegmentName(n);
      ParseSegmentIndexExact(names[k], indices[k]);
      SegmentNameInjective(indices[k], n);
    }
  }

  lemma SortKeepsLength<T>(less: (T, T) -> bool, s: seq<T>)
    ensures |Sort(less, s)| == |s|
  {
    assert |multiset(s)| == |s| && |multiset(Sort(less, s))| == |Sort(less, s)|;
  }

  /** Every segment file with its number, in whatever order the file system yields them. */
  method ListSegments(dir: set<string>) returns (r: Option<(seq<string>, seq<int>)>)
    ensures r.None? ==> forall n :: !Contiguous(dir, n)
    ensures r.Some? ==> Listing(r.value.0, r.value.1)
    ensures r.Some? ==> forall name :: name in r.value.0 <==> name in dir && IsSegmentFile(name)
  {
    hide SegmentName, ParseSegmentIndex, IsSegmentFile;
    var names: seq<string> := [];
    var indices: seq<int> := [];
    var remaining := dir;
    while remaining != {}
      invariant remaining <= dir
      invariant Listing(names, indices)
      invariant forall name :: name in names <==> name in dir && name !in remaining && IsSegmentFile(name)
      decreases remaining
    {
      var name :| name in remaining;
      remaining := remaining - {name};
      if IsSegmentFile(name) {
        var index := ParseSegmentIndex(name);
        if index.None? {
          NeverContiguous(dir, name);
          return None;
        }
        ParseSegmentIndexExact(name, index.value);
        names := names + [name];
        indices := indices + [index.value];
      }
    }
    r := Some((names, indices));
  }

  lemma NeverContiguous(dir: set<string>, name: string)
    requires name in dir && IsSegmentFile(name) && ParseSegmentIndex(name) == None
    ensures forall n :: !Contiguous(dir, n)
  {
    forall n: nat ensures !Contiguous(dir, n) {
      if n <= MAX_SEGMENTS {
        InUpTo(name, n);
      }
    }
  }

  lemma ContiguousListing(dir: set<string>, names: seq<string>, indices: seq<int>, n: nat)
    requires Contiguous(dir, n) && Listing(names, indices)
    requires forall name :: name in names <==> name in dir && IsSegmentFile(name)
    ensures n == |names| && Sort(Less, names) == NamesUpTo(n) && Sort(Below, indices) == NumbersUpTo(n)
  {
    hide SegmentName, ParseSegmentIndex, IsSegmentFile, Sort;
    CompleteNames(names, n);
    CompleteIndices(names, indices, n);
    SortKeepsLength(Less, names);
  }

  /** The names in order, or nothing if a name does not parse or a number is missing. */
  method OrderedSegmentNames(dir: set<string>) returns (r: Option<seq<string>>)
    ensures r.Some? <==> exists n :: Contiguous(dir, n)
    ensures r.Some? ==> Contiguous(dir, |r.value|) && r.value == NamesUpTo(|r.value|)
  {
    hide SegmentName, ParseSegmentIndex, IsSegmentFile, Sort;
    var listed := ListSegments(dir);
    if listed.None? {
      return None;
    }
    var (names, indices) := listed.value;
    forall n | Contiguous(dir, n)
      ensures Sort(Less, names) == NamesUpTo(n) && Sort(Below, indices) == NumbersUpTo(n)
    {
      ContiguousListing(dir, names, indices, n);
    }
    var sortedNames, sortedIndices := Sort(Less, names), Sort(Below, indices);
    for i := 0 to |sortedIndices| {
      if sortedIndices[i] != i + 1 {
        return None;
      }
    }
    for i := 0 to |sortedNames|
      invariant forall k | 0 <= k < i :: sortedNames[k] == SegmentName(k + 1)
    {
      if sortedNames[i] != SegmentName(i + 1) {
        return None;
      }
    }
    SortKeepsLength(Less, names);
    assert sortedNames == NamesUpTo(|names|);
    SortedNamesAreComplete(names, indices);
    assert Contiguous(dir, |names|);
    r := Some(sortedNames);
  }

  // The list of sealed segments

  /** Without empty names and without repetitions, in the order of first appearance. */
  function Cleaned(s: seq<string>): (r: seq<string>)
    ensures forall x :: x in r <==> x in s && x != ""
    ensures Distinct(r)
  {
    if s == [] then []
    else
      var front, last := Cleaned(s[..|s| - 1]), s[|s| - 1];
      assert s == s[..|s| - 1] + [last];
      if last == "" || last in front then front else front + [last]
  }

  function Normalized(s: seq<string>): seq<string> {
    Sort(Less, Cleaned(s))
  }

  method NormalizeSealedSegments(s: seq<string>) returns (r: seq<string>)
    ensures r == Normalized(s)
  {
    var out: seq<string> := [];
    var seen: set<string> := {};
    for i := 0 to |s|
      invariant out == Cleaned(s[..i])
      invariant forall x :: x in seen <==> x in out
    {
      assert s[..i + 1][..i] == s[..i];
      if s[i] == "" || s[i] in seen {
        continue;
      }
      seen := seen + {s[i]};
      out := out + [s[i]];
    }
    assert s[..|s|] == s;
    r := Sort(Less, out);
  }

  function Without(s: seq<string>, name: string): (r: seq<string>)
    ensures forall x :: x in r <==> x in s && x != name
  {
    if s == [] then []
    else
      var front, last := Without(s[..|s| - 1], name), s[|s| - 1];
      assert s == s[..|s| - 1] + [last];
      if last == name then front else front + [last]
  }

  method RemoveSegment(s: seq<string>, name: string) returns (r: seq<string>)
    ensures r == Without(s, name)
  {
    r := [];
    for i := 0 to |s|
      invariant r == Without(s[..i], name)
    {
      assert s[..i + 1][..i] == s[..i];
      if s[i] == name {
        continue;
      }
      r := r + [s[i]];
    }
    assert s[..|s|] == s;
  }

  lemma {:induction false} CleanedKeepsDistinct(s: seq<string>)
    requires Distinct(s) && "" !in s
    ensures Cleaned(s) == s
  {
    if s != [] {
      var front := s[..|s| - 1];
      CleanedKeepsDistinct(front);
      assert s == front + [s[|s| - 1]];
    }
  }

  /** An ascending list of names is already normal. */
  lemma AscendingIsNormal(s: seq<string>)
    requires Ascending(Less, s) && "" !in s
    ensures Normalized(s) == s
  {
    LessIsStrictOrder();
    AscendingDistinct(Less, s);
    CleanedKeepsDistinct(s);
    SortKeepsAscending(Less, s);
  }

  lemma {:induction false} WithoutAbsent(s: seq<string>, name: string)
    requires name !in s
    ensures Without(s, name) == s
  {
    if s != [] {
      WithoutAbsent(s[..|s| - 1], name);
    }
  }
}
