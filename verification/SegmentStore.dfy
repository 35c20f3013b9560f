/** The segmented store: segment files and a manifest that together hold one growing log
    (pkg/evidence/entry_store.go, pkg/evidence/manifest.go, pkg/evidence/entry_lookup_cache.go). */
module SegmentStore {
  import opened Wrappers
  import opened Evidence
  import opened Sorting
  import opened SegmentNames
  import opened SegmentList
  import HashChain

  datatype Manifest = Manifest(
    currentSegment: string, sealedSegments: seq<string>, segmentMaxBytes: nat, recordsTotal: nat, lastHash: string)

  /** Where an append is cut short: an error or a crash between two file-system steps. */
  datatype Stop = AfterFirstSegment | BeforeLine | AfterLine | AfterNextSegment | Never

  type Files = map<string, seq<Entry>>

  ghost predicate Holds(files: Files, n: nat) {
    forall i | 1 <= i <= n :: SegmentName(i) in files
  }

  /** The lines of segments 1..n, one after the other. */
  ghost function Lines(files: Files, n: nat): seq<Entry>
    requires Holds(files, n)
  {
    if n == 0 then [] else Lines(files, n - 1) + files[SegmentName(n)]
  }

  function Bytes(size: Entry -> nat, lines: seq<Entry>): nat {
    if lines == [] then 0 else Bytes(size, lines[..|lines| - 1]) + size(lines[|lines| - 1])
  }

  /** Larger than the limit, and only because of the last line. */
  ghost predicate JustOverfull(size: Entry -> nat, lines: seq<Entry>, limit: nat) {
    lines != [] && Bytes(size, lines) > limit && Bytes(size, lines[..|lines| - 1]) <= limit
  }

  ghost predicate AllOverfull(size: Entry -> nat, files: Files, n: nat, limit: nat)
    requires Holds(files, n)
  {
    forall i | 1 <= i <= n :: JustOverfull(size, files[SegmentName(i)], limit)
  }

  lemma OneMoreOverfull(size: Entry -> nat, before: Files, after: Files, n: nat, limit: nat)
    requires n > 0 && Holds(before, n) && Holds(after, n)
    requires AllOverfull(size, before, n - 1, limit)
    requires Bytes(size, before[SegmentName(n)]) > limit && before[SegmentName(n)] != []
    requires Bytes(size, before[SegmentName(n)][..|before[SegmentName(n)]| - 1]) <= limit
    requires forall i | 1 <= i <= n :: after[SegmentName(i)] == before[SegmentName(i)]
    ensures AllOverfull(size, after, n, limit)
  {
    hide SegmentName, Bytes;
  }

  lemma OverfullFrame(size: Entry -> nat, before: Files, after: Files, n: nat, limit: nat)
    requires Holds(before, n) && Holds(after, n)
    requires forall i | 1 <= i <= n :: before[SegmentName(i)] == after[SegmentName(i)]
    ensures AllOverfull(size, before, n, limit) ==> AllOverfull(size, after, n, limit)
  {
    hide SegmentName, Bytes;
  }

  predicate Persistable(e: Entry) {
    e.sessionId != "" && e.traceId != ""
  }

  lemma {:induction false} LinesFrame(before: Files, after: Files, n: nat)
    requires Holds(before, n) && Holds(after, n)
    requires forall i | 1 <= i <= n :: before[SegmentName(i)] == after[SegmentName(i)]
    ensures Lines(before, n) == Lines(after, n)
  {
    hide SegmentName;
    if n > 0 {
      LinesFrame(before, after, n - 1);
    }
  }

  lemma {:induction false} EmptyTail(files: Files, m: nat, n: nat)
    requires m <= n && Holds(files, n)
    requires forall i | m < i <= n :: files[SegmentName(i)] == []
    ensures Holds(files, m) && Lines(files, n) == Lines(files, m)
  {
    hide SegmentName;
    if m < n {
      EmptyTail(files, m, n - 1);
    }
  }

  /** Segment names are distinct up to one past the readable range. */
  lemma NamesDistinct(a: nat, b: nat)
    requires 1 <= a <= MAX_SEGMENTS + 1 && 1 <= b <= MAX_SEGMENTS + 1 && SegmentName(a) == SegmentName(b)
    ensures a == b
  {
    hide SegmentName;
    if a <= MAX_SEGMENTS {
      SegmentNameInjective(a, b);
    } else if b <= MAX_SEGMENTS {
      SegmentNameInjective(b, a);
    }
  }

  /** The files of a directory with exactly the segments 1..n. */
  ghost predicate Exactly(files: Files, n: nat) {
    && n <= MAX_SEGMENTS + 1
    && Holds(files, n)
    && (forall name | name in files :: name in NamesUpTo(n))
  }

  lemma ExactlyHolds(files: Files, n: nat)
    requires Exactly(files, n)
    ensures n <= MAX_SEGMENTS + 1 && Holds(files, n)
  {
  }

  lemma NumberOf(files: Files, n: nat, name: string) returns (i: nat)
    requires Exactly(files, n) && name in files
    ensures 1 <= i <= n && name == SegmentName(i)
  {
    hide SegmentName;
    var k :| 0 <= k < n && NamesUpTo(n)[k] == name;
    i := k + 1;
  }

  lemma NumberedName(n: nat, i: nat)
    requires 1 <= i <= n
    ensures SegmentName(i) in NamesUpTo(n)
  {
    assert NamesUpTo(n)[i - 1] == SegmentName(i);
  }

  lemma WriteSegment(files: Files, n: nat, i: nat, lines: seq<Entry>)
    requires Exactly(files, n) && 1 <= i <= n
    ensures var after := files[SegmentName(i) := lines];
      && Exactly(after, n)
      && after[SegmentName(i)] == lines
      && (forall k | 1 <= k <= n && k != i :: after[SegmentName(k)] == files[SegmentName(k)])
  {
    hide SegmentName;
    forall k | 1 <= k <= n && k != i
      ensures files[SegmentName(i) := lines][SegmentName(k)] == files[SegmentName(k)]
    {
      if SegmentName(k) == SegmentName(i) {
        NamesDistinct(k, i);
      }
    }
    NumberedName(n, i);
  }

  /** A line appended to a segment that only empty segments follow is appended to the whole. */
  lemma AppendToCurrent(files: Files, n: nat, cur: nat, e: Entry)
    requires Exactly(files, n) && 1 <= cur <= n
    requires forall i | cur < i <= n :: files[SegmentName(i)] == []
    ensures SegmentName(cur) in files
    ensures var after := files[SegmentName(cur) := files[SegmentName(cur)] + [e]];
      && Exactly(after, n)
      && Lines(after, n) == Lines(files, n) + [e]
      && (forall k | 1 <= k <= n && k != cur :: after[SegmentName(k)] == files[SegmentName(k)])
  {
    hide SegmentName;
    var after := files[SegmentName(cur) := files[SegmentName(cur)] + [e]];
    WriteSegment(files, n, cur, files[SegmentName(cur)] + [e]);
    EmptyTail(files, cur, n);
    EmptyTail(after, cur, n);
    LinesFrame(files, after, cur - 1);
  }

  /** Creating the next segment, empty, changes no line. */
  lemma CreateNext(files: Files, n: nat)
    requires Exactly(files, n) && n <= MAX_SEGMENTS
    ensures var after := files[SegmentName(n + 1) := []];
      && SegmentName(n + 1) !in files
      && Exactly(after, n + 1)
      && Lines(after, n + 1) == Lines(files, n)
      && (forall k | 1 <= k <= n :: after[SegmentName(k)] == files[SegmentName(k)])
  {
    hide SegmentName;
    if SegmentName(n + 1) in files {
      var i := NumberOf(files, n, SegmentName(n + 1));
      NamesDistinct(i, n + 1);
    }
    var after := files[SegmentName(n + 1) := []];
    forall name | name in after ensures name in NamesUpTo(n + 1) {
      if name in files {
        var i := NumberOf(files, n, name);
        NumberedName(n + 1, i);
      } else {
        NumberedName(n + 1, n + 1);
      }
    }
    LinesFrame(files, after, n);
  }

  /** The directory lists without error exactly while no more than 999,999 segments exist. */
  lemma ListsExactly(files: Files, n: nat, m: nat)
    requires Exactly(files, n)
    ensures Contiguous(files.Keys, m) <==> m == n <= MAX_SEGMENTS
  {
    hide SegmentName, IsSegmentFile;
    forall name ensures name in files.Keys && IsSegmentFile(name) <==> name in NamesUpTo(n) {
      if name in NamesUpTo(n) {
        var k :| 0 <= k < n && NamesUpTo(n)[k] == name;
        SegmentNamesMatch(k + 1);
        assert SegmentName(k + 1) in files;
      }
    }
    if Contiguous(files.Keys, m) {
      if m < n {
        NumberedName(n, m + 1);
        var k :| 0 <= k < m && NamesUpTo(m)[k] == SegmentName(m + 1);
        NamesDistinct(k + 1, m + 1);
      } else if n < m {
        NumberedName(m, n + 1);
        var i := NumberOf(files, n, SegmentName(n + 1));
        NamesDistinct(i, n + 1);
      }
    }
  }

  /** Sealed names, in order, all of segments before the current one. */
  ghost predicate SealedBelow(names: seq<string>, current: nat) {
    && 1 <= current <= MAX_SEGMENTS + 1
    && Ascending(Less, names)
    && forall name | name in names :: name in NamesUpTo(current - 1)
  }

  lemma SealedIsNormal(names: seq<string>, current: nat, other: nat)
    requires SealedBelow(names, current) && current <= other <= MAX_SEGMENTS + 1
    ensures Normalized(names) == names && Without(names, SegmentName(other)) == names
  {
    hide SegmentName, Normalized;
    if SegmentName(other) in names {
      var k :| 0 <= k < current - 1 && NamesUpTo(current - 1)[k] == SegmentName(other);
      NamesDistinct(k + 1, other);
    }
    WithoutAbsent(names, SegmentName(other));
    if "" in names {
      var k :| 0 <= k < current - 1 && NamesUpTo(current - 1)[k] == "";
      SegmentNamesMatch(k + 1);
    }
    AscendingIsNormal(names);
  }

  /** Sealing the current segment keeps the list in order. */
  lemma SealCurrent(names: seq<string>, current: nat, next: nat)
    requires SealedBelow(names, current) && current < next <= MAX_SEGMENTS + 1
    ensures SealedBelow(names + [SegmentName(current)], next)
    ensures names == NamesUpTo(current - 1) ==> names + [SegmentName(current)] == NamesUpTo(current)
  {
    hide SegmentName, Less;
    var longer := names + [SegmentName(current)];
    forall i, j | 0 <= i < j < |longer| ensures Less(longer[i], longer[j]) {
      if j == |names| {
        assert names[i] in names;
        var k :| 0 <= k < current - 1 && NamesUpTo(current - 1)[k] == names[i];
        SegmentNameOrder(k + 1, current);
      }
    }
    forall name | name in longer ensures name in NamesUpTo(next - 1) {
      if name in names {
        var k :| 0 <= k < current - 1 && NamesUpTo(current - 1)[k] == name;
        NumberedName(next - 1, k + 1);
      } else {
        NumberedName(next - 1, current);
      }
    }
  }

  class Store {
    const defaultMaxBytes: nat
    const size: Entry -> nat

    var files: Files
    var manifest: Option<Manifest>
    var cache: map<string, Entry>

    /** The size limit of the manifest on disk: that of the process that created it. */
    ghost const limit: nat
    /** Every line ever written, in order. */
    ghost var log: seq<Entry>
    /** Appends that wrote their line but not the manifest. */
    ghost var interrupted: nat
    /** How far the log reached at the last append that wrote the manifest. */
    ghost var counted: nat
    /** Segments in the directory. */
    ghost var segments: nat
    /** The number of the manifest's current segment. */
    ghost var current: nat

    /** The manifest describes the directory: segment `cur` is the current one and all after it are empty. */
    ghost predicate ManifestSound(m: Manifest, cur: nat)
      reads this`files, this`log, this`interrupted, this`counted, this`segments
    {
      && Exactly(files, segments)
      && 1 <= cur <= segments
      && m.currentSegment == SegmentName(cur)
      && (forall i | cur < i <= segments :: files[SegmentName(i)] == [])
      && m.recordsTotal + interrupted == |log|
      && counted <= |log| && m.lastHash == HashChain.LastHash(log[..counted])
      && m.segmentMaxBytes == limit
      && SealedBelow(m.sealedSegments, cur)
    }

    /** Every segment but the current one is sealed and exceeds the limit only by its last line. */
    ghost predicate Tidy(m: Manifest, cur: nat)
      requires ManifestSound(m, cur)
      reads this`files, this`log, this`interrupted, this`counted, this`segments
    {
      && cur == segments
      && m.sealedSegments == NamesUpTo(cur - 1)
      && AllOverfull(size, files, cur - 1, m.segmentMaxBytes)
    }

    /** What runs without interruption keep besides. */
    ghost predicate CrashFreeSound(m: Manifest, cur: nat)
      requires ManifestSound(m, cur)
      reads this`files, this`log, this`interrupted, this`counted, this`segments
    {
      && counted == |log|
      && Tidy(m, cur)
      && Bytes(size, files[SegmentName(cur)]) <= m.segmentMaxBytes
    }

    ghost predicate StoreSound()
      reads this`files, this`manifest, this`log, this`interrupted, this`counted, this`segments, this`current
    {
      && 0 < defaultMaxBytes && 0 < limit && (manifest.None? ==> limit == defaultMaxBytes)
      && Exactly(files, segments)
      && Lines(files, segments) == log
      && (manifest.None? ==> log == [] && segments <= 1 && interrupted == 0 && counted == 0)
      && (manifest.Some? ==> ManifestSound(manifest.value, current))
      && (manifest.Some? && interrupted == 0 ==> CrashFreeSound(manifest.value, current))
    }

    ghost predicate CacheSound()
      reads this`cache, this`log
    {
      forall id | id in cache :: id != "" && cache[id].entryId == id && cache[id] in log
    }

    ghost predicate Valid()
      reads this
    {
      StoreSound() && CacheSound()
    }

    /** The line of one append is written, and the manifest is about to be: without earlier interruptions, the current
        segment was within the limit before that line. */
    ghost predicate ReadyToCommit(m: Manifest)
      reads this`files, this`manifest, this`log, this`interrupted, this`counted, this`segments, this`current
    {
      && StoreSound() && manifest == Some(m) && interrupted > 0 && log != []
      && files[m.currentSegment] != []
      && (interrupted == 1 ==>
            && Tidy(m, current)
            && Bytes(size, files[m.currentSegment][..|files[m.currentSegment]| - 1]) <= m.segmentMaxBytes)
    }

    constructor (defaultMaxBytes: nat, size: Entry -> nat)
      requires 0 < defaultMaxBytes
      ensures Valid() && log == [] && manifest == None && this.size == size && this.defaultMaxBytes == limit == defaultMaxBytes
      ensures interrupted == 0 && counted == 0 && segments == 0
    {
      this.defaultMaxBytes, this.size := defaultMaxBytes, size;
      files, manifest, cache := map[], None, map[];
      log, interrupted, counted, segments, current := [], 0, 0, 0, 0;
      limit := defaultMaxBytes;
    }

    /** The segment the next line goes to, and what it holds. */
    function CurrentName(): string reads this`manifest {
      if manifest.Some? then manifest.value.currentSegment else SegmentName(1)
    }

    function CurrentLines(): seq<Entry> reads this`manifest, this`files {
      if manifest.Some? && CurrentName() in files then files[CurrentName()] else []
    }

    /** An empty first segment and a manifest that names it. */
    method Init(stop: Stop) returns (r: Option<Manifest>)
      requires StoreSound() && manifest.None?
      modifies this`files, this`manifest, this`segments, this`current
      ensures StoreSound() && segments == 1
      ensures r == manifest && (r.None? <==> stop == AfterFirstSegment)
      ensures r.Some? ==> r.value == Manifest(SegmentName(1), [], defaultMaxBytes, 0, "") && CurrentLines() == []
    {
      hide SegmentName, Bytes, Less;
      if segments == 0 {
        CreateNext(files, 0);
      } else {
        WriteSegment(files, 1, 1, []);
      }
      files := files[SegmentName(1) := []];
      segments := 1;
      assert Lines(files, 0) == [] && Lines(files, 1) == [];
      if stop == AfterFirstSegment {
        return None;
      }
      BytesOfNothing(size);
      var m := Manifest(SegmentName(1), [], defaultMaxBytes, 0, "");
      manifest := Some(m);
      current := 1;
      r := Some(m);
    }

    /** The manifest as read, or a new one. */
    method LoadOrInit(stop: Stop) returns (r: Option<Manifest>)
      requires StoreSound()
      modifies this`files, this`manifest, this`segments, this`current
      ensures StoreSound() && r == manifest
      ensures r.None? <==> stop == AfterFirstSegment && old(manifest).None?
      ensures old(manifest).Some? ==>
        files == old(files) && manifest == old(manifest) && segments == old(segments) && current == old(current)
      ensures old(manifest).None? ==> segments == 1
      ensures old(manifest).None? && r.Some? ==> r.value == Manifest(SegmentName(1), [], defaultMaxBytes, 0, "")
      ensures r.Some? ==> CurrentName() == old(CurrentName()) && CurrentLines() == old(CurrentLines())
    {
      hide SegmentName, Normalized, Without, Bytes, AllOverfull, Lines;
      if manifest.None? {
        r := Init(stop);
        return;
      }
      var m := manifest.value;
      var sealed := NormalizeSealedSegments(m.sealedSegments);
      SealedIsNormal(m.sealedSegments, current, current);
      r := Some(m.(sealedSegments := sealed,
                   segmentMaxBytes := if m.segmentMaxBytes <= 0 then defaultMaxBytes else m.segmentMaxBytes));
    }

    /** One line at the end of the current segment. The manifest does not know of it yet. */
    method WriteLine(m: Manifest, e: Entry)
      requires StoreSound() && manifest == Some(m)
      modifies this`files, this`log, this`interrupted
      ensures ReadyToCommit(m) && log == old(log) + [e] && interrupted == old(interrupted) + 1
      ensures CurrentLines() == old(CurrentLines()) + [e]
    {
      hide SegmentName, Lines, Bytes, AllOverfull, NamesUpTo, Exactly, SealedBelow, HashChain.LastHash;
      assert (log + [e])[..counted] == log[..counted];
      AppendToCurrent(files, segments, current, e);
      var before := files[m.currentSegment];
      var after := files[m.currentSegment := before + [e]];
      assert after[m.currentSegment][..|after[m.currentSegment]| - 1] == before;
      ExactlyHolds(files, segments);
      ExactlyHolds(after, segments);
      OverfullFrame(size, files, after, current - 1, m.segmentMaxBytes);
      files := after;
      log := log + [e];
      interrupted := interrupted + 1;
    }

    method WriteManifest(m: Manifest)
      modifies this`manifest
      ensures manifest == Some(m.(sealedSegments := Without(Normalized(m.sealedSegments), m.currentSegment)))
    {
      var sealed := NormalizeSealedSegments(m.sealedSegments);
      sealed := RemoveSegment(sealed, m.currentSegment);
      manifest := Some(m.(sealedSegments := sealed));
    }

    /** A fresh empty segment behind the others, or nothing if the directory cannot be listed. */
    method CreateNextSegment() returns (next: Option<string>)
      requires Exactly(files, segments) && 1 <= segments
      modifies this`files, this`segments
      ensures Exactly(files, segments) && Lines(files, segments) == Lines(old(files), old(segments))
      ensures next.Some? <==> old(segments) <= MAX_SEGMENTS
      ensures next.None? ==> files == old(files) && segments == old(segments)
      ensures next.Some? ==>
        && segments == old(segments) + 1
        && next.value == SegmentName(segments)
        && (forall i | 1 <= i < segments :: files[SegmentName(i)] == old(files)[SegmentName(i)])
        && files[SegmentName(segments)] == []
    {
      hide SegmentName, Lines;
      var names := ListDirectory(files, segments);
      if names.None? {
        return None;
      }
      var last := ParseSegmentIndex(names.value[|names.value| - 1]);
      ParseSegmentIndexExact(SegmentName(segments), segments);
      var name := SegmentName(last.value + 1);
      CreateNext(files, segments);
      if name !in files {
        files := files[name := []];
      }
      segments := segments + 1;
      next := Some(name);
    }

    /** The append gets as far as its line. */
    predicate Writes(e: Entry, stop: Stop)
      reads this`manifest
    {
      e.sessionId != "" && e.traceId != "" && stop != BeforeLine && (stop == AfterFirstSegment ==> manifest.Some?)
    }

    /** Append, possibly cut short. The log gains the entry exactly when its line is written; the append succeeds exactly
        when the manifest is written too, which it is unless the call stops or the directory has grown too large to list. */
    method Append(e: Entry, stop: Stop) returns (ok: bool)
      requires Valid()
      modifies this
      ensures Valid()
      ensures log == if old(Writes(e, stop)) then old(log) + [e] else old(log)
      ensures ok ==> old(Writes(e, stop)) && stop != AfterLine && stop != AfterNextSegment
      ensures old(Writes(e, stop)) && stop != AfterLine && stop != AfterNextSegment && old(segments) <= MAX_SEGMENTS ==> ok
      ensures interrupted == old(interrupted) + if old(Writes(e, stop)) && !ok then 1 else 0
      ensures counted == if ok then |log| else old(counted)
      ensures old(manifest).Some? || ok ==> manifest.Some?
      ensures ok ==> (CurrentName() != old(CurrentName()) <==> Bytes(size, old(CurrentLines()) + [e]) > limit)
      ensures segments <= old(segments) + 2
      ensures !Persistable(e) ==> unchanged(this)
    {
      hide SegmentName, StoreSound, ReadyToCommit, CurrentLines, Bytes;
      if !Persistable(e) {
        return false;
      }
      var loaded := LoadOrInit(stop);
      if loaded.None? || stop == BeforeLine {
        return false;
      }
      var m := loaded.value;
      WriteLine(m, e);
      if stop == AfterLine {
        WrittenIsSound(m);
        return false;
      }
      ok := Commit(m, e, stop);
      if ok && e.entryId != "" {
        cache := cache[e.entryId := e];
      }
    }

    lemma WrittenIsSound(m: Manifest)
      requires ReadyToCommit(m)
      ensures StoreSound()
    {
    }

    /** The manifest for a fresh current segment, with the old one sealed; nothing if the directory cannot be listed. */
    method Rotate(m: Manifest) returns (r: Option<Manifest>)
      requires ReadyToCommit(m) && Bytes(size, files[m.currentSegment]) > m.segmentMaxBytes
      modifies this`files, this`segments
      ensures StoreSound() && segments <= old(segments) + 1
      ensures r.None? ==> old(segments) > MAX_SEGMENTS
      ensures r.Some? ==>
        && r.value == m.(currentSegment := r.value.currentSegment, sealedSegments := r.value.sealedSegments)
        && ManifestSound(r.value, segments)
        && files[r.value.currentSegment] == []
        && r.value.currentSegment != m.currentSegment
        && (interrupted == 1 ==> Tidy(r.value, segments))
    {
      hide SegmentName, Lines, Bytes, Ascending, Normalized, Without, AllOverfull, SealedBelow, NamesUpTo, Exactly;
      ExactlyHolds(files, segments);
      var sealed := NormalizeSealedSegments(m.sealedSegments + [m.currentSegment]);
      var next := CreateNextSegment();
      if next.None? {
        return None;
      }
      ExactlyHolds(files, segments);
      SealCurrent(m.sealedSegments, current, segments);
      SealedIsNormal(m.sealedSegments + [m.currentSegment], segments, segments);
      sealed := RemoveSegment(sealed, next.value);
      if interrupted == 1 {
        OneMoreOverfull(size, old(files), files, current, m.segmentMaxBytes);
      }
      if m.currentSegment == next.value {
        NamesDistinct(current, segments);
      }
      r := Some(m.(currentSegment := next.value, sealedSegments := sealed));
    }

    /** Count the entry and write the manifest. */
    method Count(m: Manifest, e: Entry, ghost cur: nat)
      requires StoreSound() && interrupted > 0 && log != [] && log[|log| - 1] == e && ManifestSound(m, cur)
      requires interrupted == 1 ==> Tidy(m, cur) && Bytes(size, files[m.currentSegment]) <= m.segmentMaxBytes
      modifies this`manifest, this`interrupted, this`counted, this`current
      ensures StoreSound() && interrupted == old(interrupted) - 1 && counted == |log| && manifest.Some?
      ensures manifest.value.currentSegment == m.currentSegment
    {
      hide SegmentName, Lines, Bytes, Ascending, Normalized, Without, NamesUpTo, Exactly, AllOverfull;
      ExactlyHolds(files, segments);
      SealedIsNormal(m.sealedSegments, cur, cur);
      WriteManifest(m.(recordsTotal := m.recordsTotal + 1, lastHash := e.hash));
      current := cur;
      interrupted := interrupted - 1;
      counted := |log|;
      assert log[..|log|] == log;
    }

    /** Rotate if the current segment is too large, and write the manifest. */
    method Commit(m: Manifest, e: Entry, stop: Stop) returns (ok: bool)
      requires ReadyToCommit(m) && log[|log| - 1] == e
      modifies this`files, this`manifest, this`interrupted, this`counted, this`segments, this`current
      ensures StoreSound() && manifest.Some? && segments <= old(segments) + 1
      ensures interrupted == if ok then old(interrupted) - 1 else old(interrupted)
      ensures counted == if ok then |log| else old(counted)
      ensures ok ==> stop != AfterNextSegment
      ensures stop != AfterNextSegment && old(segments) <= MAX_SEGMENTS ==> ok
      ensures ok ==> (CurrentName() != m.currentSegment <==> Bytes(size, old(CurrentLines())) > limit)
    {
      hide SegmentName, Lines, Bytes, Ascending, Normalized, Without, SealedBelow, NamesUpTo, Exactly, AllOverfull;
      ExactlyHolds(files, segments);
      if Bytes(size, files[m.currentSegment]) > m.segmentMaxBytes {
        var rotated := Rotate(m);
        if rotated.None? || stop == AfterNextSegment {
          return false;
        }
        BytesOfNothing(size);
        Count(rotated.value, e, segments);
        return true;
      }
      if stop == AfterNextSegment {
        return false;
      }
      Count(m, e, current);
      ok := true;
    }

    /** Every entry in name order: the log in the order in which it was appended, whatever was cut short. */
    method ReadAll() returns (r: Option<seq<Entry>>)
      requires StoreSound()
      ensures r == if segments <= MAX_SEGMENTS then Some(log) else None
    {
      hide SegmentName, ManifestSound, CrashFreeSound;
      var names := ListDirectory(files, segments);
      if names.None? {
        return None;
      }
      var entries: seq<Entry> := [];
      for i := 0 to |names.value|
        invariant entries == Lines(files, i)
      {
        entries := entries + files[names.value[i]];
      }
      r := Some(entries);
    }

    /** Without interruptions, the manifest is exact, every segment but the current one is sealed, and each sealed segment
        exceeds the limit only by its last line: the limit the manifest was created with. */
    lemma CrashFreeManifestExact()
      requires Valid() && interrupted == 0 && manifest.Some?
      ensures var m := manifest.value;
        && m.recordsTotal == |log|
        && m.lastHash == HashChain.LastHash(log)
        && m.currentSegment == SegmentName(segments)
        && m.sealedSegments == NamesUpTo(segments - 1)
        && m.segmentMaxBytes == limit
        && forall i | 1 <= i < segments :: JustOverfull(size, files[SegmentName(i)], limit)
    {
      hide SegmentName, Bytes, Lines, SealedBelow;
    }

    /** The hash of the last line that was counted. */
    method LastHash() returns (hash: string)
      requires Valid()
      ensures counted <= |log| && hash == HashChain.LastHash(log[..counted])
    {
      hash := if manifest.None? then "" else manifest.value.lastHash;
    }

    lemma CountLags()
      requires Valid() && manifest.Some?
      ensures manifest.value.recordsTotal + interrupted == |log|
    {
      hide SegmentName, Bytes, Lines, SealedBelow, Exactly;
    }

    /** The hash that is read is that of the last line exactly when that line was counted, and the count is the number of
        lines exactly when no append was ever interrupted. */
    lemma StaleExactly()
      requires Valid() && DistinctHashes(log)
      ensures counted <= |log| && (HashChain.LastHash(log[..counted]) == HashChain.LastHash(log) <==> counted == |log|)
      ensures manifest.Some? ==> (manifest.value.recordsTotal == |log| <==> interrupted == 0)
      ensures interrupted == 0 ==> counted == |log|
    {
      hide SegmentName, Bytes, Lines, SealedBelow, Exactly;
      if counted == |log| {
        assert log[..counted] == log;
      }
    }

    /** Look an entry up in the cache, or else take the first with this ID and remember it. */
    method FindEntryById(id: string) returns (r: Option<Option<Entry>>)
      requires Valid()
      modifies this`cache
      ensures Valid()
      ensures r.None? <==> segments > MAX_SEGMENTS && id !in old(cache)
      ensures r.Some? && r.value.Some? ==> r.value.value in log && r.value.value.entryId == id
      ensures r.Some? ==> (r.value.Some? <==> exists e :: e in log && e.entryId == id)
      ensures r.Some? && r.value.Some? && id != "" ==> id in cache && cache[id] == r.value.value
    {
      hide StoreSound;
      if id in cache {
        return Some(Some(cache[id]));
      }
      var entries := ReadAll();
      if entries.None? {
        return None;
      }
      for i := 0 to |entries.value|
        invariant forall k | 0 <= k < i :: entries.value[k].entryId != id
      {
        var e := entries.value[i];
        if e.entryId == id {
          if id != "" {
            cache := cache[id := e];
          }
          return Some(Some(e));
        }
      }
      r := Some(None);
    }
  }

  ghost predicate DistinctHashes(log: seq<Entry>) {
    && (forall i | 0 <= i < |log| :: log[i].hash != "")
    && (forall i, j | 0 <= i < j < |log| :: log[i].hash != log[j].hash)
  }

  /** An append that stops after its line leaves the hash stale until the next one that succeeds, and the count for good. */
  method OneCutShort(size: Entry -> nat, a: Entry, b: Entry, c: Entry) returns (hashes: seq<string>, total: nat)
    requires Persistable(a) && Persistable(b) && Persistable(c)
    ensures hashes == [a.hash, a.hash, c.hash] && total == 2
  {
    hide Store.Valid, Store.CurrentLines, Store.CurrentName, Bytes;
    var store := new Store(1_000_000_000, size);
    var _ := store.Append(a, Never);
    var first := store.LastHash();
    var _ := store.Append(b, AfterLine);
    var second := store.LastHash();
    var _ := store.Append(c, Never);
    var third := store.LastHash();
    hashes := [first, second, third];
    store.CountLags();
    total := store.manifest.value.recordsTotal;
  }

  /** List the directory of exactly the segments 1..n. */
  method ListDirectory(files: Files, ghost n: nat) returns (names: Option<seq<string>>)
    requires Exactly(files, n)
    ensures names == if n <= MAX_SEGMENTS then Some(NamesUpTo(n)) else None
  {
    hide SegmentName, Exactly, Contiguous;
    forall m: nat ensures Contiguous(files.Keys, m) <==> m == n <= MAX_SEGMENTS {
      ListsExactly(files, n, m);
    }
    assert n <= MAX_SEGMENTS ==> Contiguous(files.Keys, n);
    names := OrderedSegmentNames(files.Keys);
  }

  lemma BytesOfNothing(size: Entry -> nat)
    ensures Bytes(size, []) == 0
  {
  }
}
