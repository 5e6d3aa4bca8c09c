/**
 Flash plans of src/plan.rs: reading, padding and range checking of the segments. The contents of a file are
 given by a parameter; 64-bit sums are shown to stay below the width of the source's types.
 */
module FlashPlan {
  import opened Mux

  type U32 = x: int | 0 <= x < 0x1_0000_0000
  type U64 = x: int | 0 <= x < 0x1_0000_0000_0000_0000

  const ADDRESS_SPACE := 0x1_0000_0000
  const MAX_ARTIFACT_BYTES := 128 * 1024 * 1024
  const SECTOR_SIZE := 4096
  const MAX_SEGMENTS := 64

  datatype FileSegment = FileSegment(offset: U32, file: string)

  datatype Plan = Plan(version: int, chip: string, settings: string, segments: seq<FileSegment>)

  datatype Segment = Segment(offset: U32, data: seq<bv8>, originalSize: nat)

  datatype PreparedPlan = PreparedPlan(chip: string, settings: string, segments: seq<Segment>)

  // ---------- padding ----------

  function NextMultiple(n: nat, m: nat): nat
    requires m > 0
  {
    (n + m - 1) / m * m
  }

  lemma NextMultipleMeans(n: nat, m: nat)
    requires m > 0
    ensures n <= NextMultiple(n, m) < n + m
  {
    assert n + m - 1 == (n + m - 1) / m * m + (n + m - 1) % m;
  }

  /** The least multiple that is not below. */
  lemma NextMultipleIsLeast(n: nat, m: nat, k: nat)
    requires m > 0
    ensures n <= k * m <==> NextMultiple(n, m) <= k * m
  {
    var q := (n + m - 1) / m;
    NextMultipleMeans(n, m);
    if q <= k {
      Monotone(q, k, m);
    } else {
      Monotone(k + 1, q, m);
    }
  }

  lemma Monotone(a: nat, b: nat, m: nat)
    requires a <= b
    ensures a * m <= b * m
  {
  }

  function Fill(n: nat): (r: seq<bv8>)
    ensures |r| == n && forall i :: 0 <= i < n ==> r[i] == 0xff
  {
    seq(n, _ => 0xff)
  }

  /** resize to the next multiple of four. */
  function Padded(data: seq<bv8>): (r: seq<bv8>)
    ensures |r| == NextMultiple(|data|, 4) && r[..|data|] == data
    ensures forall i :: |data| <= i < |r| ==> r[i] == 0xff
  {
    NextMultipleMeans(|data|, 4);
    var r := data + Fill(NextMultiple(|data|, 4) - |data|);
    assert r[..|data|] == data;
    r
  }

  // ---------- sorting ----------

  /** Where an element goes: behind all that are not greater. */
  function Place<T>(s: seq<T>, x: T, key: T -> nat): (p: nat)
    ensures p <= |s|
    ensures p > 0 ==> key(s[p - 1]) <= key(x)
    ensures forall i :: p <= i < |s| ==> key(x) < key(s[i])
  {
    if s == [] then 0
    else if key(s[|s| - 1]) <= key(x) then |s|
    else Place(s[..|s| - 1], x, key)
  }

  function Spliced<T>(s: seq<T>, p: nat, x: T): (r: seq<T>)
    requires p <= |s|
    ensures |r| == |s| + 1 && r[p] == x
    ensures forall i :: 0 <= i < p ==> r[i] == s[i]
    ensures forall i :: p < i < |r| ==> r[i] == s[i - 1]
  {
    s[..p] + [x] + s[p..]
  }

  function Insert<T>(s: seq<T>, x: T, key: T -> nat): seq<T> {
    Spliced(s, Place(s, x, key), x)
  }

  /** sort_by_key, which is stable. */
  function Sort<T>(s: seq<T>, key: T -> nat): seq<T> {
    if s == [] then [] else Insert(Sort(s[..|s| - 1], key), s[|s| - 1], key)
  }

  predicate SortedBy<T>(s: seq<T>, key: T -> nat) {
    forall i, j :: 0 <= i < j < |s| ==> key(s[i]) <= key(s[j])
  }

  lemma InsertSorts<T>(s: seq<T>, x: T, key: T -> nat)
    requires SortedBy(s, key)
    ensures SortedBy(Insert(s, x, key), key) && |Insert(s, x, key)| == |s| + 1
    ensures multiset(Insert(s, x, key)) == multiset(s) + multiset{x}
  {
    SplicedBag(s, Place(s, x, key), x);
    hide Place;
    hide Spliced;
    var p := Place(s, x, key);
    var r := Insert(s, x, key);
    forall i, j | 0 <= i < j < |r| ensures key(r[i]) <= key(r[j]) {
      if j == p && i < p - 1 {
        assert key(s[i]) <= key(s[p - 1]);
      }
    }
  }

  lemma SplicedBag<T>(s: seq<T>, p: nat, x: T)
    requires p <= |s|
    ensures multiset(Spliced(s, p, x)) == multiset(s) + multiset{x}
  {
    assert s == s[..p] + s[p..];
  }

  lemma {:induction false} SortSorts<T>(s: seq<T>, key: T -> nat)
    ensures SortedBy(Sort(s, key), key) && |Sort(s, key)| == |s|
    ensures multiset(Sort(s, key)) == multiset(s)
  {
    hide Insert;
    if s != [] {
      var n := |s| - 1;
      SortSorts(s[..n], key);
      InsertSorts(Sort(s[..n], key), s[n], key);
      assert s == s[..n] + [s[n]];
    }
  }

  lemma InsertLast<T>(s: seq<T>, x: T, key: T -> nat)
    requires s != [] ==> key(s[|s| - 1]) <= key(x)
    ensures Insert(s, x, key) == s + [x]
  {
    assert Place(s, x, key) == |s|;
  }

  lemma {:induction false} SortOfSorted<T>(s: seq<T>, key: T -> nat)
    requires SortedBy(s, key)
    ensures Sort(s, key) == s
  {
    hide Insert;
    if s != [] {
      var n := |s| - 1;
      SortOfSorted(s[..n], key);
      InsertLast(s[..n], s[n], key);
      assert s[..n] + [s[n]] == s;
    }
  }

  // ---------- erase sectors ----------

  datatype Range = Range(offset: nat, size: nat)

  predicate Touches(r: Range, sector: int) {
    exists a :: r.offset <= a < r.offset + r.size && a / SECTOR_SIZE == sector
  }

  ghost predicate Disjoint(a: Range, b: Range) {
    forall sector :: !(Touches(a, sector) && Touches(b, sector))
  }

  ghost predicate PairwiseDisjoint(rs: seq<Range>) {
    forall i, j :: 0 <= i < j < |rs| ==> Disjoint(rs[i], rs[j])
  }

  function EraseEnd(r: Range): nat {
    NextMultiple(r.offset + r.size, SECTOR_SIZE)
  }

  function SectorStart(r: Range): nat {
    r.offset / SECTOR_SIZE * SECTOR_SIZE
  }

  /** The check of one adjacent pair. */
  predicate Clear(a: Range, b: Range) {
    EraseEnd(a) <= SectorStart(b)
  }

  predicate AdjacentClear(rs: seq<Range>) {
    forall i :: 0 <= i < |rs| - 1 ==> Clear(rs[i], rs[i + 1])
  }

  lemma ClearIffDisjoint(a: Range, b: Range)
    requires a.offset <= b.offset && a.size > 0 && b.size > 0
    ensures Clear(a, b) <==> Disjoint(a, b)
  {
    hide Touches;
    var k := b.offset / SECTOR_SIZE;
    NextMultipleIsLeast(a.offset + a.size, SECTOR_SIZE, k);
    assert SectorStart(b) == k * SECTOR_SIZE;
    assert Clear(a, b) <==> NextMultiple(a.offset + a.size, SECTOR_SIZE) <= k * SECTOR_SIZE;
    assert Clear(a, b) <==> a.offset + a.size <= k * SECTOR_SIZE;
    if a.offset + a.size <= k * SECTOR_SIZE {
      forall sector ensures !(Touches(a, sector) && Touches(b, sector)) {
        ApartSectors(a, b, k, sector);
      }
    } else {
      SharedSector(a, b, k);
      assert Touches(a, k) && Touches(b, k);
    }
  }

  lemma ApartSectors(a: Range, b: Range, k: nat, sector: int)
    requires a.offset + a.size <= k * SECTOR_SIZE <= b.offset
    ensures !(Touches(a, sector) && Touches(b, sector))
  {
  }

  lemma SharedSector(a: Range, b: Range, k: nat)
    requires a.offset <= b.offset && a.size > 0 && b.size > 0 && k == b.offset / SECTOR_SIZE
    requires a.offset + a.size > k * SECTOR_SIZE
    ensures Touches(a, k) && Touches(b, k)
  {
    var x := if a.offset >= k * SECTOR_SIZE then a.offset else k * SECTOR_SIZE;
    assert a.offset <= x < a.offset + a.size && x / SECTOR_SIZE == k;
    assert b.offset / SECTOR_SIZE == k;
  }

  function RangeOffset(r: Range): nat {
    r.offset
  }

  predicate NonEmpty(rs: seq<Range>) {
    forall i :: 0 <= i < |rs| ==> rs[i].size > 0
  }

  lemma {:induction false} ClearIsTransitive(rs: seq<Range>, i: nat, j: nat)
    requires AdjacentClear(rs) && i < j < |rs|
    ensures Clear(rs[i], rs[j])
    decreases j - i
  {
    hide NextMultiple;
    if i + 1 < j {
      ClearIsTransitive(rs, i + 1, j);
      StartBeforeEnd(rs[i + 1]);
    }
  }

  lemma StartBeforeEnd(r: Range)
    ensures SectorStart(r) <= EraseEnd(r)
  {
    NextMultipleMeans(r.offset + r.size, SECTOR_SIZE);
  }

  /** On sorted ranges, the adjacent check says that no two of them share an erase sector. */
  lemma AdjacentIffDisjoint(rs: seq<Range>)
    requires SortedBy(rs, RangeOffset) && NonEmpty(rs)
    ensures AdjacentClear(rs) <==> PairwiseDisjoint(rs)
  {
    hide Clear;
    hide Disjoint;
    if AdjacentClear(rs) {
      forall i, j | 0 <= i < j < |rs| ensures Disjoint(rs[i], rs[j]) {
        ClearIsTransitive(rs, i, j);
        InOrder(rs, i, j);
        ClearIffDisjoint(rs[i], rs[j]);
      }
    }
    if PairwiseDisjoint(rs) {
      forall i | 0 <= i < |rs| - 1 ensures Clear(rs[i], rs[i + 1]) {
        InOrder(rs, i, i + 1);
        ClearIffDisjoint(rs[i], rs[i + 1]);
      }
    }
  }

  lemma InOrder(rs: seq<Range>, i: nat, j: nat)
    requires SortedBy(rs, RangeOffset) && i < j < |rs|
    ensures rs[i].offset <= rs[j].offset
  {
    assert RangeOffset(rs[i]) <= RangeOffset(rs[j]);
  }

  lemma DisjointIsSymmetric(a: Range, b: Range)
    ensures Disjoint(a, b) <==> Disjoint(b, a)
  {
    hide Touches;
    forall sector ensures !(Touches(a, sector) && Touches(b, sector)) <==> !(Touches(b, sector) && Touches(a, sector)) {
    }
    if Disjoint(a, b) {
      assert forall sector :: !(Touches(a, sector) && Touches(b, sector));
    }
    if Disjoint(b, a) {
      assert forall sector :: !(Touches(b, sector) && Touches(a, sector));
    }
  }

  ghost predicate ApartFromAll(x: Range, rs: seq<Range>) {
    forall i :: 0 <= i < |rs| ==> Disjoint(rs[i], x)
  }

  /** Wherever a range stands among the others. */
  lemma DisjointAnywhere(rs: seq<Range>, x: Range, p: nat)
    requires p <= |rs|
    ensures PairwiseDisjoint(Spliced(rs, p, x)) <==> PairwiseDisjoint(rs) && ApartFromAll(x, rs)
  {
    hide Disjoint;
    hide Spliced;
    var all := Spliced(rs, p, x);
    if PairwiseDisjoint(all) {
      forall i | 0 <= i < |rs| ensures Disjoint(rs[i], x) {
        DisjointIsSymmetric(x, rs[i]);
        assert if i < p then Disjoint(all[i], all[p]) else Disjoint(all[p], all[i + 1]);
      }
      forall i, j | 0 <= i < j < |rs| ensures Disjoint(rs[i], rs[j]) {
        var (k, l) := (if i < p then i else i + 1, if j < p then j else j + 1);
        assert Disjoint(all[k], all[l]);
      }
    }
    if PairwiseDisjoint(rs) && ApartFromAll(x, rs) {
      forall i, j | 0 <= i < j < |all| ensures Disjoint(all[i], all[j]) {
        if i == p {
          DisjointIsSymmetric(x, rs[j - 1]);
        }
      }
    }
  }

  lemma DisjointPush(rs: seq<Range>)
    requires rs != []
    ensures var n := |rs| - 1;
            && (PairwiseDisjoint(rs) <==> PairwiseDisjoint(rs[..n]) && ApartFromAll(rs[n], rs[..n]))
            && forall x :: ApartFromAll(x, rs) <==> ApartFromAll(x, rs[..n]) && Disjoint(rs[n], x)
  {
    hide Disjoint;
    hide PairwiseDisjoint;
    hide ApartFromAll;
    var n := |rs| - 1;
    assert Spliced(rs[..n], n, rs[n]) == rs;
    DisjointAnywhere(rs[..n], rs[n], n);
    forall x ensures ApartFromAll(x, rs) <==> ApartFromAll(x, rs[..n]) && Disjoint(rs[n], x) {
      ApartAnywhere(rs[..n], rs[n], n, x);
    }
  }

  lemma {:induction false} DisjointWhenSorted(rs: seq<Range>)
    ensures PairwiseDisjoint(Sort(rs, RangeOffset)) <==> PairwiseDisjoint(rs)
    ensures forall x :: ApartFromAll(x, Sort(rs, RangeOffset)) <==> ApartFromAll(x, rs)
  {
    hide Disjoint;
    hide PairwiseDisjoint;
    hide ApartFromAll;
    hide Place;
    if rs != [] {
      var n := |rs| - 1;
      var sorted := Sort(rs[..n], RangeOffset);
      DisjointWhenSorted(rs[..n]);
      DisjointPush(rs);
      var p := Place(sorted, rs[n], RangeOffset);
      DisjointAnywhere(sorted, rs[n], p);
      forall x ensures ApartFromAll(x, Sort(rs, RangeOffset)) <==> ApartFromAll(x, rs) {
        ApartAnywhere(sorted, rs[n], p, x);
      }
    }
  }

  lemma ApartAnywhere(rs: seq<Range>, y: Range, p: nat, x: Range)
    requires p <= |rs|
    ensures ApartFromAll(x, Spliced(rs, p, y)) <==> ApartFromAll(x, rs) && Disjoint(y, x)
  {
    hide Disjoint;
    hide Spliced;
    var all := Spliced(rs, p, y);
    assert forall i :: 0 <= i < |rs| ==> rs[i] == all[if i < p then i else i + 1];
  }

  /** For any number of segments in any order: the sorted adjacent check says that no two share an erase sector. */
  lemma CheckIsExact(rs: seq<Range>)
    requires NonEmpty(rs)
    ensures AdjacentClear(Sort(rs, RangeOffset)) <==> PairwiseDisjoint(rs)
  {
    hide AdjacentClear;
    hide PairwiseDisjoint;
    hide Sort;
    SortSorts(rs, RangeOffset);
    var sorted := Sort(rs, RangeOffset);
    forall i | 0 <= i < |sorted| ensures sorted[i].size > 0 {
      assert sorted[i] in multiset(sorted);
      assert sorted[i] in multiset(rs);
      assert sorted[i] in rs;
    }
    AdjacentIffDisjoint(sorted);
    DisjointWhenSorted(rs);
  }

  // ---------- preparing ----------

  function RangeOf(s: Segment): Range {
    Range(s.offset, |s.data|)
  }

  function Ranges(segments: seq<Segment>): (r: seq<Range>)
    ensures |r| == |segments|
  {
    seq(|segments|, i requires 0 <= i < |segments| => RangeOf(segments[i]))
  }

  function SegmentOffset(s: Segment): nat {
    s.offset
  }

  lemma {:induction false} PlaceOfRange(segments: seq<Segment>, x: Segment)
    ensures Place(Ranges(segments), RangeOf(x), RangeOffset) == Place(segments, x, SegmentOffset)
  {
    if segments != [] {
      var n := |segments| - 1;
      assert Ranges(segments)[..n] == Ranges(segments[..n]);
      PlaceOfRange(segments[..n], x);
    }
  }

  lemma RangesSpliced(segments: seq<Segment>, p: nat, x: Segment)
    requires p <= |segments|
    ensures Ranges(Spliced(segments, p, x)) == Spliced(Ranges(segments), p, RangeOf(x))
  {
    hide Spliced;
  }

  /** Sorting segments sorts their ranges. */
  lemma {:induction false} RangesOfSorted(segments: seq<Segment>)
    ensures Ranges(Sort(segments, SegmentOffset)) == Sort(Ranges(segments), RangeOffset)
  {
    hide Place;
    hide Spliced;
    if segments != [] {
      var n := |segments| - 1;
      var sorted := Sort(segments[..n], SegmentOffset);
      RangesOfSorted(segments[..n]);
      assert Ranges(segments)[..n] == Ranges(segments[..n]);
      PlaceOfRange(sorted, segments[n]);
      RangesSpliced(sorted, Place(sorted, segments[n], SegmentOffset), segments[n]);
    }
  }

  datatype PrepareError =
    | UnsupportedVersion
    | ChipRequired
    | SegmentCount
    | Unaligned
    | MissingArtifact
    | TooLarge
    | EmptyArtifact
    | BeyondAddressSpace
    | Overlap

  datatype Prepared = Ready(plan: PreparedPlan) | Rejected(error: PrepareError)

  type Files = string -> Option<seq<bv8>>

  /** A segment whose file can be used at its offset. */
  predicate Usable(s: FileSegment, files: Files) {
    && s.offset % 4 == 0
    && files(s.file).Some? && files(s.file).value != []
    && s.offset + NextMultiple(|files(s.file).value|, 4) <= ADDRESS_SPACE
  }

  predicate AllUsable(segments: seq<FileSegment>, files: Files) {
    forall i :: 0 <= i < |segments| ==> Usable(segments[i], files)
  }

  function SizeOf(s: FileSegment, files: Files): nat {
    if files(s.file).Some? then |files(s.file).value| else 0
  }

  function TotalSize(segments: seq<FileSegment>, files: Files): nat {
    if segments == [] then 0
    else TotalSize(segments[..|segments| - 1], files) + SizeOf(segments[|segments| - 1], files)
  }

  function Loaded(s: FileSegment, files: Files): Segment
    requires files(s.file).Some?
  {
    Segment(s.offset, Padded(files(s.file).value), |files(s.file).value|)
  }

  function AllLoaded(segments: seq<FileSegment>, files: Files): (r: seq<Segment>)
    requires AllUsable(segments, files)
    ensures |r| == |segments|
  {
    seq(|segments|, i requires 0 <= i < |segments| => Loaded(segments[i], files))
  }

  /** The plans that prepare accepts, said without the order of its checks. */
  ghost predicate Acceptable(p: Plan, files: Files) {
    && p.version == 1 && p.chip != "" && 1 <= |p.segments| <= MAX_SEGMENTS
    && TotalSize(p.segments, files) <= MAX_ARTIFACT_BYTES
    && AllUsable(p.segments, files)
    && PairwiseDisjoint(Ranges(AllLoaded(p.segments, files)))
  }

  lemma {:induction false} TotalGrows(segments: seq<FileSegment>, files: Files, i: nat)
    requires i <= |segments|
    ensures TotalSize(segments[..i], files) <= TotalSize(segments, files)
    decreases |segments|
  {
    if i < |segments| {
      assert segments[..|segments| - 1][..i] == segments[..i];
      TotalGrows(segments[..|segments| - 1], files, i);
    } else {
      assert segments[..i] == segments;
    }
  }

  /** The first check that a segment fails, after files of `before` bytes. */
  function SegmentError(s: FileSegment, files: Files, before: nat): Option<PrepareError> {
    if s.offset % 4 != 0 then Some(Unaligned)
    else if files(s.file).None? then Some(MissingArtifact)
    else
      var size := |files(s.file).value|;
      if before + size > MAX_ARTIFACT_BYTES then Some(TooLarge)
      else if size == 0 then Some(EmptyArtifact)
      else if s.offset + NextMultiple(size, 4) > ADDRESS_SPACE then Some(BeyondAddressSpace)
      else None
  }

  lemma SegmentErrorMeans(s: FileSegment, files: Files, before: nat)
    ensures SegmentError(s, files, before) == None <==>
              Usable(s, files) && before + SizeOf(s, files) <= MAX_ARTIFACT_BYTES
  {
    hide NextMultiple;
  }

  /** The segments before i pass their checks, and segment i fails with this error. */
  predicate FailsAt(segments: seq<FileSegment>, files: Files, i: nat, e: PrepareError)
    requires i < |segments|
  {
    && AllUsable(segments[..i], files) && TotalSize(segments[..i], files) <= MAX_ARTIFACT_BYTES
    && SegmentError(segments[i], files, TotalSize(segments[..i], files)) == Some(e)
  }

  lemma PassedBefore(segments: seq<FileSegment>, files: Files, i: nat, j: nat, e: PrepareError)
    requires i < j <= |segments| && FailsAt(segments, files, i, e)
    ensures !AllUsable(segments[..j], files) || TotalSize(segments[..j], files) > MAX_ARTIFACT_BYTES
  {
    hide NextMultiple;
    var earlier := segments[..j];
    assert earlier[i] == segments[i] && earlier[..i + 1][..i] == segments[..i];
    TotalGrows(earlier, files, i + 1);
    SegmentErrorMeans(segments[i], files, TotalSize(segments[..i], files));
  }

  lemma StopsAt(segments: seq<FileSegment>, files: Files, i: nat)
    requires i < |segments| && AllUsable(segments[..i], files) && TotalSize(segments[..i], files) <= MAX_ARTIFACT_BYTES
    ensures var failure := SegmentError(segments[i], files, TotalSize(segments[..i], files));
            failure.Some? ==>
              && FailsAt(segments, files, i, failure.value)
              && !(AllUsable(segments, files) && TotalSize(segments, files) <= MAX_ARTIFACT_BYTES)
  {
    hide AllUsable;
    hide SegmentError;
    var failure := SegmentError(segments[i], files, TotalSize(segments[..i], files));
    if failure.Some? {
      PassedBefore(segments, files, i, |segments|, failure.value);
      assert segments[..|segments|] == segments;
    }
  }

  lemma GoesOn(segments: seq<FileSegment>, files: Files, i: nat)
    requires i < |segments| && AllUsable(segments[..i], files) && TotalSize(segments[..i], files) <= MAX_ARTIFACT_BYTES
    requires SegmentError(segments[i], files, TotalSize(segments[..i], files)).None?
    ensures AllUsable(segments[..i + 1], files)
    ensures AllLoaded(segments[..i + 1], files) == AllLoaded(segments[..i], files) + [Loaded(segments[i], files)]
    ensures TotalSize(segments[..i + 1], files)
         == TotalSize(segments[..i], files) + SizeOf(segments[i], files) <= MAX_ARTIFACT_BYTES
  {
    hide NextMultiple;
    hide Loaded;
    assert segments[..i + 1][..i] == segments[..i];
    SegmentErrorMeans(segments[i], files, TotalSize(segments[..i], files));
  }

  /**
   The loop over the segments: reading, padding and the checks of one segment. It succeeds exactly if every segment
   can be used, and otherwise reports the first check that fails.
   */
  method Load(segments: seq<FileSegment>, files: Files) returns (r: seq<Segment>, error: Option<PrepareError>)
    ensures error.None? <==> AllUsable(segments, files) && TotalSize(segments, files) <= MAX_ARTIFACT_BYTES
    ensures error.None? ==> r == AllLoaded(segments, files)
    ensures error.Some? ==> exists i :: 0 <= i < |segments| && FailsAt(segments, files, i, error.value)
  {
    hide Padded;
    hide NextMultiple;
    hide AllUsable;
    hide AllLoaded;
    hide FailsAt;
    r := [];
    var total := 0;
    NothingLoaded(files);
    assert segments[..0] == [];
    for i := 0 to |segments|
      invariant AllUsable(segments[..i], files) && r == AllLoaded(segments[..i], files)
      invariant total == TotalSize(segments[..i], files) <= MAX_ARTIFACT_BYTES
    {
      var s := segments[i];
      StopsAt(segments, files, i);
      if s.offset % 4 != 0 {
        return r, Some(Unaligned);
      }
      var file := files(s.file);
      if file.None? {
        return r, Some(MissingArtifact);
      }
      // The reader stops one byte beyond what is still allowed; that bound does not underflow.
      var limit: U64 := MAX_ARTIFACT_BYTES - total + 1;
      var data := if |file.value| <= limit then file.value else file.value[..limit];
      total := total + |data|;
      if total > MAX_ARTIFACT_BYTES {
        return r, Some(TooLarge);
      }
      if data == [] {
        return r, Some(EmptyArtifact);
      }
      var originalSize := |data|;
      data := Padded(data);
      NextMultipleMeans(originalSize, 4);
      var end: U64 := s.offset + |data|;
      if end > ADDRESS_SPACE {
        return r, Some(BeyondAddressSpace);
      }
      GoesOn(segments, files, i);
      r := r + [Segment(s.offset, data, originalSize)];
    }
    assert segments[..|segments|] == segments;
    return r, None;
  }

  lemma NothingLoaded(files: Files)
    ensures AllUsable([], files) && AllLoaded([], files) == []
  {
  }

  /** The check of adjacent pairs; its 64-bit arithmetic does not overflow. */
  method CheckPairs(segments: seq<Segment>) returns (ok: bool)
    requires forall s :: s in segments ==> s.offset + |s.data| <= ADDRESS_SPACE
    ensures ok == AdjacentClear(Ranges(segments))
  {
    hide NextMultiple;
    var rs := Ranges(segments);
    var i := 1;
    while i < |segments|
      invariant 1 <= i && (i <= |segments| || i == 1)
      invariant forall j :: 0 <= j < i - 1 ==> Clear(rs[j], rs[j + 1])
    {
      EndFits(segments[i - 1]);
      var eraseEnd: U64 := NextMultiple(segments[i - 1].offset + |segments[i - 1].data|, SECTOR_SIZE);
      var nextStart: U64 := segments[i].offset / SECTOR_SIZE * SECTOR_SIZE;
      assert rs[i] == RangeOf(segments[i]) && rs[i - 1] == RangeOf(segments[i - 1]);
      if eraseEnd > nextStart {
        assert !Clear(rs[i - 1], rs[i]);
        return false;
      }
      i := i + 1;
    }
    return true;
  }

  lemma EndFits(s: Segment)
    requires s.offset + |s.data| <= ADDRESS_SPACE
    ensures NextMultiple(s.offset + |s.data|, SECTOR_SIZE) <= ADDRESS_SPACE
  {
    NextMultipleIsLeast(s.offset + |s.data|, SECTOR_SIZE, 0x10_0000);
  }

  lemma LoadedNotEmpty(segments: seq<FileSegment>, files: Files)
    requires AllUsable(segments, files)
    ensures NonEmpty(Ranges(AllLoaded(segments, files)))
    ensures forall s :: s in AllLoaded(segments, files) ==> s.offset + |s.data| <= ADDRESS_SPACE
  {
    var r := AllLoaded(segments, files);
    forall i | 0 <= i < |segments|
      ensures |r[i].data| > 0 && r[i].offset + |r[i].data| <= ADDRESS_SPACE
    {
      assert Usable(segments[i], files);
      NextMultipleMeans(|files(segments[i].file).value|, 4);
    }
  }

  lemma SortKeepsMembers(segments: seq<Segment>)
    ensures forall s :: s in Sort(segments, SegmentOffset) <==> s in segments
  {
    SortSorts(segments, SegmentOffset);
    forall s ensures s in Sort(segments, SegmentOffset) <==> s in segments {
      assert s in Sort(segments, SegmentOffset) <==> s in multiset(Sort(segments, SegmentOffset));
      assert s in segments <==> s in multiset(segments);
    }
  }

  /** The first check that a plan fails. */
  ghost predicate Fails(p: Plan, files: Files, e: PrepareError) {
    if p.version != 1 then e == UnsupportedVersion
    else if p.chip == "" then e == ChipRequired
    else if !(1 <= |p.segments| <= MAX_SEGMENTS) then e == SegmentCount
    else if AllUsable(p.segments, files) && TotalSize(p.segments, files) <= MAX_ARTIFACT_BYTES then
      e == Overlap && !PairwiseDisjoint(Ranges(AllLoaded(p.segments, files)))
    else exists i :: 0 <= i < |p.segments| && FailsAt(p.segments, files, i, e)
  }

  /** No byte of one range is in an erase sector of 4096 bytes with a byte of the other. */
  ghost predicate InDifferentSectors(a: Range, b: Range) {
    forall x: int, y: int ::
      a.offset <= x < a.offset + a.size && b.offset <= y < b.offset + b.size ==> x / 4096 != y / 4096
  }

  lemma DifferentSectors(a: Range, b: Range)
    ensures Disjoint(a, b) <==> InDifferentSectors(a, b)
  {
    if Disjoint(a, b) {
      forall x: int, y: int | a.offset <= x < a.offset + a.size && b.offset <= y < b.offset + b.size
        ensures x / 4096 != y / 4096
      {
        assert Touches(a, x / SECTOR_SIZE) && Touches(b, y / SECTOR_SIZE);
      }
    }
  }

  ghost predicate AllInDifferentSectors(rs: seq<Range>) {
    forall i, j :: 0 <= i < j < |rs| ==> InDifferentSectors(rs[i], rs[j])
  }

  lemma AllDifferentSectors(rs: seq<Range>)
    ensures PairwiseDisjoint(rs) <==> AllInDifferentSectors(rs)
  {
    hide Disjoint;
    hide InDifferentSectors;
    forall i, j | 0 <= i < j < |rs| ensures Disjoint(rs[i], rs[j]) <==> InDifferentSectors(rs[i], rs[j]) {
      DifferentSectors(rs[i], rs[j]);
    }
  }

  /** Every file is there, is not empty, and fits at its offset once its size is rounded up to whole words. */
  predicate FilesFit(segments: seq<FileSegment>, files: Files) {
    forall i :: 0 <= i < |segments| ==>
      && segments[i].offset % 4 == 0 && files(segments[i].file).Some? && files(segments[i].file).value != []
      && segments[i].offset + (|files(segments[i].file).value| + 3) / 4 * 4 <= 4294967296
  }

  /** The plans that prepare accepts: 1 to 64 segments of at most 128 MiB, in different erase sectors. */
  lemma AcceptableExactly(p: Plan, files: Files)
    ensures AllUsable(p.segments, files) <==> FilesFit(p.segments, files)
    ensures Acceptable(p, files) <==>
              && p.version == 1 && p.chip != "" && 1 <= |p.segments| <= 64
              && TotalSize(p.segments, files) <= 134217728
              && FilesFit(p.segments, files) && AllInDifferentSectors(Ranges(AllLoaded(p.segments, files)))
  {
    hide PairwiseDisjoint;
    hide AllInDifferentSectors;
    hide TotalSize;
    if AllUsable(p.segments, files) {
      AllDifferentSectors(Ranges(AllLoaded(p.segments, files)));
    }
    assert AllUsable(p.segments, files) <==> FilesFit(p.segments, files);
  }

  /** A plan fails with at most one error, and with none if it is acceptable. */
  lemma OneError(p: Plan, files: Files, e: PrepareError, other: PrepareError)
    requires Fails(p, files, e)
    ensures !Acceptable(p, files) && (Fails(p, files, other) ==> other == e)
  {
    hide PairwiseDisjoint;
    hide AllUsable;
    hide FailsAt;
    if Fails(p, files, other) && other != e {
      var i :| 0 <= i < |p.segments| && FailsAt(p.segments, files, i, e);
      var j :| 0 <= j < |p.segments| && FailsAt(p.segments, files, j, other);
      OneErrorAt(p.segments, files, i, j, e, other);
    }
  }

  lemma OneErrorAt(segments: seq<FileSegment>, files: Files, i: nat, j: nat, e: PrepareError, other: PrepareError)
    requires i < |segments| && j < |segments| && FailsAt(segments, files, i, e) && FailsAt(segments, files, j, other)
    ensures e == other
  {
    hide AllUsable;
    if i < j {
      PassedBefore(segments, files, i, j, e);
    } else if j < i {
      PassedBefore(segments, files, j, i, other);
    }
  }

  /** FlashPlan::prepare: it accepts exactly the acceptable plans, and sorts their padded segments. */
  method Prepare(p: Plan, files: Files) returns (r: Prepared)
    ensures r.Ready? <==> Acceptable(p, files)
    ensures r.Ready? ==> r.plan == PreparedPlan(p.chip, p.settings, Sort(AllLoaded(p.segments, files), SegmentOffset))
    ensures r.Rejected? ==> Fails(p, files, r.error)
  {
    hide AllUsable;
    hide PairwiseDisjoint;
    hide AdjacentClear;
    hide Sort;
    hide NonEmpty;
    hide TotalSize;
    hide FailsAt;
    if p.version != 1 {
      return Rejected(UnsupportedVersion);
    }
    if p.chip == "" {
      return Rejected(ChipRequired);
    }
    if !(1 <= |p.segments| <= MAX_SEGMENTS) {
      return Rejected(SegmentCount);
    }
    var loaded, error := Load(p.segments, files);
    if error.Some? {
      return Rejected(error.value);
    }
    LoadedNotEmpty(p.segments, files);
    SortKeepsMembers(loaded);
    RangesOfSorted(loaded);
    CheckIsExact(Ranges(loaded));
    var sorted := Sort(loaded, SegmentOffset);
    var ok := CheckPairs(sorted);
    if !ok {
      return Rejected(Overlap);
    }
    return Ready(PreparedPlan(p.chip, p.settings, sorted));
  }

  /** validate_capacity. */
  method ValidateCapacity(plan: PreparedPlan, size: U32) returns (ok: bool)
    ensures ok <==> forall i :: 0 <= i < |plan.segments| ==> plan.segments[i].offset + |plan.segments[i].data| <= size
  {
    for i := 0 to |plan.segments|
      invariant forall j :: 0 <= j < i ==> plan.segments[j].offset + |plan.segments[j].data| <= size
    {
      if plan.segments[i].offset + |plan.segments[i].data| > size {
        return false;
      }
    }
    return true;
  }

  // ---------- what a prepared plan is ----------

  function Original(s: Segment): seq<bv8>
    requires s.originalSize <= |s.data|
  {
    s.data[..s.originalSize]
  }

  predicate SoundSegment(s: Segment) {
    && s.offset % 4 == 0
    && 0 < s.originalSize <= |s.data|
    && s.data == Padded(Original(s))
    && s.offset + |s.data| <= ADDRESS_SPACE
  }

  /** Padded segments in the order of their offsets, in disjoint erase sectors. */
  ghost predicate Sound(plan: PreparedPlan) {
    && plan.chip != "" && 1 <= |plan.segments| <= MAX_SEGMENTS
    && (forall i :: 0 <= i < |plan.segments| ==> SoundSegment(plan.segments[i]))
    && SortedBy(plan.segments, SegmentOffset)
    && PairwiseDisjoint(Ranges(plan.segments))
  }

  lemma LoadedIsSound(s: FileSegment, files: Files)
    requires Usable(s, files)
    ensures SoundSegment(Loaded(s, files))
  {
    NextMultipleMeans(|files(s.file).value|, 4);
  }

  /** Whatever prepare produces is sound. */
  lemma PreparedIsSound(p: Plan, files: Files)
    requires Acceptable(p, files)
    ensures Sound(PreparedPlan(p.chip, p.settings, Sort(AllLoaded(p.segments, files), SegmentOffset)))
  {
    hide PairwiseDisjoint;
    hide Sort;
    hide Loaded;
    hide SoundSegment;
    hide Usable;
    var loaded := AllLoaded(p.segments, files);
    var sorted := Sort(loaded, SegmentOffset);
    SortSorts(loaded, SegmentOffset);
    SortKeepsMembers(loaded);
    RangesOfSorted(loaded);
    DisjointWhenSorted(Ranges(loaded));
    forall i | 0 <= i < |sorted| ensures SoundSegment(sorted[i]) {
      assert sorted[i] in loaded;
      var j :| 0 <= j < |loaded| && loaded[j] == sorted[i];
      LoadedIsSound(p.segments[j], files);
    }
  }
  /** The segment is the file, at its offset. */
  predicate HoldsFile(s: Segment, f: FileSegment, files: Files) {
    s.offset == f.offset && s.originalSize <= |s.data| && files(f.file) == Some(Original(s))
  }

  predicate FileHeld(f: FileSegment, segments: seq<Segment>, files: Files) {
    exists j :: 0 <= j < |segments| && HoldsFile(segments[j], f, files)
  }

  predicate FromFile(s: Segment, from: seq<FileSegment>, files: Files) {
    exists i :: 0 <= i < |from| && HoldsFile(s, from[i], files)
  }

  /** The prepared segments are the files of the plan, each at its offset, and no others. */
  lemma PreparedHolds(p: Plan, files: Files)
    requires Acceptable(p, files)
    ensures var segments := Sort(AllLoaded(p.segments, files), SegmentOffset);
            && |segments| == |p.segments|
            && (forall i :: 0 <= i < |p.segments| ==> FileHeld(p.segments[i], segments, files))
            && (forall j :: 0 <= j < |segments| ==> FromFile(segments[j], p.segments, files))
  {
    hide Sort;
    hide Loaded;
    hide Usable;
    hide HoldsFile;
    hide PairwiseDisjoint;
    hide FileHeld;
    hide FromFile;
    var loaded := AllLoaded(p.segments, files);
    var sorted := Sort(loaded, SegmentOffset);
    SortSorts(loaded, SegmentOffset);
    SortKeepsMembers(loaded);
    forall i | 0 <= i < |p.segments|
      ensures FileHeld(p.segments[i], sorted, files) && FromFile(loaded[i], p.segments, files)
    {
      LoadedHolds(p.segments[i], files);
      assert loaded[i] in sorted;
      HeldBy(p.segments, i, loaded[i], sorted, files);
    }
    forall j | 0 <= j < |sorted| ensures FromFile(sorted[j], p.segments, files) {
      assert sorted[j] in loaded;
    }
  }

  lemma HeldBy(from: seq<FileSegment>, i: nat, s: Segment, segments: seq<Segment>, files: Files)
    requires i < |from| && s in segments && HoldsFile(s, from[i], files)
    ensures FileHeld(from[i], segments, files) && FromFile(s, from, files)
  {
    hide HoldsFile;
    var j :| 0 <= j < |segments| && segments[j] == s;
    assert HoldsFile(segments[j], from[i], files);
  }

  lemma LoadedHolds(s: FileSegment, files: Files)
    requires Usable(s, files)
    ensures HoldsFile(Loaded(s, files), s, files)
  {
    NextMultipleMeans(|files(s.file).value|, 4);
  }
}
