/**
 The upload form of a flash plan in src/wire.rs: what the client sends, what the server accepts, and the plan it
 rebuilds. The SHA-256 of a part is given by a parameter.
 */
module Upload {
  import opened Mux
  import opened FlashPlan
  import opened Decimals

  const MAX_UPLOAD_BYTES := 32 * 1024 * 1024
  const MAX_WARNINGS := 64

  datatype Part = Part(part: string, offset: U32, size: U64, sha256: string)

  datatype Warning = EmptyIdfImageSkipped(image: Option<string>, offset: U32)

  datatype Manifest = Manifest(
    device: string,
    version: int,
    chip: string,
    settings: string,
    segments: seq<Part>,
    flashBaud: U32,
    monitorBaud: U32,
    noResetBefore: bool,
    warnings: seq<Warning>)

  type Digest = seq<bv8> -> string

  predicate HexDigit(c: char) {
    '0' <= c <= '9' || 'a' <= c <= 'f'
  }

  predicate LowerHex(s: string) {
    |s| == 64 && forall i :: 0 <= i < |s| ==> HexDigit(s[i])
  }

  /** Every digest is printed as 64 lower-case hexadecimal digits. */
  ghost predicate PrintsHex(sha: Digest) {
    forall data :: LowerHex(sha(data))
  }

  function PartName(i: nat): string {
    "segment-" + Decimal(i)
  }

  // ---------- the client's form ----------

  function PaddedTotal(segments: seq<Segment>): nat {
    if segments == [] then 0 else PaddedTotal(segments[..|segments| - 1]) + |segments[|segments| - 1].data|
  }

  /** Segments whose parts can be cut out and counted. */
  predicate Cuttable(segments: seq<Segment>) {
    forall i :: 0 <= i < |segments| ==> segments[i].originalSize <= |segments[i].data| <= MAX_UPLOAD_BYTES
  }

  function PartOf(s: Segment, i: nat, sha: Digest): Part
    requires s.originalSize <= |s.data| <= MAX_UPLOAD_BYTES
  {
    Part(PartName(i), s.offset, s.originalSize, sha(Original(s)))
  }

  function Parts(segments: seq<Segment>, sha: Digest): (r: seq<Part>)
    requires Cuttable(segments)
    ensures |r| == |segments|
  {
    seq(|segments|, i requires 0 <= i < |segments| => PartOf(segments[i], i, sha))
  }

  function ManifestOf(device: string, plan: PreparedPlan, flashBaud: U32, monitorBaud: U32, noResetBefore: bool,
                      warnings: seq<Warning>, sha: Digest): Manifest
    requires Cuttable(plan.segments)
  {
    Manifest(device, 2, plan.chip, plan.settings, Parts(plan.segments, sha), flashBaud, monitorBaud, noResetBefore,
             warnings)
  }

  lemma {:induction false} SmallTotalSmallParts(segments: seq<Segment>)
    ensures forall i :: 0 <= i < |segments| ==> |segments[i].data| <= PaddedTotal(segments)
  {
    if segments != [] {
      SmallTotalSmallParts(segments[..|segments| - 1]);
    }
  }

  /** FlashUploadManifest::from_plan. */
  method FromPlan(device: string, plan: PreparedPlan, flashBaud: U32, monitorBaud: U32, noResetBefore: bool,
                  sha: Digest)
    returns (r: Option<Manifest>)
    requires forall i :: 0 <= i < |plan.segments| ==> plan.segments[i].originalSize <= |plan.segments[i].data|
    ensures r.Some? <==> PaddedTotal(plan.segments) <= MAX_UPLOAD_BYTES
    ensures r.Some? ==> Cuttable(plan.segments)
                        && r.value == ManifestOf(device, plan, flashBaud, monitorBaud, noResetBefore, [], sha)
  {
    var total := 0;
    for i := 0 to |plan.segments|
      invariant total == PaddedTotal(plan.segments[..i])
    {
      assert plan.segments[..i + 1][..i] == plan.segments[..i];
      total := total + |plan.segments[i].data|;
    }
    assert plan.segments[..|plan.segments|] == plan.segments;
    if total > MAX_UPLOAD_BYTES {
      return None;
    }
    SmallTotalSmallParts(plan.segments);
    var parts: seq<Part> := [];
    for i := 0 to |plan.segments|
      invariant parts == Parts(plan.segments, sha)[..i]
    {
      var s := plan.segments[i];
      parts := parts + [Part(PartName(i), s.offset, s.originalSize, sha(s.data[..s.originalSize]))];
    }
    return Some(Manifest(device, 2, plan.chip, plan.settings, parts, flashBaud, monitorBaud, noResetBefore, []));
  }

  // ---------- what the server accepts ----------

  predicate ValidWarning(w: Warning) {
    w.image.Some? ==> 1 <= |w.image.value| <= 128
  }

  predicate ValidWarnings(warnings: seq<Warning>) {
    forall i :: 0 <= i < |warnings| ==> ValidWarning(warnings[i])
  }

  predicate ValidPart(p: Part, i: nat) {
    && p.part == PartName(i) && p.offset % 4 == 0 && p.size > 0 && LowerHex(p.sha256)
    && p.offset + NextMultiple(p.size, 4) <= ADDRESS_SPACE
  }

  predicate ValidParts(parts: seq<Part>) {
    forall i :: 0 <= i < |parts| ==> ValidPart(parts[i], i)
  }

  function PartTotal(parts: seq<Part>): nat {
    if parts == [] then 0 else PartTotal(parts[..|parts| - 1]) + parts[|parts| - 1].size
  }

  function PartRange(p: Part): Range {
    Range(p.offset, NextMultiple(p.size, 4))
  }

  function PartRanges(parts: seq<Part>): (r: seq<Range>)
    ensures |r| == |parts|
  {
    seq(|parts|, i requires 0 <= i < |parts| => PartRange(parts[i]))
  }

  /** The manifests validate accepts, said without the order of its checks. */
  ghost predicate Valid(m: Manifest) {
    && m.version == 2 && m.chip != "" && |m.warnings| <= MAX_WARNINGS
    && ValidWarnings(m.warnings)
    && m.flashBaud >= 115200 && m.monitorBaud > 0
    && 1 <= |m.segments| <= MAX_SEGMENTS
    && ValidParts(m.segments)
    && PartTotal(m.segments) <= MAX_UPLOAD_BYTES
    && PairwiseDisjoint(PartRanges(m.segments))
  }

  /** The name, offset, size and digest a part must have at its place. */
  predicate FitsAt(p: Part, i: nat) {
    && p.part == "segment-" + Decimal(i) && p.offset % 4 == 0 && p.size > 0
    && |p.sha256| == 64
    && (forall k :: 0 <= k < 64 ==> '0' <= p.sha256[k] <= '9' || 'a' <= p.sha256[k] <= 'f')
    && p.offset + (p.size + 3) / 4 * 4 <= 4294967296
  }

  /** The manifests that the server accepts: at most 32 MiB in 1 to 64 parts, in different erase sectors. */
  lemma ValidExactly(m: Manifest)
    ensures Valid(m) <==>
              && m.version == 2 && m.chip != "" && m.flashBaud >= 115200 && m.monitorBaud > 0
              && |m.warnings| <= 64
              && (forall i :: 0 <= i < |m.warnings| && m.warnings[i].image.Some? ==>
                    1 <= |m.warnings[i].image.value| <= 128)
              && 1 <= |m.segments| <= 64
              && (forall i :: 0 <= i < |m.segments| ==> FitsAt(m.segments[i], i))
              && PartTotal(m.segments) <= 33554432
              && AllInDifferentSectors(PartRanges(m.segments))
  {
    hide PairwiseDisjoint;
    hide AllInDifferentSectors;
    hide PartTotal;
    hide Decimal;
    AllDifferentSectors(PartRanges(m.segments));
    forall i | 0 <= i < |m.segments| ensures ValidPart(m.segments[i], i) <==> FitsAt(m.segments[i], i) {
      PartFitsExactly(m.segments[i], i);
    }
  }

  lemma PartFitsExactly(p: Part, i: nat)
    ensures ValidPart(p, i) <==> FitsAt(p, i)
  {
    hide Decimal;
  }

  lemma {:induction false} PartTotalGrows(parts: seq<Part>, i: nat)
    requires i <= |parts|
    ensures PartTotal(parts[..i]) <= PartTotal(parts)
    decreases |parts|
  {
    if i < |parts| {
      assert parts[..|parts| - 1][..i] == parts[..i];
      PartTotalGrows(parts[..|parts| - 1], i);
    } else {
      assert parts[..i] == parts;
    }
  }

  method CheckHex(s: string) returns (ok: bool)
    ensures ok == LowerHex(s)
  {
    if |s| != 64 {
      return false;
    }
    for i := 0 to |s|
      invariant forall j :: 0 <= j < i ==> HexDigit(s[j])
    {
      if !HexDigit(s[i]) {
        return false;
      }
    }
    return true;
  }

  method CheckWarnings(warnings: seq<Warning>) returns (ok: bool)
    ensures ok == ValidWarnings(warnings)
  {
    for i := 0 to |warnings|
      invariant forall j :: 0 <= j < i ==> ValidWarning(warnings[j])
    {
      if warnings[i].image.Some? && !(1 <= |warnings[i].image.value| <= 128) {
        assert !ValidWarning(warnings[i]);
        return false;
      }
    }
    return true;
  }

  datatype ManifestError =
    | UnsupportedUpload
    | NoChip
    | TooManyWarnings
    | WarningImage
    | BaudRate
    | PartCount
    | PartNotCanonical
    | PartUnaligned
    | SizeOverflow
    | SizeLimit
    | DigestText
    | AddressOverflow
    | PartsOverlap

  /** The first check that part i fails, after parts of `before` bytes. */
  function PartError(p: Part, i: nat, before: nat): Option<ManifestError> {
    if p.part != PartName(i) then Some(PartNotCanonical)
    else if p.offset % 4 != 0 then Some(PartUnaligned)
    else if before + p.size >= 0x1_0000_0000_0000_0000 then Some(SizeOverflow)
    else if p.size == 0 || before + p.size > MAX_UPLOAD_BYTES then Some(SizeLimit)
    else if !LowerHex(p.sha256) then Some(DigestText)
    else if p.offset + NextMultiple(p.size, 4) > ADDRESS_SPACE then Some(AddressOverflow)
    else None
  }

  lemma PartErrorMeans(p: Part, i: nat, before: nat)
    ensures PartError(p, i, before) == None <==> ValidPart(p, i) && before + p.size <= MAX_UPLOAD_BYTES
  {
    hide PartName;
    hide LowerHex;
    hide NextMultiple;
  }

  /** The parts before i pass their checks, and part i fails with this error. */
  predicate PartFails(parts: seq<Part>, i: nat, e: ManifestError)
    requires i < |parts|
  {
    && ValidParts(parts[..i]) && PartTotal(parts[..i]) <= MAX_UPLOAD_BYTES
    && PartError(parts[i], i, PartTotal(parts[..i])) == Some(e)
  }

  lemma PassedParts(parts: seq<Part>, i: nat, j: nat, e: ManifestError)
    requires i < j <= |parts| && PartFails(parts, i, e)
    ensures !ValidParts(parts[..j]) || PartTotal(parts[..j]) > MAX_UPLOAD_BYTES
  {
    hide ValidPart;
    hide PartError;
    var earlier := parts[..j];
    assert earlier[i] == parts[i] && earlier[..i + 1][..i] == parts[..i];
    PartTotalGrows(earlier, i + 1);
    PartErrorMeans(parts[i], i, PartTotal(parts[..i]));
  }

  lemma StopsAtPart(parts: seq<Part>, i: nat)
    requires i < |parts| && ValidParts(parts[..i]) && PartTotal(parts[..i]) <= MAX_UPLOAD_BYTES
    ensures var failure := PartError(parts[i], i, PartTotal(parts[..i]));
            failure.Some? ==>
              PartFails(parts, i, failure.value) && !(ValidParts(parts) && PartTotal(parts) <= MAX_UPLOAD_BYTES)
  {
    hide ValidParts;
    hide PartError;
    var failure := PartError(parts[i], i, PartTotal(parts[..i]));
    if failure.Some? {
      PassedParts(parts, i, |parts|, failure.value);
      assert parts[..|parts|] == parts;
    }
  }

  lemma PartGoesOn(parts: seq<Part>, i: nat)
    requires i < |parts| && ValidParts(parts[..i]) && PartTotal(parts[..i]) <= MAX_UPLOAD_BYTES
    requires PartError(parts[i], i, PartTotal(parts[..i])).None?
    ensures ValidParts(parts[..i + 1]) && PartRanges(parts[..i + 1]) == PartRanges(parts[..i]) + [PartRange(parts[i])]
    ensures PartTotal(parts[..i + 1]) == PartTotal(parts[..i]) + parts[i].size <= MAX_UPLOAD_BYTES
  {
    hide PartError;
    hide ValidPart;
    hide NextMultiple;
    assert parts[..i + 1][..i] == parts[..i];
    PartErrorMeans(parts[i], i, PartTotal(parts[..i]));
  }

  /** The loop over the parts, with the ranges it collects, or the first check that fails. */
  method CheckParts(parts: seq<Part>) returns (error: Option<ManifestError>, ranges: seq<Range>)
    ensures error.None? <==> ValidParts(parts) && PartTotal(parts) <= MAX_UPLOAD_BYTES
    ensures error.None? ==> ranges == PartRanges(parts)
    ensures error.Some? ==> exists i :: 0 <= i < |parts| && PartFails(parts, i, error.value)
  {
    hide PartName;
    hide LowerHex;
    hide NextMultiple;
    hide PartFails;
    hide ValidParts;
    hide PartRanges;
    var total: U64 := 0;
    ranges := [];
    NoParts();
    assert parts[..0] == [];
    for i := 0 to |parts|
      invariant total == PartTotal(parts[..i]) <= MAX_UPLOAD_BYTES
      invariant ValidParts(parts[..i]) && ranges == PartRanges(parts[..i])
    {
      var p := parts[i];
      StopsAtPart(parts, i);
      if p.part != PartName(i) {
        return Some(PartNotCanonical), ranges;
      }
      if p.offset % 4 != 0 {
        return Some(PartUnaligned), ranges;
      }
      if total + p.size >= 0x1_0000_0000_0000_0000 {
        return Some(SizeOverflow), ranges;
      }
      total := total + p.size;
      if p.size == 0 || total > MAX_UPLOAD_BYTES {
        return Some(SizeLimit), ranges;
      }
      var hex := CheckHex(p.sha256);
      if !hex {
        return Some(DigestText), ranges;
      }
      NextMultipleMeans(p.size, 4);
      var padded: U64 := NextMultiple(p.size, 4);
      var end: U64 := p.offset + padded;
      if end > ADDRESS_SPACE {
        return Some(AddressOverflow), ranges;
      }
      PartGoesOn(parts, i);
      ranges := ranges + [Range(p.offset, padded)];
    }
    assert parts[..|parts|] == parts;
    return None, ranges;
  }

  lemma NoParts()
    ensures ValidParts([]) && PartRanges([]) == []
  {
  }

  method CheckRanges(ranges: seq<Range>) returns (ok: bool)
    ensures ok == AdjacentClear(ranges)
  {
    hide EraseEnd;
    hide SectorStart;
    var i := 1;
    while i < |ranges|
      invariant 1 <= i && (i <= |ranges| || i == 1)
      invariant forall j :: 0 <= j < i - 1 ==> Clear(ranges[j], ranges[j + 1])
    {
      if EraseEnd(ranges[i - 1]) > SectorStart(ranges[i]) {
        assert !Clear(ranges[i - 1], ranges[i]);
        return false;
      }
      i := i + 1;
    }
    return true;
  }

  lemma PartRangesNotEmpty(parts: seq<Part>)
    requires ValidParts(parts)
    ensures NonEmpty(PartRanges(parts))
  {
    hide PartName;
    hide LowerHex;
    forall i | 0 <= i < |parts| ensures PartRanges(parts)[i].size > 0 {
      assert ValidPart(parts[i], i);
      NextMultipleMeans(parts[i].size, 4);
    }
  }

  /** The first check that a manifest fails. */
  ghost predicate Fails(m: Manifest, e: ManifestError) {
    if m.version != 2 then e == UnsupportedUpload
    else if m.chip == "" then e == NoChip
    else if |m.warnings| > MAX_WARNINGS then e == TooManyWarnings
    else if !ValidWarnings(m.warnings) then e == WarningImage
    else if m.flashBaud < 115200 || m.monitorBaud == 0 then e == BaudRate
    else if !(1 <= |m.segments| <= MAX_SEGMENTS) then e == PartCount
    else if ValidParts(m.segments) && PartTotal(m.segments) <= MAX_UPLOAD_BYTES then
      e == PartsOverlap && !PairwiseDisjoint(PartRanges(m.segments))
    else exists i :: 0 <= i < |m.segments| && PartFails(m.segments, i, e)
  }

  /** A manifest fails with at most one error, and with none if it is valid. */
  lemma OneManifestError(m: Manifest, e: ManifestError, other: ManifestError)
    requires Fails(m, e)
    ensures !Valid(m) && (Fails(m, other) ==> other == e)
  {
    hide PairwiseDisjoint;
    hide ValidParts;
    hide PartFails;
    if Fails(m, other) && other != e {
      var i :| 0 <= i < |m.segments| && PartFails(m.segments, i, e);
      var j :| 0 <= j < |m.segments| && PartFails(m.segments, j, other);
      OnePartError(m.segments, i, j, e, other);
    }
  }

  lemma OnePartError(parts: seq<Part>, i: nat, j: nat, e: ManifestError, other: ManifestError)
    requires i < |parts| && j < |parts| && PartFails(parts, i, e) && PartFails(parts, j, other)
    ensures e == other
  {
    hide ValidParts;
    if i < j {
      PassedParts(parts, i, j, e);
    } else if j < i {
      PassedParts(parts, j, i, other);
    }
  }

  /** FlashUploadManifest::validate: it accepts exactly the valid manifests, and reports the first check that fails. */
  method Validate(m: Manifest) returns (error: Option<ManifestError>)
    ensures error.None? <==> Valid(m)
    ensures error.Some? ==> Fails(m, error.value)
  {
    hide ValidParts;
    hide ValidWarning;
    hide PartTotal;
    hide PartFails;
    hide PairwiseDisjoint;
    hide AdjacentClear;
    hide Sort;
    hide NonEmpty;
    if m.version != 2 {
      return Some(UnsupportedUpload);
    }
    if m.chip == "" {
      return Some(NoChip);
    }
    if |m.warnings| > MAX_WARNINGS {
      return Some(TooManyWarnings);
    }
    var warned := CheckWarnings(m.warnings);
    if !warned {
      return Some(WarningImage);
    }
    if m.flashBaud < 115200 || m.monitorBaud == 0 {
      return Some(BaudRate);
    }
    if !(1 <= |m.segments| <= MAX_SEGMENTS) {
      return Some(PartCount);
    }
    var ranges;
    error, ranges := CheckParts(m.segments);
    if error.Some? {
      return error;
    }
    PartRangesNotEmpty(m.segments);
    CheckIsExact(ranges);
    var clear := CheckRanges(Sort(ranges, RangeOffset));
    return if clear then None else Some(PartsOverlap);
  }

  // ---------- the plan the server rebuilds ----------

  function Received(p: Part, data: seq<bv8>): Segment {
    Segment(p.offset, Padded(data), |data|)
  }

  function AllReceived(parts: seq<Part>, data: seq<seq<bv8>>): (r: seq<Segment>)
    requires |parts| == |data|
    ensures |r| == |parts|
  {
    seq(|parts|, i requires 0 <= i < |parts| => Received(parts[i], data[i]))
  }

  predicate Matching(parts: seq<Part>, data: seq<seq<bv8>>, sha: Digest)
    requires |parts| == |data|
  {
    forall i :: 0 <= i < |parts| ==> |data[i]| == parts[i].size && sha(data[i]) == parts[i].sha256
  }

  function Rebuilt(m: Manifest, data: seq<seq<bv8>>): PreparedPlan
    requires |m.segments| == |data|
  {
    PreparedPlan(m.chip, m.settings, Sort(AllReceived(m.segments, data), SegmentOffset))
  }

  /** FlashUploadManifest::into_plan. */
  method IntoPlan(m: Manifest, data: seq<seq<bv8>>, sha: Digest) returns (r: Option<PreparedPlan>)
    ensures r.Some? <==> Valid(m) && |data| == |m.segments| && Matching(m.segments, data, sha)
    ensures r.Some? ==> r.value == Rebuilt(m, data)
  {
    hide Valid;
    hide Padded;
    hide Sort;
    var error := Validate(m);
    if error.Some? || |data| != |m.segments| {
      return None;
    }
    var segments: seq<Segment> := [];
    for i := 0 to |data|
      invariant segments == AllReceived(m.segments, data)[..i]
      invariant forall j :: 0 <= j < i ==> |data[j]| == m.segments[j].size && sha(data[j]) == m.segments[j].sha256
    {
      if |data[i]| != m.segments[i].size || sha(data[i]) != m.segments[i].sha256 {
        return None;
      }
      segments := segments + [Segment(m.segments[i].offset, Padded(data[i]), |data[i]|)];
    }
    assert segments == AllReceived(m.segments, data);
    return Some(PreparedPlan(m.chip, m.settings, Sort(segments, SegmentOffset)));
  }

  // ---------- the round trip ----------

  function Originals(segments: seq<Segment>): (r: seq<seq<bv8>>)
    requires Cuttable(segments)
    ensures |r| == |segments|
  {
    seq(|segments|, i requires 0 <= i < |segments| => Original(segments[i]))
  }

  lemma {:induction false} PartsAreSmaller(segments: seq<Segment>, sha: Digest)
    requires Cuttable(segments)
    ensures PartTotal(Parts(segments, sha)) <= PaddedTotal(segments)
  {
    hide PartOf;
    if segments != [] {
      var n := |segments| - 1;
      assert Parts(segments, sha)[..n] == Parts(segments[..n], sha);
      PartsAreSmaller(segments[..n], sha);
      PartSize(segments[n], n, sha);
    }
  }

  lemma PartSize(s: Segment, i: nat, sha: Digest)
    requires s.originalSize <= |s.data| <= MAX_UPLOAD_BYTES
    ensures PartOf(s, i, sha).size == s.originalSize
  {
    hide PartName;
  }

  /** A part of a sound plan is valid, has its segment's range, and is rebuilt as that segment. */
  lemma PartFits(s: Segment, i: nat, sha: Digest)
    requires SoundSegment(s) && |s.data| <= MAX_UPLOAD_BYTES && PrintsHex(sha)
    ensures var p := PartOf(s, i, sha);
            && ValidPart(p, i)
            && PartRange(p) == RangeOf(s)
            && Received(p, Original(s)) == s
            && |Original(s)| == p.size && sha(Original(s)) == p.sha256
  {
    hide LowerHex;
    hide PartName;
    assert |Original(s)| == s.originalSize;
    assert |s.data| == NextMultiple(s.originalSize, 4);
  }

  /**
   Every plan that prepare produces and that fits into an upload passes the server's checks, and the server
   rebuilds exactly that plan from the original bytes.
   */
  lemma UploadRoundTrip(device: string, plan: PreparedPlan, flashBaud: U32, monitorBaud: U32, noResetBefore: bool,
                        warnings: seq<Warning>, sha: Digest)
    requires Sound(plan) && PaddedTotal(plan.segments) <= MAX_UPLOAD_BYTES
    requires flashBaud >= 115200 && monitorBaud > 0 && PrintsHex(sha)
    requires |warnings| <= MAX_WARNINGS && forall i :: 0 <= i < |warnings| ==> ValidWarning(warnings[i])
    ensures Cuttable(plan.segments)
    ensures var m := ManifestOf(device, plan, flashBaud, monitorBaud, noResetBefore, warnings, sha);
            && Valid(m)
            && Matching(m.segments, Originals(plan.segments), sha)
            && Rebuilt(m, Originals(plan.segments)) == plan
  {
    hide PairwiseDisjoint;
    hide SoundSegment;
    hide ValidPart;
    hide PrintsHex;
    hide PartOf;
    hide PartRange;
    hide Received;
    hide Sort;
    hide SortedBy;
    hide PartTotal;
    hide PaddedTotal;
    hide ValidWarning;
    var segments := plan.segments;
    SmallTotalSmallParts(segments);
    forall i | 0 <= i < |segments| ensures segments[i].originalSize <= |segments[i].data| {
      CutFits(segments[i]);
    }
    var parts, data := Parts(segments, sha), Originals(segments);
    PartsAreSmaller(segments, sha);
    forall i | 0 <= i < |segments|
      ensures ValidPart(parts[i], i) && PartRanges(parts)[i] == Ranges(segments)[i]
      ensures Received(parts[i], data[i]) == segments[i]
      ensures |data[i]| == parts[i].size && sha(data[i]) == parts[i].sha256
    {
      PartFits(segments[i], i, sha);
    }
    assert PartRanges(parts) == Ranges(segments);
    assert AllReceived(parts, data) == segments;
    SortOfSorted(segments, SegmentOffset);
  }

  lemma CutFits(s: Segment)
    requires SoundSegment(s)
    ensures s.originalSize <= |s.data|
  {
  }

  /** Whatever the server accepts is a sound plan. */
  lemma AcceptedIsSound(m: Manifest, data: seq<seq<bv8>>, sha: Digest)
    requires Valid(m) && |data| == |m.segments| && Matching(m.segments, data, sha)
    ensures Sound(Rebuilt(m, data))
  {
    hide PairwiseDisjoint;
    hide SoundSegment;
    hide ValidPart;
    hide Sort;
    hide Received;
    hide PartRange;
    hide PartTotal;
    hide ValidWarning;
    var received := AllReceived(m.segments, data);
    var sorted := Sort(received, SegmentOffset);
    SortSorts(received, SegmentOffset);
    SortKeepsMembers(received);
    RangesOfSorted(received);
    DisjointWhenSorted(Ranges(received));
    forall i | 0 <= i < |received|
      ensures SoundSegment(received[i]) && Ranges(received)[i] == PartRanges(m.segments)[i]
    {
      ReceivedIsSound(m.segments[i], i, data[i]);
    }
    assert Ranges(received) == PartRanges(m.segments);
    forall i | 0 <= i < |sorted| ensures SoundSegment(sorted[i]) {
      assert sorted[i] in received;
    }
  }

  lemma ReceivedIsSound(p: Part, i: nat, data: seq<bv8>)
    requires ValidPart(p, i) && |data| == p.size
    ensures SoundSegment(Received(p, data)) && RangeOf(Received(p, data)) == PartRange(p)
  {
    hide PartName;
    hide LowerHex;
    NextMultipleMeans(p.size, 4);
  }
  /** The segment has the offset, the size and the digest of the part. */
  predicate HoldsPart(s: Segment, p: Part, sha: Digest) {
    s.offset == p.offset && s.originalSize == p.size <= |s.data| && sha(Original(s)) == p.sha256
  }

  predicate PartHeld(p: Part, segments: seq<Segment>, sha: Digest) {
    exists j :: 0 <= j < |segments| && HoldsPart(segments[j], p, sha)
  }

  predicate FromPart(s: Segment, parts: seq<Part>, sha: Digest) {
    exists i :: 0 <= i < |parts| && HoldsPart(s, parts[i], sha)
  }

  /** What the server flashes are the parts of the manifest, each with the digest it names, and no others. */
  lemma AcceptedHolds(m: Manifest, data: seq<seq<bv8>>, sha: Digest)
    requires Valid(m) && |data| == |m.segments| && Matching(m.segments, data, sha)
    ensures var segments := Rebuilt(m, data).segments;
            && |segments| == |m.segments|
            && (forall i :: 0 <= i < |m.segments| ==> PartHeld(m.segments[i], segments, sha))
            && (forall j :: 0 <= j < |segments| ==> FromPart(segments[j], m.segments, sha))
  {
    hide Valid;
    hide Sort;
    hide Received;
    hide HoldsPart;
    hide PartHeld;
    hide FromPart;
    var received := AllReceived(m.segments, data);
    var sorted := Sort(received, SegmentOffset);
    SortSorts(received, SegmentOffset);
    SortKeepsMembers(received);
    forall i | 0 <= i < |m.segments|
      ensures PartHeld(m.segments[i], sorted, sha) && FromPart(received[i], m.segments, sha)
    {
      ReceivedHolds(m.segments[i], data[i], sha);
      assert received[i] in sorted;
      PartHeldBy(m.segments, i, received[i], sorted, sha);
    }
    forall j | 0 <= j < |sorted| ensures FromPart(sorted[j], m.segments, sha) {
      assert sorted[j] in received;
    }
  }

  lemma PartHeldBy(parts: seq<Part>, i: nat, s: Segment, segments: seq<Segment>, sha: Digest)
    requires i < |parts| && s in segments && HoldsPart(s, parts[i], sha)
    ensures PartHeld(parts[i], segments, sha) && FromPart(s, parts, sha)
  {
    hide HoldsPart;
    var j :| 0 <= j < |segments| && segments[j] == s;
    assert HoldsPart(segments[j], parts[i], sha);
  }

  lemma ReceivedHolds(p: Part, data: seq<bv8>, sha: Digest)
    requires |data| == p.size && sha(data) == p.sha256
    ensures HoldsPart(Received(p, data), p, sha)
  {
    NextMultipleMeans(|data|, 4);
    assert Original(Received(p, data)) == data;
  }
}
