/** The encoder: a payload of bytes to the modules of a symbol, and that a reader gets the payload back. */
module Qr {
  import opened Wrappers
  import opened Bits
  import opened BitStream
  import opened Gf256Order
  import opened CodeDistance
  import opened QrVersions
  import opened QrData
  import opened QrInterleave
  import opened QrBch
  import opened QrPlacement
  import opened QrMatrix
  import opened QrRegions
  import opened QrRoom
  import opened QrFormat
  import opened QrWords
  import opened QrDrawing
  import opened QrPenalty
  import opened QrReader

  datatype QrCode = QrCode(version: nat, mask: nat, size: nat, modules: array2<Bit>)

  datatype Encoding = Encoded(code: QrCode) | PayloadTooLong

  // --- layouts ---------------------------------------------------------------------------------

  function BlockCount(groups: seq<Group>): nat {
    if groups == [] then 0 else groups[0].count + BlockCount(groups[1..])
  }

  lemma GroupLengths(a: Group, b: Group)
    ensures BlockLengths([a]) == Uniform(a.count, a.data)
    ensures BlockLengths([a, b]) == Uniform(a.count, a.data) + Uniform(b.count, b.data)
    ensures Sum(BlockLengths([a])) == GroupData([a]) && Sum(BlockLengths([a, b])) == GroupData([a, b])
    ensures |BlockLengths([a])| == BlockCount([a]) && |BlockLengths([a, b])| == BlockCount([a, b])
  {
    assert [a][..0] == [] && [a, b][..1] == [a] && [a][1..] == [] && [b][1..] == [] && [a, b][1..] == [b];
    UniformSum(a.count, a.data);
    UniformSum(b.count, b.data);
    SumPrefix(Uniform(a.count, a.data), Uniform(b.count, b.data));
    GroupSums(a, b);
  }

  /** Blocks of a version times its check symbols per block. */
  lemma CheckSymbols(version: nat)
    requires 1 <= version <= MAX_VERSION
    ensures var l := LayoutOf(version);
            CapacityTable(version) + BlockCount(l.groups) * l.ecLen == TotalTable(version) && 0 < l.ecLen <= 30
  {
    hide AllCodewords, BlockCount;
    CountOfGroups(LayoutOf(version).groups);
  }

  lemma CountOfGroups(g: seq<Group>)
    requires 1 <= |g| <= 2
    ensures BlockCount(g) == g[0].count + if |g| == 2 then g[1].count else 0
  {
    assert |g| == 2 ==> g[1..] == [g[1]] && g[1..][1..] == [];
    assert |g| == 1 ==> g[1..] == [];
  }

  /** The tables of a version agree: blocks, capacity and total. */
  lemma LayoutNumbers(version: nat)
    requires 1 <= version <= MAX_VERSION
    ensures Sum(BlockLengths(LayoutOf(version).groups)) == CapacityTable(version)
    ensures TotalCodewords(LayoutOf(version)) == TotalTable(version)
    ensures 0 < LayoutOf(version).ecLen <= 30
  {
    CapacityIs(version);
    CheckSymbols(version);
    TwoGroups(LayoutOf(version).groups);
  }

  lemma TwoGroups(g: seq<Group>)
    requires 1 <= |g| <= 2
    ensures Sum(BlockLengths(g)) == GroupData(g) && |BlockLengths(g)| == BlockCount(g)
  {
    GroupLengths(g[0], g[|g| - 1]);
    assert g == if |g| == 1 then [g[0]] else [g[0], g[|g| - 1]];
  }

  // --- codewords that carry a payload ----------------------------------------------------------

  /** Codewords of a version whose blocks are all codewords and whose data is the payload's. */
  ghost predicate Carries(payload: seq<Byte>, version: nat, codewords: seq<Byte>) {
    && 1 <= version <= MAX_VERSION && Fits(|payload|, version)
    && var layout := LayoutOf(version);
       && |codewords| == TotalCodewords(layout)
       && Join(DataBlocks(codewords, layout)) == DataCodewords(payload, CountBits(version), CapacityTable(version))
       && AllCodewords(DataBlocks(codewords, layout), CheckBlocks(codewords, layout), layout.ecLen)
  }

  method MakeCodewords(t: Tables, payload: seq<Byte>, version: nat) returns (codewords: seq<Byte>)
    requires t.Valid() && 1 <= version <= MAX_VERSION && Fits(|payload|, version)
    ensures Carries(payload, version, codewords)
  {
    LayoutNumbers(version);
    var data := EncodeData(payload, version);
    codewords := Interleave(t, data, LayoutOf(version));
  }

  /** Whatever repairable damage the codewords suffer, they decode to the payload. */
  lemma CarriesDecodes(payload: seq<Byte>, version: nat, sent: seq<Byte>, received: seq<Byte>)
    requires Carries(payload, version, sent) && Repairable(sent, received, LayoutOf(version))
    ensures Decode(received, LayoutOf(version), CountBits(version)) == Some(payload)
  {
    CountFits(|payload|, version);
    DecodesDamaged(payload, CountBits(version), CapacityTable(version), sent, received, LayoutOf(version));
  }

  lemma BlockSizes(version: nat)
    requires 1 <= version <= MAX_VERSION
    ensures forall k | 0 <= k < |BlockLengths(LayoutOf(version).groups)| ::
              BlockLengths(LayoutOf(version).groups)[k] <= 51
    ensures LayoutOf(version).ecLen <= 30
  {
    hide BlockLengths;
    LengthsAtMost(LayoutOf(version).groups, 51);
  }

  lemma LengthsAtMost(g: seq<Group>, bound: nat)
    requires 1 <= |g| <= 2 && g[0].data <= bound && g[|g| - 1].data <= bound
    ensures forall k | 0 <= k < |BlockLengths(g)| :: BlockLengths(g)[k] <= bound
  {
    hide BlockLengths;
    GroupLengths(g[0], g[|g| - 1]);
    assert g == if |g| == 1 then [g[0]] else [g[0], g[|g| - 1]];
  }

  /** Undamaged codewords are repairable. */
  lemma UndamagedIsRepairable(payload: seq<Byte>, version: nat, codewords: seq<Byte>)
    requires Carries(payload, version, codewords)
    ensures Repairable(codewords, codewords, LayoutOf(version))
  {
    BlockSizes(version);
    var layout := LayoutOf(version);
    NoDamage(DataBlocks(codewords, layout), CheckBlocks(codewords, layout), layout.ecLen);
  }

  lemma NoDamage(data: seq<seq<Byte>>, checks: seq<seq<Byte>>, degree: nat)
    requires |data| == |checks| && AllCodewords(data, checks, degree) && degree <= 30
    requires forall k | 0 <= k < |data| :: |data[k]| <= 51
    ensures RepairableBlocks(data, checks, data, checks, degree)
  {
    forall k | 0 <= k < |data| ensures Distance(data[k] + checks[k], data[k] + checks[k]) == 0 {
      DistanceSelf(data[k] + checks[k]);
    }
  }

  // --- from a symbol back to its codewords -----------------------------------------------------

  lemma {:induction false} ReadModulesAt(image: Image, mask: nat, path: seq<Cell>, bits: seq<Bit>)
    requires mask < 8
    requires forall m | 0 <= m < |path| :: ReadModule(image, mask, path[m]) == StreamBit(bits, m)
    ensures |ReadModules(image, mask, path)| == |path|
    ensures forall m | 0 <= m < |path| :: ReadModules(image, mask, path)[m] == StreamBit(bits, m)
  {
    if path != [] {
      var init := path[..|path| - 1];
      forall m | 0 <= m < |init| ensures ReadModule(image, mask, init[m]) == StreamBit(bits, m) {
        assert init[m] == path[m];
      }
      ReadModulesAt(image, mask, init, bits);
    }
  }

  /** A module outside the function patterns reads as it was placed, through mask and format. */
  lemma ReadsFreeModule(placed: Image, masked: Image, fixed: set<Cell>, size: nat, mask: nat, bits: nat, x: Cell)
    requires mask < 8 && size >= 21 && IsMasked(placed, masked, fixed, mask)
    requires x in placed && x !in fixed && !InFormat(size, x)
    ensures ReadModule(WithFormat(masked, size, bits), mask, x) == placed[x]
  {
    WithFormatAt(masked, size, bits);
    Unmasks(placed, masked, fixed, mask, x);
  }

  lemma StreamIsPrefix(bits: seq<Bit>, stream: seq<Bit>)
    requires |bits| >= |stream| && forall m | 0 <= m < |stream| :: bits[m] == StreamBit(stream, m)
    ensures bits[..|stream|] == stream
  {
  }

  /** The zigzag of a masked symbol gives back the codewords that were placed. */
  lemma ReadsZigzag(base: Image, masked: Image, fixed: set<Cell>, size: nat, mask: nat, bits: nat, codewords: seq<Byte>)
    requires mask < 8 && size >= 21 && size % 2 == 1 && forall x | InSquare(x, size) :: x in base
    requires Enough(size, fixed, 8 * |codewords|)
    requires forall x | InSquare(x, size) && InFormat(size, x) :: x in fixed
    requires IsMasked(Fill(base, Free(Zigzag(size), fixed), Unpack(codewords)), masked, fixed, mask)
    ensures ReadZigzag(WithFormat(masked, size, bits), size, fixed, mask, |codewords|) == Some(codewords)
  {
    hide Path, Free, Fill, Pack, Unpack, ReadModules, ReadModule, WithFormat, IsMasked, Zigzag;
    PathIsZigzag(size);
    var free, stream := Free(Zigzag(size), fixed), Unpack(codewords);
    var placed, image := Fill(base, free, stream), WithFormat(masked, size, bits);
    FillAt(base, free, stream);
    forall m | 0 <= m < |free| ensures ReadModule(image, mask, free[m]) == StreamBit(stream, m) {
      assert free[m] in free;
      ReadsFreeModule(placed, masked, fixed, size, mask, bits, free[m]);
    }
    ReadModulesAt(image, mask, free, stream);
    StreamIsPrefix(ReadModules(image, mask, free), stream);
    PackUnpack(codewords);
  }

  lemma FormatIsReserved(version: nat)
    requires 1 <= version <= MAX_VERSION
    ensures forall x | InSquare(x, SizeOf(version)) && InFormat(SizeOf(version), x) :: x in FunctionCells(version)
  {
    forall x | InSquare(x, SizeOf(version)) && InFormat(SizeOf(version), x) ensures x in FunctionCells(version) {
      ReservesFunctionModules(version, x);
    }
  }

  /** The word of format information for level M and the mask. */
  predicate IsFormatWord(bits: nat, mask: nat) {
    mask < 8 && bits == FormatWord(mask)
  }

  /** The word of version information, from version 7 on. */
  predicate IsVersionWord(bits: nat, version: nat) {
    7 <= version <= MAX_VERSION ==> bits == VersionWord(version)
  }

  /** The function patterns of a version, with its number in it from version 7 on. */
  ghost predicate IsBase(base: Image, version: nat) {
    && 1 <= version <= MAX_VERSION
    && (exists bits: nat :: IsVersionWord(bits, version) && base == BaseImage(version, bits))
    && forall x | InSquare(x, SizeOf(version)) :: x in base
  }

  /** `image` is the symbol with the codewords placed, this mask applied and its format written. */
  ghost predicate IsCandidate(image: Image, version: nat, codewords: seq<Byte>, mask: nat,
                              base: Image, masked: Image, bits: nat) {
    && 1 <= version <= MAX_VERSION && mask < 8 && IsFormatWord(bits, mask)
    && IsBase(base, version)
    && IsMasked(Fill(base, Free(Zigzag(SizeOf(version)), FunctionCells(version)), Unpack(codewords)),
                masked, FunctionCells(version), mask)
    && image == WithFormat(masked, SizeOf(version), bits)
  }

  lemma ReadsCandidateFormat(image: Image, version: nat, codewords: seq<Byte>, mask: nat,
                             base: Image, masked: Image, bits: nat)
    requires IsCandidate(image, version, codewords, mask, base, masked, bits)
    ensures forall i | 0 <= i < 15 :: FirstCopy(i) in image
    ensures ReadFormat(image) == mask < 8
  {
    hide FormatWord, FirstCopy, SecondCopy, BitAt, WithFormat, ReadFormat, InFormat, IsBase, IsMasked;
    hide Zigzag, Free, Fill, FunctionCells;
    OddSize(version);
    WithFormatAt(masked, SizeOf(version), bits);
    ReadsFormatWord(image, mask);
  }

  lemma ReadsCandidateZigzag(image: Image, version: nat, codewords: seq<Byte>, mask: nat,
                             base: Image, masked: Image, bits: nat)
    requires IsCandidate(image, version, codewords, mask, base, masked, bits)
    requires |codewords| == TotalTable(version)
    ensures ReadZigzag(image, SizeOf(version), FunctionCells(version), mask, |codewords|) == Some(codewords)
  {
    OddSize(version);
    RoomForCodewords(version);
    FormatIsReserved(version);
    ReadsZigzag(base, masked, FunctionCells(version), SizeOf(version), mask, bits, codewords);
  }

  /** What a reader sees in a candidate: its mask, and the codewords. */
  lemma ReadsCandidate(image: Image, version: nat, codewords: seq<Byte>, mask: nat, base: Image, masked: Image,
                       bits: nat)
    requires IsCandidate(image, version, codewords, mask, base, masked, bits)
    requires |codewords| == TotalTable(version)
    ensures forall i | 0 <= i < 15 :: FirstCopy(i) in image
    ensures ReadFormat(image) == mask
    ensures ReadCodewords(image, version) == Some(codewords)
  {
    hide ReadFormat, ReadZigzag, FunctionCells, TotalTable, ReadCodewords;
    ReadsCandidateFormat(image, version, codewords, mask, base, masked, bits);
    ReadsCandidateZigzag(image, version, codewords, mask, base, masked, bits);
    CodewordsRead(image, version, codewords, mask);
  }

  lemma CodewordsRead(image: Image, version: nat, codewords: seq<Byte>, mask: nat)
    requires 1 <= version <= MAX_VERSION && |codewords| == TotalTable(version)
    requires forall i | 0 <= i < 15 :: FirstCopy(i) in image
    requires ReadFormat(image) == mask < 8
    requires ReadZigzag(image, SizeOf(version), FunctionCells(version), mask, |codewords|) == Some(codewords)
    ensures ReadCodewords(image, version) == Some(codewords)
  {
    hide ReadFormat, ReadZigzag, FunctionCells, FunctionModules, TotalTable;
    SameFunctionModules(version);
  }

  /** Every module of the function patterns is as the standard draws it. */
  ghost predicate ShowsAllPatterns(image: Image, version: nat, bits: nat)
    requires 1 <= version <= MAX_VERSION
  {
    forall x | InSquare(x, 4 * version + 17) && (!InFormat(4 * version + 17, x) || IsTimingCorner(x)) ::
      IsDrawn(image, version, bits, x)
  }

  /** The function patterns, with the symbol's own number from version 7 on, and the dark module. */
  ghost predicate ShowsFunctionPatterns(image: Image, version: nat) {
    && 1 <= version <= MAX_VERSION
    && (exists bits: nat :: IsVersionWord(bits, version) && ShowsAllPatterns(image, version, bits))
    && Shows(image, Cell(4 * version + 9, 8), 1)
  }

  /** Whatever the codewords and the mask, the symbol shows the function patterns. */
  lemma SymbolShowsPatterns(image: Image, version: nat, codewords: seq<Byte>, mask: nat,
                            base: Image, masked: Image, format: nat)
    requires IsCandidate(image, version, codewords, mask, base, masked, format)
    ensures ShowsFunctionPatterns(image, version)
  {
    hide FunctionCells, BaseImage, ShowsPatterns, IsPatternModule, WithFormat, IsVersionWord;
    hide Zigzag, Free, Fill, ShowsAllPatterns, IsMasked, IsFormatWord;
    var bits: nat :| IsVersionWord(bits, version) && base == BaseImage(version, bits);
    AllPatternsShown(image, version, codewords, mask, base, masked, format, bits);
    OddSize(version);
    WithFormatAt(masked, SizeOf(version), format);
  }

  lemma AllPatternsShown(image: Image, version: nat, codewords: seq<Byte>, mask: nat,
                         base: Image, masked: Image, format: nat, bits: nat)
    requires IsCandidate(image, version, codewords, mask, base, masked, format) && base == BaseImage(version, bits)
    ensures ShowsAllPatterns(image, version, bits)
  {
    hide FunctionCells, BaseImage, ShowsPatterns, WithFormat, IsMasked, Zigzag, Free, Fill, IsFormatWord, IsDrawn;
    forall x | InSquare(x, 4 * version + 17) && (!InFormat(4 * version + 17, x) || IsTimingCorner(x))
      ensures IsDrawn(image, version, bits, x)
    {
      SymbolShows(version, bits, format, FunctionCells(version), Unpack(codewords), masked, mask, x);
      PatternsAreDrawn(image, version, bits, x);
    }
  }

  // --- choosing the mask -----------------------------------------------------------------------

  /** The candidate of a mask over some drawing of the function patterns. */
  ghost predicate IsCandidateFor(image: Image, version: nat, codewords: seq<Byte>, mask: nat) {
    exists base, masked, bits :: IsCandidate(image, version, codewords, mask, base, masked, bits)
  }

  ghost predicate HasScore(image: Image, n: nat, score: nat) {
    n > 0 && Whole(image, n) && score == Penalty(image, n)
  }

  /** A candidate of the mask, with its penalty. */
  ghost predicate Scored(image: Image, version: nat, codewords: seq<Byte>, mask: nat, score: nat) {
    IsCandidateFor(image, version, codewords, mask) && HasScore(image, SizeOf(version), score)
  }

  /** The candidate symbol for one mask, and its penalty. */
  method MakeCandidate(grid: array2<Bit>, fixed: set<Cell>, version: nat, mask: nat,
                       ghost base: Image, ghost codewords: seq<Byte>)
    returns (candidate: array2<Bit>, score: nat)
    requires 1 <= version <= MAX_VERSION && mask < 8 && fixed == FunctionCells(version)
    requires grid.Length0 == grid.Length1 == SizeOf(version)
    requires IsBase(base, version)
    requires Contents(grid) == Fill(base, Free(Zigzag(SizeOf(version)), fixed), Unpack(codewords))
    ensures fresh(candidate) && candidate.Length0 == candidate.Length1 == SizeOf(version)
    ensures Scored(Contents(candidate), version, codewords, mask, score)
  {
    candidate := ApplyMask(grid, fixed, mask);
    ghost var masked := Contents(candidate);
    ghost var bits := WriteFormat(candidate, mask);
    assert IsCandidate(Contents(candidate), version, codewords, mask, base, masked, bits);
    score := ComputePenalty(candidate);
  }

  /** Score b is the least, and the first of its value. */
  predicate IsFirstLeast(scores: seq<nat>, b: nat) {
    && b < |scores|
    && (forall k | 0 <= k < |scores| :: scores[b] <= scores[k])
    && (forall k | 0 <= k < b :: scores[b] < scores[k])
  }

  /** The images are the candidates of the masks, with their penalties. */
  ghost predicate AllScored(images: seq<Image>, version: nat, codewords: seq<Byte>, masks: seq<nat>, scores: seq<nat>) {
    && |images| == |scores| <= |masks|
    && forall k | 0 <= k < |images| :: Scored(images[k], version, codewords, masks[k], scores[k])
  }

  lemma ScoredSnoc(images: seq<Image>, version: nat, codewords: seq<Byte>, masks: seq<nat>, scores: seq<nat>,
                   image: Image, score: nat)
    requires AllScored(images, version, codewords, masks, scores) && |images| < |masks|
    requires Scored(image, version, codewords, masks[|images|], score)
    ensures AllScored(images + [image], version, codewords, masks, scores + [score])
  {
    hide Scored, HasScore;
    var i', s' := images + [image], scores + [score];
    forall k | 0 <= k < |i'| ensures Scored(i'[k], version, codewords, masks[k], s'[k]) {
      if k < |images| {
        assert i'[k] == images[k] && s'[k] == scores[k];
      }
    }
  }

  lemma FirstLeastStep(scores: seq<nat>, b: nat, score: nat)
    requires IsFirstLeast(scores, b)
    ensures IsFirstLeast(scores + [score], if score < scores[b] then |scores| else b)
  {
  }

  /** What the search for a mask is given: the symbol with its codewords placed, not yet masked. */
  ghost predicate Prepared(grid: array2<Bit>, fixed: set<Cell>, version: nat, base: Image, codewords: seq<Byte>)
    reads grid
  {
    && 1 <= version <= MAX_VERSION && fixed == FunctionCells(version)
    && grid.Length0 == grid.Length1 == SizeOf(version)
    && IsBase(base, version)
    && Contents(grid) == Fill(base, Free(Zigzag(SizeOf(version)), fixed), Unpack(codewords))
  }

  /** The candidate symbol for the next mask, and its penalty. */
  method NextCandidate(grid: array2<Bit>, fixed: set<Cell>, version: nat, masks: seq<nat>, k: nat,
                       ghost base: Image, ghost codewords: seq<Byte>, ghost images: seq<Image>, ghost scores: seq<nat>)
    returns (candidate: array2<Bit>, score: nat)
    requires Prepared(grid, fixed, version, base, codewords)
    requires k == |images| < |masks| && masks[k] < 8 && AllScored(images, version, codewords, masks, scores)
    ensures fresh(candidate) && candidate.Length0 == candidate.Length1 == SizeOf(version)
    ensures AllScored(images + [Contents(candidate)], version, codewords, masks, scores + [score])
  {
    candidate, score := MakeCandidate(grid, fixed, version, masks[k], base, codewords);
    ScoredSnoc(images, version, codewords, masks, scores, Contents(candidate), score);
  }

  /** The code is the first of least penalty among the candidates for the masks tried. */
  ghost predicate IsChosen(version: nat, codewords: seq<Byte>, masks: seq<nat>, mask: nat, image: Image,
                           images: seq<Image>, scores: seq<nat>, b: nat) {
    && |images| == |masks| && AllScored(images, version, codewords, masks, scores)
    && IsFirstLeast(scores, b) && mask == masks[b] && image == images[b]
  }

  /** Tries the masks in order and keeps the first of least penalty. */
  method ChooseMask(grid: array2<Bit>, fixed: set<Cell>, version: nat, masks: seq<nat>,
                    ghost base: Image, ghost codewords: seq<Byte>)
    returns (best: array2<Bit>, mask: nat, ghost images: seq<Image>, ghost scores: seq<nat>, ghost b: nat)
    requires Prepared(grid, fixed, version, base, codewords)
    requires masks != [] && forall k | 0 <= k < |masks| :: masks[k] < 8
    ensures fresh(best) && best.Length0 == best.Length1 == SizeOf(version)
    ensures IsChosen(version, codewords, masks, mask, Contents(best), images, scores, b)
  {
    hide Scored, AllScored, Prepared;
    images, scores := [], [];
    var bestScore;
    best, bestScore := NextCandidate(grid, fixed, version, masks, 0, base, codewords, images, scores);
    mask, b := masks[0], 0;
    images, scores := images + [Contents(best)], scores + [bestScore];
    for k := 1 to |masks|
      invariant fresh(best) && best.Length0 == best.Length1 == SizeOf(version)
      invariant |images| == |scores| == k && AllScored(images, version, codewords, masks, scores)
      invariant IsFirstLeast(scores, b) && bestScore == scores[b]
      invariant Contents(best) == images[b] && mask == masks[b]
    {
      var candidate, score := NextCandidate(grid, fixed, version, masks, k, base, codewords, images, scores);
      FirstLeastStep(scores, b, score);
      images, scores := images + [Contents(candidate)], scores + [score];
      if score < bestScore {
        best, mask, bestScore, b := candidate, masks[k], score, k;
      }
    }
  }

  // --- the encoder -----------------------------------------------------------------------------

  /** Every symbol that carries a payload reads as that payload. */
  lemma ReadsPayload(payload: seq<Byte>, version: nat, codewords: seq<Byte>, image: Image, mask: nat)
    requires Carries(payload, version, codewords) && IsCandidateFor(image, version, codewords, mask)
    ensures forall i | 0 <= i < 15 :: FirstCopy(i) in image
    ensures ReadFormat(image) == mask
    ensures ReadSymbol(image, version) == Some(payload)
  {
    var base, masked, bits :| IsCandidate(image, version, codewords, mask, base, masked, bits);
    LayoutNumbers(version);
    ReadsCandidate(image, version, codewords, mask, base, masked, bits);
    UndamagedIsRepairable(payload, version, codewords);
    CarriesDecodes(payload, version, codewords, codewords);
  }

  /** The symbol of a version with its codewords placed, before masking. */
  method PlaceCodewords(version: nat, codewords: seq<Byte>)
    returns (grid: array2<Bit>, fixed: set<Cell>, ghost base: Image)
    requires 1 <= version <= MAX_VERSION
    ensures fresh(grid) && Prepared(grid, fixed, version, base, codewords)
  {
    ghost var bits;
    grid, fixed, bits := BaseMatrix(version);
    base := Contents(grid);
    ContentsAt(grid);
    OddSize(version);
    PlaceData(grid, fixed, codewords);
  }

  /** Every mask number, or the one asked for. */
  function Masks(mask: Option<nat>): seq<nat> {
    match mask
    case None => [0, 1, 2, 3, 4, 5, 6, 7]
    case Some(m) => [m]
  }

  lemma MasksInRange(mask: Option<nat>)
    requires mask.Some? ==> mask.value < 8
    ensures Masks(mask) != [] && forall k | 0 <= k < |Masks(mask)| :: Masks(mask)[k] < 8
  {
  }

  /** Places the codewords and chooses the mask. */
  method Render(version: nat, words: seq<Byte>, option: Option<nat>)
    returns (code: QrCode, ghost images: seq<Image>, ghost scores: seq<nat>, ghost b: nat)
    requires 1 <= version <= MAX_VERSION && (option.Some? ==> option.value < 8)
    ensures fresh(code.modules) && code.modules.Length0 == code.modules.Length1 == code.size == SizeOf(version)
    ensures code.version == version
    ensures IsChosen(version, words, Masks(option), code.mask, Contents(code.modules), images, scores, b)
  {
    var grid, fixed;
    ghost var base;
    grid, fixed, base := PlaceCodewords(version, words);
    MasksInRange(option);
    var best, mask;
    best, mask, images, scores, b := ChooseMask(grid, fixed, version, Masks(option), base, words);
    code := QrCode(version, mask, best.Length0, best);
  }

  /** Everything after the choice of a version. */
  method EncodeVersion(t: Tables, payload: seq<Byte>, version: nat, option: Option<nat>)
    returns (code: QrCode, ghost codewords: seq<Byte>, ghost images: seq<Image>, ghost scores: seq<nat>, ghost b: nat)
    requires t.Valid() && (option.Some? ==> option.value < 8)
    requires 1 <= version <= MAX_VERSION && Fits(|payload|, version)
    ensures fresh(code.modules) && code.modules.Length0 == code.modules.Length1 == code.size == SizeOf(version)
    ensures code.version == version && Carries(payload, version, codewords)
    ensures IsChosen(version, codewords, Masks(option), code.mask, Contents(code.modules), images, scores, b)
  {
    var words := MakeCodewords(t, payload, version);
    codewords := words;
    code, images, scores, b := Render(version, words, option);
  }

  method EncodeQr(t: Tables, payload: seq<Byte>, option: Option<nat>)
    returns (r: Encoding, ghost codewords: seq<Byte>, ghost images: seq<Image>, ghost scores: seq<nat>, ghost b: nat)
    requires t.Valid() && (option.Some? ==> option.value < 8)
    ensures r.PayloadTooLong? <==> |payload| > MAX_PAYLOAD
    ensures r.Encoded? ==> var code := r.code;
              && fresh(code.modules)
              && code.modules.Length0 == code.modules.Length1 == code.size == 4 * code.version + 17
              && Carries(payload, code.version, codewords)
              && (forall v | 1 <= v < code.version :: !Fits(|payload|, v))
              && IsChosen(code.version, codewords, Masks(option), code.mask, Contents(code.modules), images, scores, b)
              && IsBest(code.version, codewords, option, code.mask, Contents(code.modules), images, scores)
  {
    codewords, images, scores, b := [], [], [], 0;
    var choice := ChooseVersion(|payload|);
    if choice.TooLong? {
      r := PayloadTooLong;
    } else {
      var code;
      code, codewords, images, scores, b := EncodeVersion(t, payload, choice.version, option);
      ChosenIsBest(code.version, codewords, option, code.mask, Contents(code.modules), images, scores, b);
      r := Encoded(code);
    }
  }

  /** The mask asked for, or of the masks 0 to 7 the first of least penalty. */
  ghost predicate IsBest(version: nat, codewords: seq<Byte>, option: Option<nat>, mask: nat, image: Image,
                         images: seq<Image>, scores: seq<nat>) {
    match option
    case Some(asked) => mask == asked && IsCandidateFor(image, version, codewords, asked)
    case None =>
      && |images| == |scores| == 8 && mask < 8 && image == images[mask]
      && (forall k | 0 <= k < 8 :: Scored(images[k], version, codewords, k, scores[k]))
      && (forall k | 0 <= k < 8 :: scores[mask] <= scores[k])
      && (forall k | 0 <= k < mask :: scores[mask] < scores[k])
  }

  lemma ChosenIsBest(version: nat, codewords: seq<Byte>, option: Option<nat>, mask: nat, image: Image,
                     images: seq<Image>, scores: seq<nat>, b: nat)
    requires IsChosen(version, codewords, Masks(option), mask, image, images, scores, b)
    ensures IsBest(version, codewords, option, mask, image, images, scores)
  {
    hide IsCandidateFor, HasScore;
    assert Scored(images[b], version, codewords, Masks(option)[b], scores[b]);
  }

  lemma ChosenReads(payload: seq<Byte>, version: nat, codewords: seq<Byte>, masks: seq<nat>, mask: nat, image: Image,
                    images: seq<Image>, scores: seq<nat>, b: nat)
    requires Carries(payload, version, codewords)
    requires IsChosen(version, codewords, masks, mask, image, images, scores, b)
    ensures ReadsAs(image, version, mask, payload)
  {
    assert Scored(images[b], version, codewords, masks[b], scores[b]);
    ReadsPayload(payload, version, codewords, image, mask);
  }

  lemma ChosenShows(version: nat, codewords: seq<Byte>, masks: seq<nat>, mask: nat, image: Image,
                    images: seq<Image>, scores: seq<nat>, b: nat)
    requires IsChosen(version, codewords, masks, mask, image, images, scores, b)
    ensures ShowsFunctionPatterns(image, version)
  {
    hide IsCandidate, HasScore, ShowsFunctionPatterns;
    assert Scored(images[b], version, codewords, masks[b], scores[b]);
    var base, masked, format :| IsCandidate(image, version, codewords, mask, base, masked, format);
    SymbolShowsPatterns(image, version, codewords, mask, base, masked, format);
  }

  /** A reader finds the mask and the payload in the modules. */
  ghost predicate ReadsAs(image: Image, version: nat, mask: nat, payload: seq<Byte>) {
    && 1 <= version <= MAX_VERSION
    && (forall i | 0 <= i < 15 :: FirstCopy(i) in image)
    && ReadFormat(image) == mask && ReadSymbol(image, version) == Some(payload)
  }

  /** The smallest version that takes a payload of this length. */
  ghost predicate IsLeastVersion(length: nat, version: nat) {
    1 <= version <= MAX_VERSION && Fits(length, version) && forall v | 1 <= v < version :: !Fits(length, v)
  }

  /** What a finished symbol is: the smallest version, its codewords, the first mask of least penalty. */
  ghost predicate IsSymbol(payload: seq<Byte>, option: Option<nat>, version: nat, mask: nat, image: Image) {
    && IsLeastVersion(|payload|, version)
    && exists codewords, images, scores, b ::
         Carries(payload, version, codewords)
         && IsChosen(version, codewords, Masks(option), mask, image, images, scores, b)
  }

  /**
   * Encode and read: for every payload of at most 412 bytes, whatever mask is asked for, a reader of the
   * finished modules gets the payload back, and the function patterns are the standard's.
   */
  method EncodeAndRead(t: Tables, payload: seq<Byte>, option: Option<nat>) returns (r: Encoding)
    requires t.Valid() && (option.Some? ==> option.value < 8)
    ensures r.PayloadTooLong? <==> |payload| > MAX_PAYLOAD
    ensures r.Encoded? ==> ReadsAs(Contents(r.code.modules), r.code.version, r.code.mask, payload)
    ensures r.Encoded? ==> ShowsFunctionPatterns(Contents(r.code.modules), r.code.version)
    ensures r.Encoded? ==> IsSymbol(payload, option, r.code.version, r.code.mask, Contents(r.code.modules))
  {
    ghost var codewords, images, scores, b;
    r, codewords, images, scores, b := EncodeQr(t, payload, option);
    if r.Encoded? {
      ghost var code := r.code;
      ChosenReads(payload, code.version, codewords, Masks(option), code.mask, Contents(code.modules),
                  images, scores, b);
      ChosenShows(code.version, codewords, Masks(option), code.mask, Contents(code.modules), images, scores, b);
    }
  }
}
