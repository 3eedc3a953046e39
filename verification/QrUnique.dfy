/** The encoder's contract leaves no choice: a payload and the mask asked for determine the whole symbol. */
module QrUnique {
  import opened Wrappers
  import opened Bits
  import opened BitStream
  import opened Gf256Order
  import opened CodeDistance
  import opened QrVersions
  import opened QrData
  import opened QrInterleave
  import opened QrBch
  import opened QrPlacement
  import opened QrMatrix
  import opened QrFormat
  import opened QrWords
  import opened QrPenalty
  import opened Qr

  // --- codewords -------------------------------------------------------------------------------

  /** Of the blocks that reach column i, number `skip` in order. */
  lemma {:induction false} ReachingAt(lens: seq<nat>, k: nat, i: nat, skip: nat) returns (j: nat)
    requires k <= |lens| && skip < Reaching(lens, k, i)
    ensures j < k && i < lens[j] && Reaching(lens, j, i) == skip
  {
    if skip < Reaching(lens, k - 1, i) {
      j := ReachingAt(lens, k - 1, i, skip);
    } else {
      j := k - 1;
    }
  }

  /** Every place of the woven sequence is that of some codeword of some block. */
  lemma {:induction false} RankAt(lens: seq<nat>, i: nat, p: nat) returns (j: nat, c: nat)
    requires p < ColumnsBefore(lens, i)
    ensures j < |lens| && c < lens[j] && Rank(lens, j, c) == p
    decreases i
  {
    ColumnsBound(lens, i);
    NextColumn(lens, i - 1);
    if p < ColumnsBefore(lens, i - 1) {
      j, c := RankAt(lens, i - 1, p);
    } else {
      c := i - 1;
      j := ReachingAt(lens, |lens|, c, p - ColumnsBefore(lens, c));
    }
  }

  lemma {:induction false} SumIsColumns(lens: seq<nat>) returns (i: nat)
    ensures forall k | 0 <= k < |lens| :: lens[k] <= i
    ensures ColumnsBefore(lens, i) == Sum(lens)
  {
    if lens == [] {
      i := 0;
    } else {
      var last := |lens| - 1;
      i := SumIsColumns(lens[..last]);
      assert forall k | 0 <= k < last :: lens[k] == lens[..last][k] <= i;
      i := if i < lens[last] then lens[last] else i;
    }
    ColumnsBound(lens, i);
  }

  /** A woven sequence is determined by its blocks. */
  lemma UnweaveInjective<T>(s: seq<T>, t: seq<T>, lens: seq<nat>)
    requires |s| == |t| == Sum(lens) && Unweave(s, lens) == Unweave(t, lens)
    ensures s == t
  {
    var columns := SumIsColumns(lens);
    forall p | 0 <= p < |s| ensures s[p] == t[p] {
      var j, c := RankAt(lens, columns, p);
      assert Unweave(s, lens)[j] == UnweaveBlock(s, lens, j) && Unweave(t, lens)[j] == UnweaveBlock(t, lens, j);
      assert UnweaveBlock(s, lens, j)[c] == s[p] && UnweaveBlock(t, lens, j)[c] == t[p];
    }
  }

  /** Blocks of the same lengths are determined by what they join to. */
  lemma {:induction false} JoinInjective<T>(a: seq<seq<T>>, b: seq<seq<T>>)
    requires |a| == |b| && (forall k | 0 <= k < |a| :: |a[k]| == |b[k]|) && Join(a) == Join(b)
    ensures a == b
  {
    if a != [] {
      var last := |a| - 1;
      var s, t := Join(a[..last]), Join(b[..last]);
      assert |s| == |Join(a)| - |a[last]| == |t|;
      assert s == Join(a)[..|s|] && a[last] == Join(a)[|s|..];
      assert t == Join(b)[..|s|] && b[last] == Join(b)[|s|..];
      JoinInjective(a[..last], b[..last]);
      assert a == a[..last] + [a[last]] && b == b[..last] + [b[last]];
    }
  }

  lemma ChecksDetermined(data: seq<seq<Byte>>, a: seq<seq<Byte>>, b: seq<seq<Byte>>, ecLen: nat)
    requires |data| == |a| == |b| && (forall k | 0 <= k < |data| :: |data[k]| + ecLen <= 255)
    requires AllCodewords(data, a, ecLen) && AllCodewords(data, b, ecLen)
    ensures a == b
  {
    forall k | 0 <= k < |data| ensures a[k] == b[k] {
      UniqueRemainder(data[k], a[k], b[k], ecLen);
    }
  }

  /** The codewords of a payload in a version are determined. */
  lemma CodewordsDetermined(payload: seq<Byte>, version: nat, a: seq<Byte>, b: seq<Byte>)
    requires Carries(payload, version, a) && Carries(payload, version, b)
    ensures a == b
  {
    hide AllCodewords, DataCodewords, LayoutOf, Join, BlockLengths;
    BlockSizes(version);
    var layout := LayoutOf(version);
    var lens, data := BlockLengths(layout.groups), DataBlocks(a, layout);
    JoinInjective(data, DataBlocks(b, layout));
    ChecksDetermined(data, CheckBlocks(a, layout), CheckBlocks(b, layout), layout.ecLen);
    UniformSum(|lens|, layout.ecLen);
    UnweaveInjective(a[..Sum(lens)], b[..Sum(lens)], lens);
    UnweaveInjective(a[Sum(lens)..], b[Sum(lens)..], Uniform(|lens|, layout.ecLen));
    assert a == a[..Sum(lens)] + a[Sum(lens)..] && b == b[..Sum(lens)] + b[Sum(lens)..];
  }

  // --- the symbol ------------------------------------------------------------------------------

  lemma BaseDetermined(a: Image, b: Image, version: nat)
    requires IsBase(a, version) && IsBase(b, version)
    ensures a == b
  {
    hide Patterns, VersionCells, Draw, VersionWord;
    var x: nat :| IsVersionWord(x, version) && a == BaseImage(version, x);
    var y: nat :| IsVersionWord(y, version) && b == BaseImage(version, y);
  }

  lemma MaskedDetermined(image: Image, a: Image, b: Image, fixed: set<Cell>, mask: nat)
    requires mask < 8 && IsMasked(image, a, fixed, mask) && IsMasked(image, b, fixed, mask)
    ensures a == b
  {
    forall x | x in a ensures x in b && a[x] == b[x] {
    }
  }

  /** The candidate of a mask is one image: function patterns, version and format word are all determined. */
  lemma CandidateDetermined(a: Image, b: Image, version: nat, codewords: seq<Byte>, mask: nat)
    requires IsCandidateFor(a, version, codewords, mask) && IsCandidateFor(b, version, codewords, mask)
    ensures a == b
  {
    hide IsBase, IsMasked, FormatWord, Fill, Free, WithFormat, FunctionCells;
    var base, masked, bits :| IsCandidate(a, version, codewords, mask, base, masked, bits);
    var base', masked', bits' :| IsCandidate(b, version, codewords, mask, base', masked', bits');
    BaseDetermined(base, base', version);
    var placed := Fill(base, Free(Zigzag(SizeOf(version)), FunctionCells(version)), Unpack(codewords));
    MaskedDetermined(placed, masked, masked', FunctionCells(version), mask);
  }

  lemma ScoredDetermined(version: nat, codewords: seq<Byte>, masks: seq<nat>,
                         images: seq<Image>, scores: seq<nat>, images': seq<Image>, scores': seq<nat>)
    requires |images| == |images'| == |masks|
    requires AllScored(images, version, codewords, masks, scores)
    requires AllScored(images', version, codewords, masks, scores')
    ensures images == images' && scores == scores'
  {
    hide IsCandidateFor, Whole, Penalty;
    forall k | 0 <= k < |masks| ensures images[k] == images'[k] && scores[k] == scores'[k] {
      assert Scored(images[k], version, codewords, masks[k], scores[k]);
      assert Scored(images'[k], version, codewords, masks[k], scores'[k]);
      CandidateDetermined(images[k], images'[k], version, codewords, masks[k]);
    }
  }

  lemma FirstLeastDetermined(scores: seq<nat>, b: nat, c: nat)
    requires IsFirstLeast(scores, b) && IsFirstLeast(scores, c)
    ensures b == c
  {
    assert scores[b] <= scores[c] && scores[c] <= scores[b];
  }

  lemma ChosenDetermined(version: nat, codewords: seq<Byte>, masks: seq<nat>,
                         mask: nat, image: Image, images: seq<Image>, scores: seq<nat>, b: nat,
                         mask': nat, image': Image, images': seq<Image>, scores': seq<nat>, b': nat)
    requires IsChosen(version, codewords, masks, mask, image, images, scores, b)
    requires IsChosen(version, codewords, masks, mask', image', images', scores', b')
    ensures mask == mask' && image == image'
  {
    hide AllScored, IsFirstLeast;
    ScoredDetermined(version, codewords, masks, images, scores, images', scores');
    FirstLeastDetermined(scores, b, b');
  }

  lemma LeastVersionDetermined(length: nat, v: nat, w: nat)
    requires IsLeastVersion(length, v) && IsLeastVersion(length, w)
    ensures v == w
  {
  }

  /** Every payload that fits, with every mask option, has exactly one version, mask and image. */
  lemma SymbolDetermined(payload: seq<Byte>, option: Option<nat>,
                         version: nat, mask: nat, image: Image, version': nat, mask': nat, image': Image)
    requires IsSymbol(payload, option, version, mask, image) && IsSymbol(payload, option, version', mask', image')
    ensures version == version' && mask == mask' && image == image'
  {
    hide Carries, IsChosen, IsLeastVersion;
    var words, images, scores, b :|
      Carries(payload, version, words) && IsChosen(version, words, Masks(option), mask, image, images, scores, b);
    var words', images', scores', b' :|
      Carries(payload, version', words') &&
      IsChosen(version', words', Masks(option), mask', image', images', scores', b');
    LeastVersionDetermined(|payload|, version, version');
    CodewordsDetermined(payload, version, words, words');
    ChosenDetermined(version, words, Masks(option), mask, image, images, scores, b,
                     mask', image', images', scores', b');
  }
}
