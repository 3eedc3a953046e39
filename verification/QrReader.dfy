/**
 * A reader of QR symbols written from ISO/IEC 18004:2015, 7.4 to 7.9: the mask from the format
 * bits, the zigzag over the modules that are not function modules, the blocks, byte mode. It
 * repairs every block to its nearest codeword.
 */
module QrReader {
  import opened Wrappers
  import opened Bits
  import opened BitStream
  import opened Polynomial
  import opened ReedSolomon
  import opened CodeDistance
  import opened QrVersions
  import opened QrData
  import opened QrInterleave
  import opened QrMasks
  import opened QrPlacement
  import opened QrMatrix
  import opened QrRegions
  import opened QrRoom
  import opened QrFormat

  // --- from modules to codewords ---------------------------------------------------------------

  /** The modules of a version that carry no data, as the standard draws them. */
  ghost function FunctionModules(version: nat): set<Cell>
    requires 1 <= version <= MAX_VERSION
  {
    set x | x in Area(SizeOf(version), SizeOf(version)) && IsFunction(version, x)
  }

  lemma SameFunctionModules(version: nat)
    requires 1 <= version <= MAX_VERSION
    ensures FunctionModules(version) == FunctionCells(version)
  {
    forall x: Cell ensures x in FunctionModules(version) <==> x in FunctionCells(version) {
      ReservesFunctionModules(version, x);
    }
  }

  /** A module with the mask undone; a missing module reads as light. */
  function ReadModule(image: Image, mask: nat, x: Cell): Bit
    requires mask < 8
  {
    if x in image && x.row >= 0 && x.col >= 0 then Flip(image[x], Pictured(mask, x)) else 0
  }

  function ReadModules(image: Image, mask: nat, path: seq<Cell>): (bits: seq<Bit>)
    requires mask < 8
    ensures |bits| == |path|
  {
    if path == [] then []
    else ReadModules(image, mask, path[..|path| - 1]) + [ReadModule(image, mask, path[|path| - 1])]
  }

  /**
   * The m-th module of the walk: strips two modules wide from the right, the vertical timing column left
   * out, upwards and downwards in turn, right before left.
   */
  function Place(size: nat, m: nat): Cell
    requires size > 0
  {
    var strip, step, right := m / (2 * size), m % (2 * size), size - 1 - 2 * (m / (2 * size));
    Cell(if strip % 2 == 0 then size - 1 - step / 2 else step / 2, (if right > 6 then right else right - 1) - step % 2)
  }

  /** n modules of the walk from number `from` on. */
  function Part(size: nat, from: nat, n: nat): (path: seq<Cell>)
    requires size > 0
    ensures |path| == n
  {
    seq(n, j requires 0 <= j < n => Place(size, from + j))
  }

  lemma PartJoin(size: nat, from: nat, a: nat, b: nat)
    requires size > 0
    ensures Part(size, from, a) + Part(size, from + a, b) == Part(size, from, a + b)
  {
  }

  lemma {:induction false} StripIs(path: seq<Cell>, size: nat, right: int, upward: bool, n: nat)
    ensures StripFrom(path, size, right, upward, n) ==
            path + seq(n, t requires 0 <= t < n => StripCell(size, right, upward, t))
  {
    if n > 0 {
      StripIs(path, size, right, upward, n - 1);
    }
  }

  lemma DivMod(d: nat, k: nat, t: nat)
    requires t < d
    ensures (d * k + t) / d == k && (d * k + t) % d == t
  {
    var m := d * k + t;
    assert m == d * (m / d) + m % d;
    assert d * (m / d - k) == t - m % d;
    SmallMultiple(d, m / d - k);
  }

  lemma SmallMultiple(d: int, q: int)
    requires d >= 0
    ensures q >= 1 ==> d * q >= d
    ensures q <= -1 ==> d * q <= -d
  {
    if q >= 1 {
      assert d * q == d + d * (q - 1);
    } else if q <= -1 {
      assert d * q == -d + d * (q + 1);
    }
  }

  /** The right column of strip k, before the timing column is skipped. */
  function RightOf(size: nat, k: nat): int {
    if size - 1 - 2 * k >= 6 then size - 1 - 2 * k else size - 2 - 2 * k
  }

  lemma StripPlace(size: nat, k: nat, t: nat)
    requires t < 2 * size
    ensures StripCell(size, SkipTiming(RightOf(size, k)), k % 2 == 0, t) == Place(size, 2 * size * k + t)
  {
    DivMod(2 * size, k, t);
  }

  lemma StripIsPart(path: seq<Cell>, size: nat, k: nat)
    requires size > 0
    ensures StripFrom(path, size, SkipTiming(RightOf(size, k)), k % 2 == 0, 2 * size) ==
            path + Part(size, 2 * size * k, 2 * size)
  {
    hide StripCell, StripFrom, Place, RightOf, SkipTiming;
    var right, upward, start := SkipTiming(RightOf(size, k)), k % 2 == 0, 2 * size * k;
    StripIs(path, size, right, upward, 2 * size);
    var strip := seq(2 * size, t requires 0 <= t < 2 * size => StripCell(size, right, upward, t));
    forall t | 0 <= t < 2 * size ensures strip[t] == Part(size, start, 2 * size)[t] {
      StripPlace(size, k, t);
    }
    assert strip == Part(size, start, 2 * size);
  }

  /** n strips from strip k on. */
  function Strips(size: nat, k: nat, n: nat): seq<Cell>
    requires size > 0
    decreases n
  {
    if n == 0 then [] else Part(size, 2 * size * k, 2 * size) + Strips(size, k + 1, n - 1)
  }

  lemma NextStrip(size: nat, k: nat, n: nat)
    ensures 2 * size * (k + 1) == 2 * size * k + 2 * size && 2 * size * (n + 1) == 2 * size + 2 * size * n
  {
  }

  lemma {:induction false} StripsArePart(size: nat, k: nat, n: nat)
    requires size > 0
    ensures Strips(size, k, n) == Part(size, 2 * size * k, 2 * size * n)
    decreases n
  {
    hide Part;
    if n > 0 {
      StripsArePart(size, k + 1, n - 1);
      NextStrip(size, k, n - 1);
      PartJoin(size, 2 * size * k, 2 * size, 2 * size * (n - 1));
    }
  }

  lemma WalkStep(path: seq<Cell>, size: nat, k: nat)
    requires size % 2 == 1 && RightOf(size, k) >= 1
    ensures WalkFrom(path, size, RightOf(size, k), k % 2 == 0) ==
            WalkFrom(StripFrom(path, size, SkipTiming(RightOf(size, k)), k % 2 == 0, 2 * size), size,
                     RightOf(size, k + 1), (k + 1) % 2 == 0)
  {
    hide StripFrom;
    assert SkipTiming(RightOf(size, k)) - 2 == RightOf(size, k + 1);
    assert !(k % 2 == 0) == ((k + 1) % 2 == 0);
  }

  lemma WalkEnds(path: seq<Cell>, size: nat, k: nat)
    requires 2 * k == size - 1
    ensures WalkFrom(path, size, RightOf(size, k), k % 2 == 0) == path
  {
  }

  lemma Prepends(path: seq<Cell>, a: seq<Cell>, b: seq<Cell>)
    ensures path + a + b == path + (a + b) && path + [] == path
  {
  }

  lemma {:induction false} WalkIsStrips(path: seq<Cell>, size: nat, k: nat, n: nat)
    requires size > 0 && 2 * (k + n) == size - 1
    ensures WalkFrom(path, size, RightOf(size, k), k % 2 == 0) == path + Strips(size, k, n)
    decreases n
  {
    hide Part, StripFrom, WalkFrom;
    if n == 0 {
      WalkEnds(path, size, k);
      Prepends(path, [], []);
    } else {
      var part := Part(size, 2 * size * k, 2 * size);
      WalkStep(path, size, k);
      StripIsPart(path, size, k);
      WalkIsStrips(path + part, size, k + 1, n - 1);
      Prepends(path, part, Strips(size, k + 1, n - 1));
    }
  }

  /** The whole walk, module by module. */
  function Path(size: nat): seq<Cell>
    requires size > 0
  {
    Part(size, 0, size * (size - 1))
  }

  /** The reader's walk is the order in which the encoder places. */
  lemma PathIsZigzag(size: nat)
    requires size % 2 == 1 && size >= 7
    ensures Path(size) == Zigzag(size)
  {
    hide Part, WalkFrom, Strips;
    var half := (size - 1) / 2;
    WalkIsStrips([], size, 0, half);
    StripsArePart(size, 0, half);
    assert 2 * size * half == size * (2 * half) == size * (size - 1);
    assert [] + Part(size, 0, size * (size - 1)) == Part(size, 0, size * (size - 1));
  }

  /** The alignment centres stand evenly from the last one back, all but the first in column and row 6. */
  lemma CentresAreEven(version: nat, i: nat)
    requires 2 <= version <= MAX_VERSION && i < |Centres(version)|
    ensures |Centres(version)| == version / 7 + 2
    ensures var n := version / 7 + 1;
            var step := (4 * version + 2 * n + 3) / (2 * n) * 2;
            Centres(version)[i] == if i == 0 then 6 else 4 * version + 10 - step * (n - i)
  {
  }

  /** The codewords on the zigzag through the modules outside `reserved`. */
  function ReadZigzag(image: Image, size: nat, reserved: set<Cell>, mask: nat, total: nat): Option<seq<Byte>>
    requires mask < 8 && size > 0
  {
    ReadBody(ReadModules(image, mask, Free(Path(size), reserved)), total)
  }

  /** The codewords of a symbol of level M; None when its format information says another level. */
  ghost function ReadCodewords(image: Image, version: nat): Option<seq<Byte>>
    requires 1 <= version <= MAX_VERSION && forall i | 0 <= i < 15 :: FirstCopy(i) in image
  {
    var format := ReadFormat(image);
    if format / 8 != 0 then None
    else ReadZigzag(image, SizeOf(version), FunctionModules(version), format % 8, TotalTable(version))
  }

  // --- from codewords to the payload -----------------------------------------------------------

  /** The nearest codeword, when one is near enough. */
  ghost function Repair(received: Poly, degree: nat): (c: Poly)
    ensures |c| == |received|
  {
    if exists c: Poly :: |c| == |received| && IsCodeword(c, degree) && 2 * Distance(c, received) <= degree then
      var c: Poly :| |c| == |received| && IsCodeword(c, degree) && 2 * Distance(c, received) <= degree;
      c
    else received
  }

  /** Up to degree/2 wrong symbols are repaired. */
  lemma RepairFinds(sent: Poly, received: Poly, degree: nat)
    requires |sent| == |received| <= 255 && IsCodeword(sent, degree) && 2 * Distance(sent, received) <= degree
    ensures Repair(received, degree) == sent
  {
    var c := Repair(received, degree);
    assert IsCodeword(c, degree) && 2 * Distance(c, received) <= degree;
    if c != sent {
      UniqueRepair(sent, received, c, degree);
      UniqueRepair(c, received, sent, degree);
    }
  }

  /** The data part of the first n blocks, each repaired. */
  ghost function RepairedData(data: seq<seq<Byte>>, checks: seq<seq<Byte>>, degree: nat, n: nat): seq<Byte>
    requires n <= |data| == |checks|
  {
    if n == 0 then []
    else RepairedData(data, checks, degree, n - 1) + Repair(data[n - 1] + checks[n - 1], degree)[..|data[n - 1]|]
  }

  /** The payload of the codewords of a version, repairing every block. */
  ghost function Decode(codewords: seq<Byte>, layout: Layout, count: nat): Option<seq<Byte>> {
    if |codewords| != TotalCodewords(layout) then None
    else
      var data, checks := DataBlocks(codewords, layout), CheckBlocks(codewords, layout);
      ReadBytes(RepairedData(data, checks, layout.ecLen, |data|), count)
  }

  /** The payload of a symbol. */
  ghost function ReadSymbol(image: Image, version: nat): Option<seq<Byte>>
    requires 1 <= version <= MAX_VERSION && forall i | 0 <= i < 15 :: FirstCopy(i) in image
  {
    match ReadCodewords(image, version)
    case None => None
    case Some(codewords) => Decode(codewords, LayoutOf(version), CountBits(version))
  }

  lemma {:induction false} DistanceSelf(a: Poly)
    ensures Distance(a, a) == 0
  {
    if a != [] {
      DistanceSelf(a[1..]);
    }
  }

  /** The received blocks differ from those sent in at most half as many places as there are check symbols. */
  ghost predicate RepairableBlocks(data: seq<seq<Byte>>, checks: seq<seq<Byte>>,
                                   data': seq<seq<Byte>>, checks': seq<seq<Byte>>, degree: nat) {
    && |data| == |checks| == |data'| == |checks'|
    && forall k {:trigger data[k]} | 0 <= k < |data| ::
         && |data[k]| == |data'[k]| && |checks[k]| == |checks'[k]| && |data[k]| + |checks[k]| <= 255
         && 2 * Distance(data[k] + checks[k], data'[k] + checks'[k]) <= degree
  }

  ghost predicate Repairable(sent: seq<Byte>, received: seq<Byte>, layout: Layout) {
    && |sent| == |received| == TotalCodewords(layout)
    && RepairableBlocks(DataBlocks(sent, layout), CheckBlocks(sent, layout),
                        DataBlocks(received, layout), CheckBlocks(received, layout), layout.ecLen)
  }

  lemma {:induction false} RepairsBlocks(data: seq<seq<Byte>>, checks: seq<seq<Byte>>,
                                         data': seq<seq<Byte>>, checks': seq<seq<Byte>>, degree: nat, n: nat)
    requires RepairableBlocks(data, checks, data', checks', degree) && AllCodewords(data, checks, degree)
    requires n <= |data|
    ensures RepairedData(data', checks', degree, n) == Join(data[..n])
  {
    hide Repair;
    if n > 0 {
      var d, c := data[n - 1], checks[n - 1];
      RepairsBlocks(data, checks, data', checks', degree, n - 1);
      RepairFinds(d + c, data'[n - 1] + checks'[n - 1], degree);
      assert data[..n][..n - 1] == data[..n - 1];
      assert (d + c)[..|d|] == d;
    }
  }

  /** Codewords that carry a payload still decode to it after damage that can be repaired. */
  lemma DecodesDamaged(payload: seq<Byte>, count: nat, room: nat, sent: seq<Byte>, received: seq<Byte>, layout: Layout)
    requires 4 + count + 8 * |payload| <= 8 * room && |payload| < Pow2(count)
    requires |sent| == TotalCodewords(layout)
    requires Join(DataBlocks(sent, layout)) == DataCodewords(payload, count, room)
    requires AllCodewords(DataBlocks(sent, layout), CheckBlocks(sent, layout), layout.ecLen)
    requires Repairable(sent, received, layout)
    ensures Decode(received, layout, count) == Some(payload)
  {
    hide Repair, DataCodewords, Join, Distance, IsCodeword, AllCodewords, RepairableBlocks, CheckBlocks, DataBlocks;
    hide BlockLengths, TotalCodewords, Pow2, ReadBytes;
    var data := DataBlocks(sent, layout);
    RepairsBlocks(data, CheckBlocks(sent, layout), DataBlocks(received, layout), CheckBlocks(received, layout),
                  layout.ecLen, |data|);
    assert data[..|data|] == data;
    ReadBytesInverts(payload, count, room);
  }
}
