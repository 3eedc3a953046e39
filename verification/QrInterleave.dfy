/** Splitting data codewords into blocks, adding check symbols, and weaving the blocks together. */
module QrInterleave {
  import opened Bits
  import opened Gf256Order
  import opened ReedSolomon
  import opened QrVersions

  function Sum(lens: seq<nat>): nat {
    if lens == [] then 0 else Sum(lens[..|lens| - 1]) + lens[|lens| - 1]
  }

  /** The codewords that stand in the first i columns. */
  function ColumnsBefore(lens: seq<nat>, i: nat): nat {
    if lens == [] then 0
    else ColumnsBefore(lens[..|lens| - 1], i) + if lens[|lens| - 1] < i then lens[|lens| - 1] else i
  }

  /** Of the first j blocks, those that reach column i. */
  function Reaching(lens: seq<nat>, j: nat, i: nat): nat
    requires j <= |lens|
  {
    if j == 0 then 0 else Reaching(lens, j - 1, i) + if i < lens[j - 1] then 1 else 0
  }

  /** Where codeword i of block j stands in the woven sequence (ISO/IEC 18004:2015, 7.6). */
  function Rank(lens: seq<nat>, j: nat, i: nat): nat
    requires j <= |lens|
  {
    ColumnsBefore(lens, i) + Reaching(lens, j, i)
  }

  lemma {:induction false} ReachingPrefix(lens: seq<nat>, j: nat, i: nat)
    requires j < |lens|
    ensures Reaching(lens[..|lens| - 1], j, i) == Reaching(lens, j, i)
  {
    if j > 0 {
      ReachingPrefix(lens, j - 1, i);
    }
  }

  lemma {:induction false} NextColumn(lens: seq<nat>, i: nat)
    ensures ColumnsBefore(lens, i + 1) == Rank(lens, |lens|, i)
  {
    if lens != [] {
      NextColumn(lens[..|lens| - 1], i);
      ReachingPrefix(lens, |lens| - 1, i);
    }
  }

  lemma {:induction false} ColumnsBound(lens: seq<nat>, i: nat)
    ensures ColumnsBefore(lens, i) <= Sum(lens)
    ensures ColumnsBefore(lens, 0) == 0
    ensures (forall k | 0 <= k < |lens| :: lens[k] <= i) ==> ColumnsBefore(lens, i) == Sum(lens)
  {
    if lens != [] {
      ColumnsBound(lens[..|lens| - 1], i);
    }
  }

  lemma {:induction false} ReachingGrows(lens: seq<nat>, j: nat, k: nat, i: nat)
    requires j <= k <= |lens|
    ensures Reaching(lens, j, i) <= Reaching(lens, k, i)
    decreases k
  {
    if j < k {
      ReachingGrows(lens, j, k - 1, i);
    }
  }

  lemma RankBound(lens: seq<nat>, j: nat, i: nat)
    requires j < |lens| && i < lens[j]
    ensures Rank(lens, j, i) < Sum(lens)
  {
    ReachingGrows(lens, j + 1, |lens|, i);
    NextColumn(lens, i);
    ColumnsBound(lens, i + 1);
  }

  lemma {:induction false} ColumnsGrow(lens: seq<nat>, i: nat, c: nat)
    requires i <= c
    ensures ColumnsBefore(lens, i) <= ColumnsBefore(lens, c)
  {
    if lens != [] {
      ColumnsGrow(lens[..|lens| - 1], i, c);
    }
  }

  lemma RankLess(lens: seq<nat>, j: nat, i: nat, k: nat, c: nat)
    requires j < |lens| && i < lens[j] && k < |lens| && c < lens[k]
    requires i < c || (i == c && j < k)
    ensures Rank(lens, j, i) < Rank(lens, k, c)
  {
    if i < c {
      ReachingGrows(lens, j + 1, |lens|, i);
      NextColumn(lens, i);
      ColumnsGrow(lens, i + 1, c);
    } else {
      ReachingGrows(lens, j + 1, k, i);
    }
  }

  /** The codewords are ordered by column, and within a column by block. */
  lemma ColumnByColumn(lens: seq<nat>, j: nat, i: nat, k: nat, c: nat)
    requires j < |lens| && i < lens[j] && k < |lens| && c < lens[k]
    ensures Rank(lens, j, i) < Rank(lens, k, c) <==> i < c || (i == c && j < k)
  {
    if i < c || (i == c && j < k) {
      RankLess(lens, j, i, k, c);
    } else if i != c || j != k {
      RankLess(lens, k, c, j, i);
    }
  }

  function Lengths<T>(blocks: seq<seq<T>>): (r: seq<nat>)
    ensures |r| == |blocks|
  {
    seq(|blocks|, k requires 0 <= k < |blocks| => |blocks[k]|)
  }

  /** The reader's inverse of weaving: every block, picked out codeword by codeword. */
  function Unweave<T>(s: seq<T>, lens: seq<nat>): (blocks: seq<seq<T>>)
    requires |s| == Sum(lens)
    ensures |blocks| == |lens|
  {
    seq(|lens|, j requires 0 <= j < |lens| => UnweaveBlock(s, lens, j))
  }

  function UnweaveBlock<T>(s: seq<T>, lens: seq<nat>, j: nat): (block: seq<T>)
    requires |s| == Sum(lens) && j < |lens|
    ensures |block| == lens[j]
  {
    seq(lens[j], i requires 0 <= i < lens[j] => RankBound(lens, j, i); s[Rank(lens, j, i)])
  }

  /** `s` holds codeword c of block b at its place. */
  ghost predicate InPlace<T>(s: seq<T>, blocks: seq<seq<T>>, b: nat, c: nat)
    requires b < |blocks| && c < |blocks[b]|
  {
    Rank(Lengths(blocks), b, c) < |s| && s[Rank(Lengths(blocks), b, c)] == blocks[b][c]
  }

  /** `s` holds exactly the codewords before column i, and before block j in column i. */
  ghost predicate WovenTo<T>(s: seq<T>, blocks: seq<seq<T>>, i: nat, j: nat)
    requires j <= |blocks|
  {
    && |s| == Rank(Lengths(blocks), j, i)
    && forall b, c | 0 <= b < |blocks| && 0 <= c < |blocks[b]| && (c < i || (c == i && b < j)) ::
         InPlace(s, blocks, b, c)
  }

  method LongestBlock<T>(blocks: seq<seq<T>>) returns (m: nat)
    ensures forall b | 0 <= b < |blocks| :: |blocks[b]| <= m
  {
    m := 0;
    for k := 0 to |blocks|
      invariant forall b | 0 <= b < k :: |blocks[b]| <= m
    {
      if |blocks[k]| > m {
        m := |blocks[k]|;
      }
    }
  }

  /** Column by column, the next codeword of every block that still has one. */
  method Weave<T>(blocks: seq<seq<T>>) returns (out: seq<T>)
    ensures |out| == Sum(Lengths(blocks))
    ensures Unweave(out, Lengths(blocks)) == blocks
  {
    ghost var lens := Lengths(blocks);
    var columns := LongestBlock(blocks);
    out := [];
    ColumnsBound(lens, 0);
    for i := 0 to columns
      invariant WovenTo(out, blocks, i, 0)
    {
      for j := 0 to |blocks|
        invariant WovenTo(out, blocks, i, j)
      {
        WovenStep(out, blocks, i, j);
        if i < |blocks[j]| {
          out := out + [blocks[j][i]];
        }
      }
      ColumnDone(out, blocks, i);
    }
    WovenAll(out, blocks, columns);
  }

  lemma WovenStep<T>(s: seq<T>, blocks: seq<seq<T>>, i: nat, j: nat)
    requires j < |blocks| && WovenTo(s, blocks, i, j)
    ensures WovenTo(if i < |blocks[j]| then s + [blocks[j][i]] else s, blocks, i, j + 1)
  {
    var s' := if i < |blocks[j]| then s + [blocks[j][i]] else s;
    forall b, c | 0 <= b < |blocks| && 0 <= c < |blocks[b]| && (c < i || (c == i && b < j + 1))
      ensures InPlace(s', blocks, b, c)
    {
      if !(b == j && c == i) {
        assert InPlace(s, blocks, b, c);
      }
    }
  }

  lemma ColumnDone<T>(s: seq<T>, blocks: seq<seq<T>>, i: nat)
    requires WovenTo(s, blocks, i, |blocks|)
    ensures WovenTo(s, blocks, i + 1, 0)
  {
    NextColumn(Lengths(blocks), i);
  }

  lemma WovenAll<T>(s: seq<T>, blocks: seq<seq<T>>, columns: nat)
    requires WovenTo(s, blocks, columns, 0)
    requires forall b | 0 <= b < |blocks| :: |blocks[b]| <= columns
    ensures |s| == Sum(Lengths(blocks))
    ensures Unweave(s, Lengths(blocks)) == blocks
  {
    var lens := Lengths(blocks);
    ColumnsBound(lens, columns);
    forall j | 0 <= j < |blocks| ensures UnweaveBlock(s, lens, j) == blocks[j] {
      forall i | 0 <= i < |blocks[j]| ensures UnweaveBlock(s, lens, j)[i] == blocks[j][i] {
        RankBound(lens, j, i);
        assert InPlace(s, blocks, j, i);
      }
    }
  }

  // --- blocks of a version ---------------------------------------------------------------------

  /** The data length of every block, group by group. */
  function BlockLengths(groups: seq<Group>): seq<nat> {
    if groups == [] then []
    else BlockLengths(groups[..|groups| - 1]) + seq(groups[|groups| - 1].count, _ => groups[|groups| - 1].data)
  }

  /**
   * The blocks of level M (ISO/IEC 18004:2015, Table 9): this many blocks share the data of the version as
   * evenly as they can, the shorter ones first, and each has this many check symbols.
   */
  lemma BlocksAreEven(version: nat, j: nat)
    requires 1 <= version <= MAX_VERSION && j < |BlockLengths(LayoutOf(version).groups)|
    ensures var n := [1, 1, 1, 2, 2, 4, 4, 4, 5, 5, 5, 8, 9, 9, 10][version - 1];
            var lens := BlockLengths(LayoutOf(version).groups);
            && |lens| == n
            && lens[j] == (CapacityTable(version) + j) / n
            && LayoutOf(version).ecLen == [10, 16, 26, 18, 24, 16, 18, 22, 22, 26, 30, 22, 22, 24, 24][version - 1]
  {
    var g := LayoutOf(version).groups;
    LengthAt(g, j);
    hide BlockLengths;
  }

  /** The length of a block by its group. */
  lemma LengthAt(g: seq<Group>, j: nat)
    requires 1 <= |g| <= 2
    ensures |BlockLengths(g)| == g[0].count + if |g| == 2 then g[1].count else 0
    ensures j < |BlockLengths(g)| ==> BlockLengths(g)[j] == if j < g[0].count then g[0].data else g[|g| - 1].data
  {
    if |g| == 1 {
      OneGroup(g[0]);
      assert g == [g[0]];
    } else {
      TwoGroups(g[0], g[1]);
      assert g == [g[0], g[1]];
    }
  }

  lemma OneGroup(a: Group)
    ensures BlockLengths([a]) == seq(a.count, _ => a.data)
  {
    assert [a][..0] == [];
  }

  lemma TwoGroups(a: Group, b: Group)
    ensures BlockLengths([a, b]) == seq(a.count, _ => a.data) + seq(b.count, _ => b.data)
  {
    assert [a, b][..1] == [a];
    OneGroup(a);
  }

  function Join<T>(blocks: seq<seq<T>>): seq<T> {
    if blocks == [] then [] else Join(blocks[..|blocks| - 1]) + blocks[|blocks| - 1]
  }

  /** Every block with its check symbols is a codeword. */
  ghost predicate AllCodewords(data: seq<seq<Byte>>, checks: seq<seq<Byte>>, ecLen: nat)
    requires |data| == |checks|
  {
    forall k {:trigger data[k]} {:trigger checks[k]} | 0 <= k < |data| ::
      |checks[k]| == ecLen && IsCodeword(data[k] + checks[k], ecLen)
  }

  function Uniform(n: nat, len: nat): (r: seq<nat>)
    ensures |r| == n
  {
    seq(n, _ => len)
  }

  lemma {:induction false} UniformSum(n: nat, len: nat)
    ensures Sum(Uniform(n, len)) == n * len
  {
    if n > 0 {
      UniformSum(n - 1, len);
      assert Uniform(n, len)[..n - 1] == Uniform(n - 1, len);
    }
  }

  /** What a reader of a version's codewords finds: the blocks of data and of check symbols. */
  function DataBlocks(codewords: seq<Byte>, layout: Layout): (blocks: seq<seq<Byte>>)
    requires |codewords| == TotalCodewords(layout)
    ensures |blocks| == |BlockLengths(layout.groups)|
  {
    var lens := BlockLengths(layout.groups);
    Unweave(codewords[..Sum(lens)], lens)
  }

  function CheckBlocks(codewords: seq<Byte>, layout: Layout): (blocks: seq<seq<Byte>>)
    requires |codewords| == TotalCodewords(layout)
    ensures |blocks| == |BlockLengths(layout.groups)|
  {
    var lens := BlockLengths(layout.groups);
    UniformSum(|lens|, layout.ecLen);
    Unweave(codewords[Sum(lens)..], Uniform(|lens|, layout.ecLen))
  }

  /** Data and check codewords of a layout together. */
  function TotalCodewords(layout: Layout): nat {
    Sum(BlockLengths(layout.groups)) + |BlockLengths(layout.groups)| * layout.ecLen
  }

  /** Cuts the data into the blocks of the layout, in order. */
  method CutBlocks(data: seq<Byte>, groups: seq<Group>) returns (blocks: seq<seq<Byte>>)
    requires |data| == Sum(BlockLengths(groups))
    ensures Lengths(blocks) == BlockLengths(groups) && Join(blocks) == data
  {
    hide Join, Lengths;
    blocks := [];
    var offset := 0;
    assert Lengths(blocks) == [] && Join(blocks) == [] by {
      NoBlocks<Byte>();
    }
    for g := 0 to |groups|
      invariant Lengths(blocks) == BlockLengths(groups[..g])
      invariant offset == Sum(Lengths(blocks)) <= |data| && Join(blocks) == data[..offset]
    {
      GroupPrefix(groups, g, groups[g].count);
      blocks, offset := CutGroup(data, groups[g], blocks, offset);
      assert groups[..g + 1][..g] == groups[..g];
    }
    assert groups[..|groups|] == groups;
    assert data[..|data|] == data;
  }

  lemma NoBlocks<T>()
    ensures Lengths<T>([]) == [] && Join<T>([]) == []
  {
  }

  /** The blocks of one group, after those cut before. */
  method CutGroup(data: seq<Byte>, group: Group, before: seq<seq<Byte>>, start: nat)
    returns (blocks: seq<seq<Byte>>, offset: nat)
    requires Sum(Lengths(before) + Uniform(group.count, group.data)) <= |data|
    requires start == Sum(Lengths(before)) <= |data| && Join(before) == data[..start]
    ensures Lengths(blocks) == Lengths(before) + Uniform(group.count, group.data)
    ensures offset == Sum(Lengths(blocks)) <= |data| && Join(blocks) == data[..offset]
  {
    hide Join, Lengths, Sum;
    var size := group.data;
    blocks := before;
    ghost var lens := Lengths(before);
    offset := start;
    assert lens + Uniform(0, size) == lens;
    for i := 0 to group.count
      invariant Lengths(blocks) == lens + Uniform(i, size)
      invariant offset == Sum(lens + Uniform(i, size)) <= |data|
      invariant Join(blocks) == data[..offset]
    {
      NextBlock(lens, i, size);
      SumWithin(lens, i + 1, group.count, size);
      var block := data[offset..offset + size];
      BlockAdded(blocks, block);
      blocks := blocks + [block];
      assert data[..offset] + block == data[..offset + size];
      offset := offset + size;
    }
  }

  lemma SumWithin(lens: seq<nat>, i: nat, n: nat, size: nat)
    requires i <= n
    ensures Sum(lens + Uniform(i, size)) <= Sum(lens + Uniform(n, size))
  {
    assert lens + Uniform(n, size) == lens + Uniform(i, size) + Uniform(n - i, size);
    SumPrefix(lens + Uniform(i, size), Uniform(n - i, size));
  }

  lemma NextBlock(lens: seq<nat>, i: nat, size: nat)
    ensures lens + Uniform(i + 1, size) == lens + Uniform(i, size) + [size]
    ensures Sum(lens + Uniform(i + 1, size)) == Sum(lens + Uniform(i, size)) + size
  {
    var before := lens + Uniform(i, size);
    assert (before + [size])[..|before|] == before;
    assert lens + Uniform(i + 1, size) == before + [size];
  }

  lemma BlockAdded<T>(blocks: seq<seq<T>>, block: seq<T>)
    ensures Lengths(blocks + [block]) == Lengths(blocks) + [|block|]
    ensures Join(blocks + [block]) == Join(blocks) + block
  {
    assert (blocks + [block])[..|blocks|] == blocks;
  }

  lemma {:induction false} SumPrefix(a: seq<nat>, b: seq<nat>)
    ensures Sum(a + b) == Sum(a) + Sum(b)
    decreases |b|
  {
    if b == [] {
      assert a + b == a;
    } else {
      SumPrefix(a, b[..|b| - 1]);
      assert (a + b)[..|a + b| - 1] == a + b[..|b| - 1];
    }
  }

  /** The first g groups and i blocks of the next do not exceed the whole. */
  lemma {:induction false} GroupPrefix(groups: seq<Group>, g: nat, i: nat)
    requires g < |groups| && i <= groups[g].count
    ensures Sum(BlockLengths(groups[..g]) + Uniform(i, groups[g].data)) <= Sum(BlockLengths(groups))
    decreases |groups|
  {
    var n, last := groups[g].count, |groups| - 1;
    if g == last {
      SumPrefix(BlockLengths(groups[..g]), Uniform(i, groups[g].data));
      SumPrefix(BlockLengths(groups[..g]), Uniform(n, groups[g].data));
      assert Uniform(n, groups[g].data) == Uniform(i, groups[g].data) + Uniform(n - i, groups[g].data);
      SumPrefix(Uniform(i, groups[g].data), Uniform(n - i, groups[g].data));
    } else {
      GroupPrefix(groups[..last], g, i);
      assert groups[..last][..g] == groups[..g];
      SumPrefix(BlockLengths(groups[..last]), Uniform(groups[last].count, groups[last].data));
    }
  }

  /** The codewords of a symbol: the woven data blocks, then the woven check symbols. */
  method Interleave(t: Tables, data: seq<Byte>, layout: Layout) returns (out: seq<Byte>)
    requires t.Valid() && 0 < layout.ecLen <= 512 && |data| == Sum(BlockLengths(layout.groups))
    ensures |out| == TotalCodewords(layout)
    ensures Join(DataBlocks(out, layout)) == data
    ensures AllCodewords(DataBlocks(out, layout), CheckBlocks(out, layout), layout.ecLen)
  {
    var blocks := CutBlocks(data, layout.groups);
    var checks: seq<seq<Byte>> := [];
    for k := 0 to |blocks|
      invariant |checks| == k
      invariant forall b | 0 <= b < k :: |checks[b]| == layout.ecLen && IsCodeword(blocks[b] + checks[b], layout.ecLen)
    {
      var r := RsRemainder(t, blocks[k], layout.ecLen);
      checks := checks + [r];
    }
    var first := Weave(blocks);
    var second := Weave(checks);
    out := first + second;
    assert Lengths(checks) == Uniform(|blocks|, layout.ecLen);
    UniformSum(|blocks|, layout.ecLen);
    assert out[..|first|] == first && out[|first|..] == second;
  }
}
