/** The version tables of the QR encoder, level M: block layout, capacity and the choice of version. */
module QrVersions {
  const MAX_VERSION: nat := 15
  const MAX_PAYLOAD: nat := 412

  /** `count` blocks of `data` data codewords each. */
  datatype Group = Group(count: nat, data: nat)

  /** Error-correction codewords per block, and the groups of blocks. */
  datatype Layout = Layout(ecLen: nat, groups: seq<Group>)

  function LayoutOf(version: nat): Layout
    requires 1 <= version <= MAX_VERSION
  {
    match version
    case 1 => Layout(10, [Group(1, 16)])
    case 2 => Layout(16, [Group(1, 28)])
    case 3 => Layout(26, [Group(1, 44)])
    case 4 => Layout(18, [Group(2, 32)])
    case 5 => Layout(24, [Group(2, 43)])
    case 6 => Layout(16, [Group(4, 27)])
    case 7 => Layout(18, [Group(4, 31)])
    case 8 => Layout(22, [Group(2, 38), Group(2, 39)])
    case 9 => Layout(22, [Group(3, 36), Group(2, 37)])
    case 10 => Layout(26, [Group(4, 43), Group(1, 44)])
    case 11 => Layout(30, [Group(1, 50), Group(4, 51)])
    case 12 => Layout(22, [Group(6, 36), Group(2, 37)])
    case 13 => Layout(22, [Group(8, 37), Group(1, 38)])
    case 14 => Layout(24, [Group(4, 40), Group(5, 41)])
    case _ => Layout(24, [Group(5, 41), Group(5, 42)])
  }

  function GroupData(groups: seq<Group>): nat {
    if groups == [] then 0 else groups[0].count * groups[0].data + GroupData(groups[1..])
  }

  /** Data codewords of a version. */
  function Capacity(version: nat): nat
    requires 1 <= version <= MAX_VERSION
  {
    GroupData(LayoutOf(version).groups)
  }

  /** The data codewords a version of level M holds (ISO/IEC 18004:2015, Table 7). */
  function CapacityTable(version: nat): nat
    requires 1 <= version <= MAX_VERSION
  {
    match version
    case 1 => 16 case 2 => 28 case 3 => 44 case 4 => 64 case 5 => 86
    case 6 => 108 case 7 => 124 case 8 => 154 case 9 => 182 case 10 => 216
    case 11 => 254 case 12 => 290 case 13 => 334 case 14 => 365 case _ => 415
  }

  function CountBits(version: nat): nat {
    if version < 10 then 8 else 16
  }

  /** A payload of `bytes` bytes fits the version: mode, length and bytes within the capacity. */
  predicate Fits(bytes: nat, version: nat)
    requires 1 <= version <= MAX_VERSION
  {
    4 + CountBits(version) + bytes * 8 <= CapacityTable(version) * 8
  }

  lemma GroupSums(a: Group, b: Group)
    ensures GroupData([a]) == a.count * a.data
    ensures GroupData([a, b]) == a.count * a.data + b.count * b.data
  {
    assert [a][1..] == [] && [b][1..] == [] && [a, b][1..] == [b];
  }

  lemma CapacityIs(version: nat)
    requires 1 <= version <= MAX_VERSION
    ensures Capacity(version) == CapacityTable(version)
  {
    var g := LayoutOf(version).groups;
    GroupSums(g[0], g[|g| - 1]);
    assert g == if |g| == 1 then [g[0]] else [g[0], g[|g| - 1]];
  }

  /** Capacities grow with the version, and so does the room for a payload. */
  lemma FitsMonotone(bytes: nat, v: nat, w: nat)
    requires 1 <= v <= w <= MAX_VERSION && Fits(bytes, v)
    ensures Fits(bytes, w)
  {
  }

  /** What a version holds in byte mode (ISO/IEC 18004:2015, Table 7). */
  lemma FitsIff(bytes: nat, version: nat)
    requires 1 <= version <= MAX_VERSION
    ensures Fits(bytes, version) <==>
            bytes <= [14, 26, 42, 62, 84, 106, 122, 152, 180, 213, 251, 287, 331, 362, 412][version - 1]
  {
  }

  datatype Choice = Version(version: nat) | TooLong

  /** The smallest version with room; none exactly when the payload is longer than 412 bytes. */
  method ChooseVersion(bytes: nat) returns (c: Choice)
    ensures c.TooLong? <==> bytes > MAX_PAYLOAD
    ensures c.Version? ==> 1 <= c.version <= MAX_VERSION && Fits(bytes, c.version)
    ensures c.Version? ==> forall v | 1 <= v < c.version :: !Fits(bytes, v)
  {
    for v := 1 to MAX_VERSION + 1
      invariant forall w | 1 <= w < v :: !Fits(bytes, w)
    {
      CapacityIs(v);
      var countBits := CountBits(v);
      if 4 + countBits + bytes * 8 <= Capacity(v) * 8 {
        FitsMonotone(bytes, v, MAX_VERSION);
        return Version(v);
      }
    }
    assert !Fits(bytes, MAX_VERSION);
    return TooLong;
  }
}
