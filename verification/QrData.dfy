/** Byte-mode data codewords: mode, length, bytes, terminator and padding, and reading them back. */
module QrData {
  import opened Wrappers
  import opened Bits
  import opened BitStream
  import opened QrVersions

  function Min(a: nat, b: nat): nat {
    if a < b then a else b
  }

  /** Mode indicator 0100, the length in `count` bits, then eight bits a byte. */
  function Body(payload: seq<Byte>, count: nat): (r: seq<Bit>)
    ensures |r| == 4 + count + 8 * |payload|
  {
    BitsOf(4, 4) + BitsOf(|payload|, count) + Unpack(payload)
  }

  /** Bits of terminator, and of filler up to a byte boundary, after n bits in `room` bytes. */
  function Tail(n: nat, room: nat): (k: nat)
    requires n <= 8 * room
    ensures (n + k) % 8 == 0 && n + k <= 8 * room
  {
    var ended := n + Min(4, 8 * room - n);
    WholeByteFits(ended + ToByte(ended), room);
    ended - n + ToByte(ended)
  }

  /** Bits up to the next byte boundary. */
  function ToByte(n: nat): (k: nat)
    ensures (n + k) % 8 == 0 && k < 8
  {
    (8 - n % 8) % 8
  }

  lemma WholeByteFits(n: nat, room: nat)
    requires n % 8 == 0 && n < 8 * room + 8
    ensures n <= 8 * room
  {
  }

  function Stream(payload: seq<Byte>, count: nat, room: nat): (r: seq<Bit>)
    requires 4 + count + 8 * |payload| <= 8 * room
    ensures |r| % 8 == 0 && |r| <= 8 * room
  {
    var body := Body(payload, count);
    body + ZeroBits(Tail(|body|, room))
  }

  /** Pad codewords, alternately 0xec and 0x11. */
  function Pads(n: nat): (r: seq<Byte>)
    ensures |r| == n
  {
    seq(n, i => if i % 2 == 0 then 0xec else 0x11)
  }

  /** The `room` data codewords of a symbol (ISO/IEC 18004:2015, 7.4). */
  function DataCodewords(payload: seq<Byte>, count: nat, room: nat): (r: seq<Byte>)
    requires 4 + count + 8 * |payload| <= 8 * room
    ensures |r| == room
  {
    var s := Stream(payload, count, room);
    Pack(s) + Pads(room - |s| / 8)
  }

  /** A byte-mode reader: the payload, or None when the codewords do not start with a byte-mode segment. */
  function ReadBytes(codewords: seq<Byte>, count: nat): Option<seq<Byte>> {
    var s := Unpack(codewords);
    var start := 4 + count;
    if |s| < start || FromBits(s[..4]) != 4 then None
    else ReadBody(s[start..], FromBits(s[4..start]))
  }

  /** The first n bytes of a stream. */
  function ReadBody(s: seq<Bit>, n: nat): Option<seq<Byte>> {
    if 8 * n > |s| then None else Some(Pack(s[..8 * n]))
  }

  lemma DataBits(payload: seq<Byte>, count: nat, room: nat)
    requires 4 + count + 8 * |payload| <= 8 * room
    ensures Body(payload, count) <= Unpack(DataCodewords(payload, count, room))
  {
    var stream := Stream(payload, count, room);
    UnpackPack(stream);
    var pads := Pads(room - |stream| / 8);
    UnpackConcat(Pack(stream), pads);
    assert Unpack(DataCodewords(payload, count, room)) == stream + Unpack(pads);
  }

  lemma BodySlices(payload: seq<Byte>, count: nat, s: seq<Bit>)
    requires Body(payload, count) <= s
    ensures s[..4] == BitsOf(4, 4) && s[4..4 + count] == BitsOf(|payload|, count)
    ensures |s| >= 4 + count + 8 * |payload| && s[4 + count..][..8 * |payload|] == Unpack(payload)
  {
    hide BitsOf, Unpack;
    Slices(BitsOf(4, 4), BitsOf(|payload|, count), Unpack(payload), s);
  }

  lemma Slices(a: seq<Bit>, b: seq<Bit>, c: seq<Bit>, s: seq<Bit>)
    requires a + b + c <= s
    ensures |s| >= |a| + |b| + |c|
    ensures s[..|a|] == a && s[|a|..|a| + |b|] == b && s[|a| + |b|..][..|c|] == c
  {
    var all := a + b + c;
    assert s[..|all|] == all;
    assert s[..|a|] == all[..|a|] == a;
    assert s[|a|..|a| + |b|] == all[|a|..|a| + |b|] == b;
    assert s[|a| + |b|..][..|c|] == all[|a| + |b|..] == c;
  }

  /** The reader gets back what was encoded. */
  lemma ReadBytesInverts(payload: seq<Byte>, count: nat, room: nat)
    requires 4 + count + 8 * |payload| <= 8 * room && |payload| < Pow2(count)
    ensures ReadBytes(DataCodewords(payload, count, room), count) == Some(payload)
  {
    hide DataCodewords, Unpack, Pack, FromBits, BitsOf, Pow2;
    var codewords := DataCodewords(payload, count, room);
    DataBits(payload, count, room);
    BodySlices(payload, count, Unpack(codewords));
    FourIsRead();
    FromBitsOf(|payload|, count);
    PackUnpack(payload);
  }

  /** The mode indicator of byte mode. */
  lemma FourIsRead()
    ensures FromBits(BitsOf(4, 4)) == 4
  {
    assert Pow2(4) == 16;
    FromBitsOf(4, 4);
  }

  lemma CountFits(bytes: nat, version: nat)
    requires 1 <= version <= MAX_VERSION && Fits(bytes, version)
    ensures bytes < Pow2(CountBits(version))
  {
    CapacityIs(version);
    assert Pow2(8) == 256;
    Pow2Sixteen();
  }

  lemma Pow2Sixteen()
    ensures Pow2(16) == 65536
  {
    assert Pow2(4) == 16 && Pow2(8) == 256 && Pow2(12) == 4096;
  }

  /** Appends the `length` low bits of value, highest first. */
  method Put(bits: seq<Bit>, value: nat, length: nat) returns (r: seq<Bit>)
    ensures r == bits + BitsOf(value, length)
  {
    r := bits;
    ghost var all := BitsOf(value, length);
    var i := length;
    while i > 0
      invariant 0 <= i <= length
      invariant r == bits + all[..length - i]
    {
      i := i - 1;
      BitsOfAt(value, length, length - 1 - i);
      r := r + [BitAt(value, i)];
    }
    assert all[..length] == all;
  }

  method EncodeData(payload: seq<Byte>, version: nat) returns (bytes: seq<Byte>)
    requires 1 <= version <= MAX_VERSION && Fits(|payload|, version)
    ensures Capacity(version) == CapacityTable(version)
    ensures bytes == DataCodewords(payload, CountBits(version), Capacity(version))
  {
    hide Body, LayoutOf, CapacityTable, ToByte, GroupData, Min, Pack;
    CapacityIs(version);
    var room := Capacity(version);
    var bits := PutSegment(payload, CountBits(version));
    bits := Finish(bits, room);
    bytes := PackBytes(bits);
    bytes := AddPads(bytes, room);
  }

  /** Fills up to `room` codewords. */
  method AddPads(data: seq<Byte>, room: nat) returns (bytes: seq<Byte>)
    requires |data| <= room
    ensures bytes == data + Pads(room - |data|)
  {
    bytes := data;
    var pad := 0;
    while |bytes| < room
      invariant |bytes| <= room && pad == |bytes| - |data|
      invariant bytes == data + Pads(pad)
    {
      bytes := bytes + [if pad % 2 == 0 then 0xec else 0x11];
      pad := pad + 1;
    }
  }

  /** The byte-mode segment. */
  method PutSegment(payload: seq<Byte>, count: nat) returns (bits: seq<Bit>)
    ensures bits == Body(payload, count)
  {
    bits := Put([], 4, 4);
    bits := Put(bits, |payload|, count);
    bits := PutBytes(bits, payload);
  }

  method PutBytes(before: seq<Bit>, payload: seq<Byte>) returns (bits: seq<Bit>)
    ensures bits == before + Unpack(payload)
  {
    hide Unpack, BitsOf;
    bits := before;
    NothingUnpacked(before);
    for i := 0 to |payload|
      invariant bits == before + Unpack(payload[..i])
    {
      UnpackSnoc(before, payload[..i], payload[i]);
      assert payload[..i + 1] == payload[..i] + [payload[i]];
      bits := Put(bits, payload[i], 8);
    }
    assert payload[..|payload|] == payload;
  }

  lemma NothingUnpacked(before: seq<Bit>)
    ensures before + Unpack([]) == before
  {
  }

  lemma UnpackSnoc(before: seq<Bit>, payload: seq<Byte>, byte: Byte)
    ensures before + Unpack(payload + [byte]) == before + Unpack(payload) + BitsOf(byte, 8)
  {
    assert (payload + [byte])[..|payload|] == payload;
  }

  /** The terminator, up to four zeros, and the zeros that complete a byte. */
  method Finish(body: seq<Bit>, room: nat) returns (bits: seq<Bit>)
    requires |body| <= 8 * room
    ensures bits == body + ZeroBits(Tail(|body|, room))
  {
    var total := room * 8;
    var n := Min(4, total - |body|);
    BitsOfZero(n);
    bits := Put(body, 0, n);
    ghost var ended := |body| + n;
    ByteBoundary(ended, 0);
    while |bits| % 8 != 0
      invariant ended <= |bits| <= ended + ToByte(ended)
      invariant |bits| % 8 == 0 <==> |bits| == ended + ToByte(ended)
      invariant bits == body + ZeroBits(|bits| - |body|)
      decreases ended + ToByte(ended) - |bits|
    {
      bits := bits + [0];
      ByteBoundary(ended, |bits| - ended);
    }
  }

  lemma ByteBoundary(n: nat, m: nat)
    requires m <= ToByte(n)
    ensures (n + m) % 8 == 0 <==> m == ToByte(n)
  {
  }

  /** Whole bytes, eight bits at a time. */
  method PackBytes(bits: seq<Bit>) returns (bytes: seq<Byte>)
    requires |bits| % 8 == 0
    ensures bytes == Pack(bits)
  {
    bytes := [];
    var i := 0;
    while i < |bits|
      invariant i % 8 == 0 && 0 <= i <= |bits|
      invariant bytes == Pack(bits[..i])
    {
      var v := PackByte(bits[i..i + 8]);
      PackConcat(bits[..i], bits[i..i + 8]);
      assert bits[..i] + bits[i..i + 8] == bits[..i + 8];
      bytes := bytes + [v];
      i := i + 8;
    }
    assert bits[..|bits|] == bits;
  }

  /** One byte, shifting each bit in from the right. */
  method PackByte(eight: seq<Bit>) returns (v: Byte)
    requires |eight| == 8
    ensures v == FromBits(eight)
  {
    var acc: nat := 0;
    for j := 0 to 8
      invariant acc == FromBits(eight[..j])
    {
      assert eight[..j + 1][..j] == eight[..j];
      acc := 2 * acc + eight[j];
    }
    assert eight[..8] == eight;
    FromEightBits(eight);
    v := acc;
  }
}
