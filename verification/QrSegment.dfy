/** The data codewords of a symbol, codeword by codeword. */
module QrSegment {
  import opened Bits
  import opened BitStream
  import opened QrVersions
  import opened QrData

  /** The length, in one byte below version 10 and in two from there on, and the payload. */
  function Counted(payload: seq<Byte>, version: nat): seq<Byte>
    requires |payload| < if version < 10 then 256 else 65536
  {
    (if version < 10 then [|payload|] else [|payload| / 256, |payload| % 256]) + payload
  }

  /** The bytes moved by half a byte, between the half bytes `high` and `low`. */
  function Shifted(high: nat, bytes: seq<Byte>, low: nat): (r: seq<Byte>)
    requires high < 16 && low < 16
    ensures |r| == |bytes| + 1
  {
    if bytes == [] then [16 * high + low]
    else
      var last := bytes[|bytes| - 1];
      Shifted(high, bytes[..|bytes| - 1], last / 16) + [16 * (last % 16) + low]
  }

  lemma {:induction false} ShiftedAt(high: nat, bytes: seq<Byte>, low: nat, i: nat)
    requires high < 16 && low < 16 && i <= |bytes|
    ensures Shifted(high, bytes, low)[i] ==
            16 * (if i == 0 then high else bytes[i - 1] % 16) + if i == |bytes| then low else bytes[i] / 16
  {
    if i < |bytes| {
      ShiftedAt(high, bytes[..|bytes| - 1], bytes[|bytes| - 1] / 16, i);
    }
  }

  lemma FromBitsSnoc(s: seq<Bit>, c: Bit)
    ensures FromBits(s + [c]) == 2 * FromBits(s) + c
  {
    assert (s + [c])[..|s|] == s;
  }

  lemma {:induction false} FromBitsConcat(s: seq<Bit>, t: seq<Bit>)
    ensures FromBits(s + t) == FromBits(s) * Pow2(|t|) + FromBits(t)
    decreases |t|
  {
    if t == [] {
      assert s + t == s && FromBits(t) == 0;
    } else {
      hide FromBits;
      var front, last := t[..|t| - 1], t[|t| - 1];
      FromBitsConcat(s, front);
      FromBitsSnoc(s + front, last);
      FromBitsSnoc(front, last);
      assert t == front + [last] && s + t == s + front + [last];
      DoubleProduct(FromBits(s), Pow2(|front|));
    }
  }

  lemma DoubleProduct(a: nat, p: nat)
    ensures 2 * (a * p) == a * (2 * p)
  {
  }

  /** The bits of a number written one part after the other. */
  lemma BitsJoin(a: nat, m: nat, b: nat, n: nat)
    requires a < Pow2(m) && b < Pow2(n)
    ensures BitsOf(a * Pow2(n) + b, m + n) == BitsOf(a, m) + BitsOf(b, n)
  {
    hide BitsOf, FromBits, Pow2;
    FromBitsConcat(BitsOf(a, m), BitsOf(b, n));
    FromBitsOf(a, m);
    FromBitsOf(b, n);
    BitsOfFrom(BitsOf(a, m) + BitsOf(b, n));
  }

  lemma Powers()
    ensures Pow2(4) == 16 && Pow2(8) == 256
  {
  }

  lemma HalfBytes(b: Byte)
    ensures BitsOf(b, 8) == BitsOf(b / 16, 4) + BitsOf(b % 16, 4)
  {
    hide BitsOf;
    Powers();
    BitsJoin(b / 16, 4, b % 16, 4);
  }

  lemma TwoBytes(n: nat)
    requires n < 65536
    ensures BitsOf(n, 16) == BitsOf(n / 256, 8) + BitsOf(n % 256, 8)
  {
    hide BitsOf;
    Powers();
    BitsJoin(n / 256, 8, n % 256, 8);
  }

  lemma JoinHalves(high: nat, low: nat)
    requires high < 16 && low < 16
    ensures FromBits(BitsOf(high, 4) + BitsOf(low, 4)) == 16 * high + low
  {
    hide BitsOf, FromBits, Pow2;
    Powers();
    FromBitsConcat(BitsOf(high, 4), BitsOf(low, 4));
    FromBitsOf(high, 4);
    FromBitsOf(low, 4);
  }

  /** Bytes after half a byte, closed by half a byte, pack into the bytes shifted. */
  lemma {:induction false} PackShifted(high: nat, bytes: seq<Byte>, low: nat)
    requires high < 16 && low < 16
    ensures Pack(BitsOf(high, 4) + Unpack(bytes) + BitsOf(low, 4)) == Shifted(high, bytes, low)
    decreases |bytes|
  {
    hide BitsOf, FromBits, Pack, Unpack;
    var h, l := BitsOf(high, 4), BitsOf(low, 4);
    if bytes == [] {
      JoinHalves(high, low);
      Packs([], h + l);
      assert h + [] + l == [] + (h + l);
    } else {
      var front, last := bytes[..|bytes| - 1], bytes[|bytes| - 1];
      PackShifted(high, front, last / 16);
      JoinHalves(last % 16, low);
      HalfBytes(last);
      UnpackLast(front, last);
      assert bytes == front + [last];
      var before := h + Unpack(front) + BitsOf(last / 16, 4);
      Regroup(h, Unpack(front), BitsOf(last / 16, 4), BitsOf(last % 16, 4), l);
      Packs(before, BitsOf(last % 16, 4) + l);
    }
  }

  lemma Packs(s: seq<Bit>, eight: seq<Bit>)
    requires |s| % 8 == 0 && |eight| == 8
    ensures FromBits(eight) < 256 && Pack([]) == [] && Pack(s + eight) == Pack(s) + [FromBits(eight)]
  {
    PackConcat(s, eight);
  }

  lemma UnpackLast(front: seq<Byte>, last: Byte)
    ensures Unpack([]) == [] && Unpack(front + [last]) == Unpack(front) + BitsOf(last, 8)
  {
    assert (front + [last])[..|front|] == front;
  }

  lemma Regroup<T>(a: seq<T>, b: seq<T>, c: seq<T>, d: seq<T>, e: seq<T>)
    ensures a + (b + (c + d)) + e == a + b + c + (d + e)
  {
  }

  lemma BodyIs(payload: seq<Byte>, version: nat)
    requires |payload| < if version < 10 then 256 else 65536
    ensures Body(payload, CountBits(version)) == BitsOf(4, 4) + Unpack(Counted(payload, version))
  {
    hide BitsOf;
    var n := |payload|;
    if version < 10 {
      UnpackConcat([n], payload);
      UnpackOne(n);
    } else {
      UnpackConcat([n / 256, n % 256], payload);
      UnpackConcat([n / 256], [n % 256]);
      assert [n / 256] + [n % 256] == [n / 256, n % 256];
      UnpackOne(n / 256);
      UnpackOne(n % 256);
      TwoBytes(n);
    }
  }

  lemma UnpackOne(b: Byte)
    ensures Unpack([b]) == BitsOf(b, 8)
  {
    UnpackLast([], b);
    assert [] + [b] == [b];
  }

  /** There is always room for the four bits of the terminator, and they complete a codeword. */
  lemma TailIsFour(bytes: nat, room: nat)
    requires 4 + 8 * bytes <= 8 * room
    ensures Tail(4 + 8 * bytes, room) == 4
  {
  }

  lemma StreamIs(payload: seq<Byte>, version: nat, room: nat)
    requires |payload| < if version < 10 then 256 else 65536
    requires 4 + CountBits(version) + 8 * |payload| <= 8 * room
    ensures Stream(payload, CountBits(version), room) ==
            BitsOf(4, 4) + Unpack(Counted(payload, version)) + BitsOf(0, 4)
  {
    hide BitsOf, Tail, Body;
    BodyIs(payload, version);
    TailIsFour(|Counted(payload, version)|, room);
    BitsOfZero(4);
  }

  lemma DataIs(payload: seq<Byte>, version: nat, room: nat)
    requires |payload| < if version < 10 then 256 else 65536
    requires 4 + CountBits(version) + 8 * |payload| <= 8 * room
    ensures var all := Counted(payload, version);
            |all| < room &&
            DataCodewords(payload, CountBits(version), room) == Shifted(4, all, 0) + Pads(room - |all| - 1)
  {
    hide BitsOf, Unpack, Pack, Stream;
    StreamIs(payload, version, room);
    PackShifted(4, Counted(payload, version), 0);
  }

  /**
   * The codewords of a payload: 0100, the length and the payload run through them half a byte late, four
   * zeros end them, and 11101100 and 00010001 follow in turn.
   */
  lemma CodewordsAre(payload: seq<Byte>, version: nat, i: nat)
    requires 1 <= version <= MAX_VERSION && Fits(|payload|, version) && i < CapacityTable(version)
    ensures |payload| < if version < 10 then 256 else 65536
    ensures var all := Counted(payload, version);
            DataCodewords(payload, CountBits(version), CapacityTable(version))[i] ==
            if i <= |all| then 16 * (if i == 0 then 4 else all[i - 1] % 16) + (if i == |all| then 0 else all[i] / 16)
            else if (i - |all|) % 2 == 1 then 236 else 17
  {
    hide Fits, CapacityTable, Counted, Shifted, Pads, DataCodewords, CountBits;
    FitsBytes(|payload|, version);
    DataIs(payload, version, CapacityTable(version));
    CodewordAt(Counted(payload, version), CapacityTable(version), i);
  }

  lemma CodewordAt(all: seq<Byte>, room: nat, i: nat)
    requires i < room && |all| < room
    ensures (Shifted(4, all, 0) + Pads(room - |all| - 1))[i] ==
            if i <= |all| then 16 * (if i == 0 then 4 else all[i - 1] % 16) + (if i == |all| then 0 else all[i] / 16)
            else if (i - |all|) % 2 == 1 then 236 else 17
  {
    hide Shifted, Pads;
    if i <= |all| {
      ShiftedAt(4, all, 0, i);
    } else {
      PadAt(room - |all| - 1, i - |all| - 1);
    }
  }

  lemma PadAt(n: nat, k: nat)
    requires k < n
    ensures Pads(n)[k] == if k % 2 == 0 then 236 else 17
  {
  }

  lemma FitsBytes(bytes: nat, version: nat)
    requires 1 <= version <= MAX_VERSION && Fits(bytes, version)
    ensures bytes < if version < 10 then 256 else 65536
    ensures 4 + CountBits(version) + 8 * bytes <= 8 * CapacityTable(version)
  {
  }
}
