/** Bit strings, most significant bit first, and their packing into bytes. */
module BitStream {
  import opened Bits

  /** The n low bits of v. */
  function BitsOf(v: nat, n: nat): (r: seq<Bit>)
    decreases n, v
    ensures |r| == n
  {
    if n == 0 then [] else BitsOf(v / 2, n - 1) + [v % 2]
  }

  /** The number a bit string denotes. */
  function FromBits(s: seq<Bit>): nat {
    if s == [] then 0 else 2 * FromBits(s[..|s| - 1]) + s[|s| - 1]
  }

  lemma {:induction false} BitsOfAt(v: nat, n: nat, k: nat)
    requires k < n
    ensures BitsOf(v, n)[k] == BitAt(v, n - 1 - k)
  {
    if k < n - 1 {
      BitsOfAt(v / 2, n - 1, k);
    }
  }

  lemma {:induction false} FromBitsOf(v: nat, n: nat)
    requires v < Pow2(n)
    ensures FromBits(BitsOf(v, n)) == v
  {
    if n > 0 {
      FromBitsOf(v / 2, n - 1);
      assert BitsOf(v, n)[..n - 1] == BitsOf(v / 2, n - 1);
    }
  }

  lemma {:induction false} BitsOfFrom(s: seq<Bit>)
    ensures FromBits(s) < Pow2(|s|)
    ensures BitsOf(FromBits(s), |s|) == s
  {
    if s != [] {
      BitsOfFrom(s[..|s| - 1]);
      assert s == s[..|s| - 1] + [s[|s| - 1]];
    }
  }

  lemma FromEightBits(s: seq<Bit>)
    requires |s| == 8
    ensures FromBits(s) < 256
  {
    BitsOfFrom(s);
    assert Pow2(8) == 256;
  }

  /** The bytes of a bit string that fills whole bytes. */
  function Pack(s: seq<Bit>): (r: seq<Byte>)
    requires |s| % 8 == 0
    ensures |r| == |s| / 8
  {
    if s == [] then []
    else
      FromEightBits(s[|s| - 8..]);
      Pack(s[..|s| - 8]) + [FromBits(s[|s| - 8..])]
  }

  /** The bits of a sequence of bytes. */
  function Unpack(bytes: seq<Byte>): (r: seq<Bit>)
    ensures |r| == 8 * |bytes|
  {
    if bytes == [] then [] else Unpack(bytes[..|bytes| - 1]) + BitsOf(bytes[|bytes| - 1], 8)
  }

  lemma {:induction false} UnpackPack(s: seq<Bit>)
    requires |s| % 8 == 0
    ensures Unpack(Pack(s)) == s
  {
    hide BitsOf, Pow2;
    if s != [] {
      var p := Pack(s);
      UnpackPack(s[..|s| - 8]);
      BitsOfFrom(s[|s| - 8..]);
      assert p[..|p| - 1] == Pack(s[..|s| - 8]);
      assert s == s[..|s| - 8] + s[|s| - 8..];
    }
  }

  lemma {:induction false} PackUnpack(bytes: seq<Byte>)
    ensures Pack(Unpack(bytes)) == bytes
  {
    hide BitsOf, FromBits;
    if bytes != [] {
      var init, last := bytes[..|bytes| - 1], bytes[|bytes| - 1];
      PackUnpack(init);
      ByteBits(last);
      PackConcat(Unpack(init), BitsOf(last, 8));
    }
  }

  lemma {:induction false} UnpackConcat(a: seq<Byte>, b: seq<Byte>)
    ensures Unpack(a + b) == Unpack(a) + Unpack(b)
    decreases |b|
  {
    hide BitsOf;
    if b == [] {
      assert a + b == a;
    } else {
      UnpackConcat(a, b[..|b| - 1]);
      assert (a + b)[..|a + b| - 1] == a + b[..|b| - 1];
    }
  }

  lemma ByteBits(b: Byte)
    ensures FromBits(BitsOf(b, 8)) == b
  {
    assert Pow2(8) == 256;
    FromBitsOf(b, 8);
  }

  lemma PackConcat(s: seq<Bit>, eight: seq<Bit>)
    requires |s| % 8 == 0 && |eight| == 8
    ensures FromBits(eight) < 256
    ensures Pack(s + eight) == Pack(s) + [FromBits(eight)]
  {
    FromEightBits(eight);
    assert (s + eight)[..|s|] == s && (s + eight)[|s|..] == eight;
  }

  function ZeroBits(n: nat): (r: seq<Bit>) {
    seq(n, _ => 0)
  }

  lemma {:induction false} BitsOfZero(n: nat)
    ensures BitsOf(0, n) == ZeroBits(n)
  {
    if n > 0 {
      BitsOfZero(n - 1);
    }
  }
}
