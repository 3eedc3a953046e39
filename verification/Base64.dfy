/**
 * The decoder of token payloads against the base64url encoding of section 5 of RFC 4648.
 * Decoded characters are bytes.
 */
module Base64 {
  import opened Bits
  import opened BitStream

  const BASE64_CHARS := "ABCDEFGHIJKLMNOP" + "QRSTUVWXYZabcdef" + "ghijklmnopqrstuv" + "wxyz0123456789+/"

  /** [A-Za-z0-9+/] */
  predicate InAlphabet(c: char) {
    'A' <= c <= 'Z' || 'a' <= c <= 'z' || '0' <= c <= '9' || c == '+' || c == '/'
  }

  predicate AllIn(s: string) {
    forall c | c in s :: InAlphabet(c)
  }

  /** BASE64_CHARS.indexOf(c) */
  function IndexOf(c: char): (v: nat)
    requires InAlphabet(c)
    ensures v < 64
  {
    if 'A' <= c <= 'Z' then (c - 'A') as nat
    else if 'a' <= c <= 'z' then (c - 'a') as nat + 26
    else if '0' <= c <= '9' then (c - '0') as nat + 52
    else if c == '+' then 62
    else 63
  }

  function CharOf(v: nat): (c: char)
    requires v < 64
    ensures InAlphabet(c) && IndexOf(c) == v
  {
    if v < 26 then 'A' + v as char
    else if v < 52 then 'a' + (v - 26) as char
    else if v < 62 then '0' + (v - 52) as char
    else if v == 62 then '+'
    else '/'
  }

  function FirstChars(n: nat): (s: string)
    requires n <= 64
    ensures |s| == n && forall v | 0 <= v < n :: s[v] == CharOf(v)
  {
    if n == 0 then "" else FirstChars(n - 1) + [CharOf(n - 1)]
  }

  lemma LowerHalf(s: string)
    requires |s| == 64 && forall v | 0 <= v < 64 :: s[v] == CharOf(v)
    ensures s[..16] == "ABCDEFGHIJKLMNOP" && s[16..32] == "QRSTUVWXYZabcdef"
  {
  }

  lemma UpperHalf(s: string)
    requires |s| == 64 && forall v | 0 <= v < 64 :: s[v] == CharOf(v)
    ensures s[32..48] == "ghijklmnopqrstuv" && s[48..] == "wxyz0123456789+/"
  {
  }

  lemma Quarters(s: string)
    requires |s| == 64
    ensures s == s[..16] + s[16..32] + s[32..48] + s[48..]
  {
  }

  /** `IndexOf` is the index in the alphabet. */
  lemma AlphabetIs(v: nat)
    requires v < 64
    ensures |BASE64_CHARS| == 64 && IndexOf(BASE64_CHARS[v]) == v
  {
    hide CharOf;
    var s := FirstChars(64);
    LowerHalf(s);
    UpperHalf(s);
    Quarters(s);
    assert s == BASE64_CHARS;
  }

  // --- decoding --------------------------------------------------------------------------------

  /** input.replace(/[^A-Za-z0-9+/]/g, "") */
  function Clean(input: string): (r: string)
    ensures AllIn(r)
  {
    if input == "" then ""
    else (if InAlphabet(input[0]) then [input[0]] else []) + Clean(input[1..])
  }

  /** The six bits of each character. */
  function CharBits(s: string): (r: seq<Bit>)
    requires AllIn(s)
    ensures |r| == 6 * |s|
  {
    if s == "" then [] else CharBits(s[..|s| - 1]) + BitsOf(IndexOf(s[|s| - 1]), 6)
  }

  /** The whole bytes at the front of a bit string. */
  function WholeBytes(bits: seq<Bit>): seq<Byte> {
    Pack(bits[..|bits| / 8 * 8])
  }

  /** Four characters at a time. */
  function DecodeChunks(clean: string): seq<Byte>
    requires AllIn(clean)
  {
    if clean == "" then []
    else
      var n := if |clean| < 4 then |clean| else 4;
      WholeBytes(CharBits(clean[..n])) + DecodeChunks(clean[n..])
  }

  method Base64Decode(input: string) returns (output: seq<Byte>)
    ensures output == DecodeChunks(Clean(input))
  {
    hide WholeBytes, InAlphabet, CharBits, Clean, Pack;
    var clean := Clean(input);
    output := [];
    var i := 0;
    while i < |clean|
      invariant i <= |clean|
      invariant output + DecodeChunks(clean[i..]) == DecodeChunks(clean)
    {
      var n := if |clean| - i < 4 then |clean| - i else 4;
      ghost var before := output;
      NextChunk(clean[i..], n);
      assert clean[i..][..n] == clean[i..i + n] && clean[i..][n..] == clean[i + n..];
      var bytes := DecodeChunk(clean[i..i + n]);
      output := output + bytes;
      i := i + n;
      assert before + (bytes + DecodeChunks(clean[i..])) == output + DecodeChunks(clean[i..]);
    }
    assert clean[i..] == "";
  }

  lemma NextChunk(clean: string, n: nat)
    requires AllIn(clean) && clean != "" && n == if |clean| < 4 then |clean| else 4
    ensures DecodeChunks(clean) == WholeBytes(CharBits(clean[..n])) + DecodeChunks(clean[n..])
  {
  }

  lemma WholePart(n: nat, j: nat)
    requires j % 8 == 0 && j <= n < j + 8
    ensures j == n / 8 * 8
  {
  }

  lemma NothingPacked(bits: seq<Bit>)
    ensures Pack(bits[..0]) == []
    ensures bits == [] ==> Pack(bits) == []
  {
  }

  lemma NextByte(bits: seq<Bit>, j: nat)
    requires j % 8 == 0 && j + 8 <= |bits|
    ensures (j + 8) % 8 == 0
    ensures FromBits(bits[j..j + 8]) < 256 && Pack(bits[..j + 8]) == Pack(bits[..j]) + [FromBits(bits[j..j + 8])]
  {
    hide FromBits;
    FromEightBits(bits[j..j + 8]);
    var front := bits[..j + 8];
    assert front[..j] == bits[..j] && front[j..] == bits[j..j + 8];
  }

  method DecodeChunk(chunk: string) returns (output: seq<Byte>)
    requires AllIn(chunk)
    ensures output == WholeBytes(CharBits(chunk))
  {
    hide CharBits, InAlphabet, FromBits, BitsOf, Pack;
    var bits := CharBits(chunk);
    output := [];
    NothingPacked(bits);
    var j := 0;
    while j + 8 <= |bits|
      invariant j <= |bits| && j % 8 == 0
      invariant output == Pack(bits[..j])
    {
      NextByte(bits, j);
      output := output + [FromBits(bits[j..j + 8])];
      j := j + 8;
    }
    WholePart(|bits|, j);
  }

  function Replaced(c: char): char {
    if c == '-' then '+' else if c == '_' then '/' else c
  }

  /** replace(/-/g, "+").replace(/_/g, "/") */
  function Normalized(part: string): string {
    if part == "" then ""
    else [Replaced(part[0])] + Normalized(part[1..])
  }

  // --- the standard ----------------------------------------------------------------------------

  /** The base64url alphabet: 62 is `-` and 63 is `_`. */
  function UrlChar(v: nat): char
    requires v < 64
  {
    if v == 62 then '-' else if v == 63 then '_' else CharOf(v)
  }

  function SixBits(bits: seq<Bit>): nat
    requires |bits| == 6
    ensures SixBits(bits) < 64
  {
    BitsOfFrom(bits);
    assert Pow2(6) == 64;
    FromBits(bits)
  }

  /** Six bits a character, the last ones filled up with zeros. */
  function EncodeBits(bits: seq<Bit>): string {
    if bits == [] then ""
    else if |bits| < 6 then [UrlChar(SixBits(bits + ZeroBits(6 - |bits|)))]
    else [UrlChar(SixBits(bits[..6]))] + EncodeBits(bits[6..])
  }

  /** Padding to a multiple of four characters, which section 3.2 lets an encoder leave out. */
  function Padding(n: nat): string {
    if n % 4 == 0 then "" else if n % 4 == 3 then "=" else if n % 4 == 2 then "==" else "==="
  }

  function Encode(bytes: seq<Byte>, padded: bool): string {
    var chars := EncodeBits(Unpack(bytes));
    chars + if padded then Padding(|chars|) else ""
  }

  /** The characters at both ends of each range of the standard's alphabet. */
  lemma UrlCharsAre(k: nat)
    requires k < 8
    ensures UrlChar([0, 25, 26, 51, 52, 61, 62, 63][k]) == "AZaz09-_"[k]
  {
  }

  /** Padding fills up to a multiple of four. */
  lemma PaddingFills(n: nat)
    ensures (n + |Padding(n)|) % 4 == 0 && |Padding(n)| < 4 && forall c | c in Padding(n) :: c == '='
  {
    var k, r := n / 4, n % 4;
    assert n == 4 * k + r && |Padding(n)| == if r == 0 then 0 else 4 - r;
    hide Padding;
    FourfoldSum(k, r, |Padding(n)|);
  }

  lemma FourfoldSum(k: nat, r: nat, m: nat)
    requires r + m == 0 || r + m == 4
    ensures (4 * k + r + m) % 4 == 0
  {
    assert 4 * k + r + m == 4 * (if r + m == 0 then k else k + 1);
  }

  // --- the round trip --------------------------------------------------------------------------

  lemma {:induction false} CleanJoins(a: string, b: string)
    ensures Clean(a + b) == Clean(a) + Clean(b)
  {
    hide InAlphabet, AllIn, Clean;
    var all := a + b;
    CleanStep(a);
    CleanStep(all);
    if a == "" {
      assert all == b;
    } else {
      CleanJoins(a[1..], b);
      assert all[0] == a[0] && all[1..] == a[1..] + b;
      Associates(if InAlphabet(a[0]) then [a[0]] else [], Clean(a[1..]), Clean(b));
    }
  }

  lemma Associates<T>(a: seq<T>, b: seq<T>, c: seq<T>)
    ensures a + (b + c) == a + b + c
  {
  }

  lemma CleanStep(a: string)
    ensures Clean(a) == if a == "" then "" else (if InAlphabet(a[0]) then [a[0]] else []) + Clean(a[1..])
  {
    hide InAlphabet, AllIn;
  }

  lemma ReplacedStep(a: string)
    ensures Normalized(a) == if a == "" then "" else [Replaced(a[0])] + Normalized(a[1..])
  {
  }

  lemma {:induction false} ReplacedJoins(a: string, b: string)
    ensures Normalized(a + b) == Normalized(a) + Normalized(b)
  {
    hide Normalized, Replaced;
    var all := a + b;
    ReplacedStep(a);
    ReplacedStep(all);
    if a == "" {
      assert all == b;
    } else {
      ReplacedJoins(a[1..], b);
      assert all[0] == a[0] && all[1..] == a[1..] + b;
      Associates([Replaced(a[0])], Normalized(a[1..]), Normalized(b));
    }
  }

  lemma NormalizedJoins(a: string, b: string)
    ensures Clean(Normalized(a + b)) == Clean(Normalized(a)) + Clean(Normalized(b))
  {
    hide Clean, Normalized;
    ReplacedJoins(a, b);
    CleanJoins(Normalized(a), Normalized(b));
  }

  lemma PaddingIsDropped(n: nat)
    ensures Clean(Normalized(Padding(n))) == ""
  {
    hide Clean, Normalized, InAlphabet;
    NothingLeft();
    OnlyPadding("");
    OnlyPadding("=");
    OnlyPadding("==");
    assert "===" == ['='] + "==" && "==" == ['='] + "=" && "=" == ['='] + "";
  }

  lemma NothingLeft()
    ensures Clean(Normalized("")) == ""
  {
  }

  lemma OnlyPadding(s: string)
    ensures Clean(Normalized(['='] + s)) == Clean(Normalized(s))
  {
    assert (['='] + s)[1..] == s;
    assert Normalized(['='] + s) == ['='] + Normalized(s);
    assert (['='] + Normalized(s))[1..] == Normalized(s);
  }

  lemma {:induction false} BitsConcat(a: string, b: string)
    requires AllIn(a) && AllIn(b)
    ensures CharBits(a + b) == CharBits(a) + CharBits(b)
  {
    hide BitsOf, IndexOf;
    if b == "" {
      assert a + b == a;
    } else {
      var front := b[..|b| - 1];
      assert (a + b)[..|a + b| - 1] == a + front;
      BitsConcat(a, front);
    }
  }

  lemma SumOfEights(m: nat, n: nat)
    requires m % 8 == 0 && n % 8 == 0
    ensures (m + n) % 8 == 0
  {
  }

  lemma {:induction false} PackJoins(a: seq<Bit>, b: seq<Bit>)
    requires |a| % 8 == 0 && |b| % 8 == 0
    ensures |a + b| % 8 == 0 && Pack(a + b) == Pack(a) + Pack(b)
    decreases |b|
  {
    hide Pack, FromBits;
    SumOfEights(|a|, |b|);
    if b == [] {
      assert a + b == a;
      NothingPacked(b);
    } else {
      var front, last := b[..|b| - 8], b[|b| - 8..];
      SumOfEights(|a|, |front|);
      PackJoins(a, front);
      PackConcat(a + front, last);
      PackConcat(front, last);
      assert b == front + last;
      assert a + b == (a + front) + last;
      Associates(Pack(a), Pack(front), [FromBits(last)]);
    }
  }

  /** Decoding by fours is decoding the whole bit string. */
  lemma {:induction false} ChunksAreWhole(clean: string)
    requires AllIn(clean)
    ensures DecodeChunks(clean) == WholeBytes(CharBits(clean))
  {
    if |clean| <= 4 {
      assert clean[..|clean|] == clean && clean[|clean|..] == "";
    } else {
      var head, tail := clean[..4], clean[4..];
      assert clean == head + tail;
      BitsConcat(head, tail);
      ChunksAreWhole(tail);
      FirstBytes(CharBits(head), CharBits(tail));
    }
  }

  lemma FirstBytes(a: seq<Bit>, b: seq<Bit>)
    requires |a| == 24
    ensures WholeBytes(a + b) == WholeBytes(a) + WholeBytes(b)
  {
    var m := |b| / 8 * 8;
    assert |a + b| / 8 * 8 == 24 + m;
    assert (a + b)[..24 + m] == a + b[..m] && a[..24] == a;
    PackJoins(a, b[..m]);
  }

  /** Reading the characters back gives the bits, and fewer than six zeros. */
  lemma {:induction false} EncodeIsRead(bits: seq<Bit>)
    ensures var read := CharBits(Clean(Normalized(EncodeBits(bits))));
            |bits| <= |read| < |bits| + 6 && read[..|bits|] == bits
    decreases |bits|
  {
    hide CharBits, UrlChar;
    if bits != [] {
      var six := if |bits| < 6 then bits + ZeroBits(6 - |bits|) else bits[..6];
      var rest := if |bits| < 6 then [] else bits[6..];
      EncodeIsRead(rest);
      var c := UrlChar(SixBits(six));
      assert EncodeBits(bits) == [c] + EncodeBits(rest);
      OneChar(six, EncodeBits(rest));
      if |bits| < 6 {
        assert (six + CharBits(Clean(Normalized(EncodeBits(rest)))))[..|bits|] == bits;
      } else {
        assert bits == six + rest;
      }
    }
  }

  lemma OneChar(six: seq<Bit>, rest: string)
    requires |six| == 6
    ensures CharBits(Clean(Normalized([UrlChar(SixBits(six))] + rest))) == six + CharBits(Clean(Normalized(rest)))
  {
    var v := SixBits(six);
    BitsOfFrom(six);
    NormalizedJoins([UrlChar(v)], rest);
    var one: string := [CharOf(v)];
    assert Clean(Normalized([UrlChar(v)])) == one by {
      assert Normalized([UrlChar(v)]) == one + Normalized("");
    }
    BitsConcat(one, Clean(Normalized(rest)));
    assert one[..0] == "";
    assert CharBits(one) == BitsOf(v, 6);
  }

  /** Decoding inverts encoding for all bytes, with padding and without. */
  lemma DecodesEncoded(bytes: seq<Byte>, padded: bool)
    ensures DecodeChunks(Clean(Normalized(Encode(bytes, padded)))) == bytes
  {
    hide Encode, EncodeBits, CharBits, DecodeChunks, Clean, Normalized, Unpack, Pack;
    var bits := Unpack(bytes);
    CleanOfEncoded(bytes, padded);
    EncodeIsRead(bits);
    ChunksAreWhole(Clean(Normalized(EncodeBits(bits))));
    PackUnpack(bytes);
  }

  lemma CleanOfEncoded(bytes: seq<Byte>, padded: bool)
    ensures Clean(Normalized(Encode(bytes, padded))) == Clean(Normalized(EncodeBits(Unpack(bytes))))
  {
    hide EncodeBits, Padding;
    var chars := EncodeBits(Unpack(bytes));
    PaddingIsDropped(|chars|);
    NormalizedJoins(chars, if padded then Padding(|chars|) else "");
  }
}
