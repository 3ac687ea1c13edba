/** Variable-length integers of section 16 of RFC 9000, as used for RTP over QUIC and QUIC multiplexing. */
module QuicVarint {
  import opened Prelude

  type Byte = x: int | 0 <= x < 256

  const MAX_VALUE := 0x4000_0000_0000_0000  // 2^62

  function Pow256(n: nat): (p: nat)
    ensures p > 0
  {
    if n == 0 then 1 else 256 * Pow256(n - 1)
  }

  function BigEndian(s: seq<Byte>): nat {
    if s == [] then 0 else BigEndian(s[..|s| - 1]) * 256 + s[|s| - 1]
  }

  /** The `n` low-order bytes of `x`, most significant first. */
  function ToBytes(x: nat, n: nat): (s: seq<Byte>)
    ensures |s| == n
  {
    if n == 0 then [] else ToBytes(x / 256, n - 1) + [x % 256]
  }

  lemma {:induction false} BytesRoundTrip(x: nat, n: nat)
    requires x < Pow256(n)
    ensures BigEndian(ToBytes(x, n)) == x
  {
    if n > 0 {
      BytesRoundTrip(x / 256, n - 1);
      assert ToBytes(x, n)[..n - 1] == ToBytes(x / 256, n - 1);
    }
  }

  lemma {:induction false} BytesUnique(s: seq<Byte>)
    ensures BigEndian(s) < Pow256(|s|) && ToBytes(BigEndian(s), |s|) == s
  {
    if s != [] { BytesUnique(s[..|s| - 1]); }
  }

  /** The first byte carries weight `Pow256(n - 1)`. */
  lemma {:induction false} FirstByte(b: Byte, rest: seq<Byte>)
    ensures BigEndian([b] + rest) == b * Pow256(|rest|) + BigEndian(rest)
  {
    if rest == [] {
      assert [b] + rest == [b] && [b][..0] == [];
    } else {
      var n := |rest| - 1;
      FirstByte(b, rest[..n]);
      assert ([b] + rest)[..n + 1] == [b] + rest[..n];
      Shift(b, Pow256(n), BigEndian(rest[..n]), rest[n]);
    }
  }

  lemma Shift(b: int, p: int, x: int, y: int)
    ensures (b * p + x) * 256 + y == b * (256 * p) + (x * 256 + y)
  {
  }

  /** The length announced by the two most significant bits of the first byte. */
  function LengthOf(first: Byte): nat {
    match first / 64 case 0 => 1 case 1 => 2 case 2 => 4 case _ => 8
  }

  /** The decoder of appendix A.1 of RFC 9000: drop the length bits, read the rest in network order. */
  function Decode(data: seq<Byte>): Option<(nat, nat)> {
    if data == [] || |data| < LengthOf(data[0]) then None
    else
      var n := LengthOf(data[0]);
      Some((BigEndian([data[0] % 64] + data[1..n]), n))
  }

  /** The number of bytes of the shortest encoding. */
  function VarintSize(val: nat): nat
    requires val < MAX_VALUE
  {
    if val < 0x40 then 1 else if val < 0x4000 then 2 else if val < 0x4000_0000 then 4 else 8
  }

  /** The length bits, in front of the value. */
  function Tagged(val: nat): nat
    requires val < MAX_VALUE
  {
    match VarintSize(val)
    case 1 => val
    case 2 => 0x4000 + val
    case 4 => 0x8000_0000 + val
    case _ => 0xC000_0000_0000_0000 + val
  }

  function Encode(val: nat): (s: seq<Byte>)
    requires val < MAX_VALUE
    ensures |s| == VarintSize(val)
  {
    ToBytes(Tagged(val), VarintSize(val))
  }

  // ---- The implementation ----

  class ByteBuffer {
    var data: seq<Byte>

    method PutUint(x: nat, n: nat)
      modifies this
      ensures data == old(data) + ToBytes(x, n)
    {
      data := data + ToBytes(x, n);
    }

    /** Adds the length bits, which by `TwoBytes`, `FourBytes` and `EightBytes` is what the bit operations do. */
    method SetVarint(val: nat)
      requires val < MAX_VALUE
      modifies this
      ensures data == old(data) + Encode(val)
    {
      if val < 0x40 {
        PutUint(val, 1);
      } else if val < 0x4000 {
        PutUint(0x4000 + val, 2);
      } else if val < 0x4000_0000 {
        PutUint(0x8000_0000 + val, 4);
      } else {
        PutUint(0xC000_0000_0000_0000 + val, 8);
      }
    }
  }

  // ---- The bit operations as arithmetic ----

  /** The length bits lie above all bits of the value, so combining them is adding them. */
  lemma TwoBytes(val: bv64)
    requires val < 0x4000
    ensures ((1 << 14) | val as bv16) as nat == 0x4000 + val as nat
  {
  }

  lemma FourBytes(val: bv64)
    requires val < 0x4000_0000
    ensures ((2 << 30) | val as bv32) as nat == 0x8000_0000 + val as nat
  {
  }

  lemma EightBytes(val: bv64)
    requires val < 0x4000_0000_0000_0000
    ensures ((3 << 62) | val) as nat == 0xC000_0000_0000_0000 + val as nat
  {
  }

  /** Shifting out and masking off the length bits of a byte, as numbers. */
  lemma LengthBits(b: bv8)
    ensures (b >> 6) as nat == b as nat / 64
    ensures (b & 0x3F) as nat == b as nat % 64
  {
  }

  // ---- Decoding ----

  /** Copies `n` bytes, clears the length bits and reads a big-endian integer. */
  method ReadMasked(data: seq<Byte>, n: nat) returns (val: nat)
    requires 0 < n <= |data|
    ensures val == BigEndian([data[0] % 64] + data[1..n])
  {
    var buf := new Byte[n](i requires 0 <= i < n => data[i]);
    buf[0] := buf[0] % 64;
    assert buf[..] == [data[0] % 64] + data[1..n];
    val := BigEndian(buf[..]);
  }

  method GetVarint(data: seq<Byte>) returns (r: Option<(nat, nat)>)
    ensures r == Decode(data)
  {
    if |data| == 0 {
      return None;
    }
    var tag := data[0] / 64;
    var val;
    if tag == 0 {
      val := ReadMasked(data, 1);
      return Some((val, 1));
    } else if tag == 1 {
      if |data| < 2 { return None; }
      val := ReadMasked(data, 2);
      return Some((val, 2));
    } else if tag == 2 {
      if |data| < 4 { return None; }
      val := ReadMasked(data, 4);
      return Some((val, 4));
    } else {
      if |data| < 8 { return None; }
      val := ReadMasked(data, 8);
      return Some((val, 8));
    }
  }

  // ---- Properties ----

  lemma Powers()
    ensures Pow256(0) == 1 && Pow256(1) == 0x100 && Pow256(2) == 0x1_0000
    ensures Pow256(3) == 0x100_0000 && Pow256(4) == 0x1_0000_0000
    ensures Pow256(7) == 0x100_0000_0000_0000 && Pow256(8) == 0x1_0000_0000_0000_0000
  {
    assert Pow256(3) == 256 * Pow256(2);
    assert Pow256(4) == 256 * Pow256(3);
    assert Pow256(5) == 256 * Pow256(4);
    assert Pow256(6) == 256 * Pow256(5);
    assert Pow256(7) == 256 * Pow256(6);
  }

  /** The first byte of `s`, and the value of `s` without its two length bits. */
  lemma FirstByteOf(s: seq<Byte>, p: nat)
    requires s != [] && p == Pow256(|s| - 1)
    ensures s[0] * p <= BigEndian(s) < s[0] * p + p
    ensures BigEndian([s[0] % 64] + s[1..]) == BigEndian(s) - s[0] * p + (s[0] % 64) * p
  {
    assert s == [s[0]] + s[1..];
    FirstByte(s[0], s[1..]);
    FirstByte(s[0] % 64, s[1..]);
    BytesUnique(s[1..]);
  }

  /** The length bits of an encoding, and what is left without them. */
  lemma EncodeBits(val: nat)
    requires val < MAX_VALUE
    ensures LengthOf(Encode(val)[0]) == VarintSize(val)
    ensures BigEndian([Encode(val)[0] % 64] + Encode(val)[1..]) == val
  {
    Powers();
    var n, s := VarintSize(val), Encode(val);
    BytesRoundTrip(Tagged(val), n);
    match n {
      case 1 => FirstByteOf(s, 1);
      case 2 => FirstByteOf(s, 0x100);
      case 4 => FirstByteOf(s, 0x100_0000);
      case _ => FirstByteOf(s, 0x100_0000_0000_0000);
    }
  }

  /** Encoding then decoding gives the value and its size, whatever follows. */
  lemma RoundTrip(val: nat, rest: seq<Byte>)
    requires val < MAX_VALUE
    ensures Decode(Encode(val) + rest) == Some((val, VarintSize(val)))
  {
    EncodeBits(val);
    var n, s := VarintSize(val), Encode(val);
    assert (s + rest)[0] == s[0] && (s + rest)[1..n] == s[1..];
  }

  /** A strict prefix of an encoding is not accepted. */
  lemma PrefixRejected(val: nat, k: nat)
    requires val < MAX_VALUE && k < VarintSize(val)
    ensures Decode(Encode(val)[..k]) == None
  {
    RoundTrip(val, []);
    assert Encode(val) + [] == Encode(val);
    if k > 0 { assert Encode(val)[..k][0] == Encode(val)[0]; }
  }

  /** Every accepted encoding is at least as long as the canonical one, and equal to it if of the same length. */
  lemma EncodeIsShortest(data: seq<Byte>)
    requires Decode(data).Some?
    ensures var (val, n) := Decode(data).value;
            && val < MAX_VALUE && VarintSize(val) <= n <= |data|
            && (n == VarintSize(val) ==> data[..n] == Encode(val))
  {
    Powers();
    var (val, n) := Decode(data).value;
    var s := data[..n];
    assert s[0] == data[0] && s[1..] == data[1..n];
    BytesUnique(s);
    match n {
      case 1 => FirstByteOf(s, 1);
      case 2 => FirstByteOf(s, 0x100);
      case 4 => FirstByteOf(s, 0x100_0000);
      case _ => FirstByteOf(s, 0x100_0000_0000_0000);
    }
    if n == VarintSize(val) { assert Tagged(val) == BigEndian(s); }
  }

  function Power2(n: nat): nat {
    if n == 0 then 1 else 2 * Power2(n - 1)
  }

  /** The two most significant bits are the base-two logarithm of the length. */
  lemma LengthIsPowerOfTwo(first: Byte)
    ensures LengthOf(first) == Power2(first / 64)
  {
    assert Power2(1) == 2 && Power2(2) == 4 && Power2(3) == 8;
  }

  lemma BigEndianSnoc(s: seq<Byte>, b: Byte)
    ensures BigEndian(s + [b]) == BigEndian(s) * 256 + b
  {
    assert (s + [b])[..|s|] == s;
  }

  lemma FourBytesValue(a: Byte, b: Byte, c: Byte, d: Byte)
    ensures BigEndian([a, b, c, d]) == ((a * 256 + b) * 256 + c) * 256 + d
  {
    TwoBytesValue(a, b);
    BigEndianSnoc([a, b], c);
    assert [a, b] + [c] == [a, b, c];
    BigEndianSnoc([a, b, c], d);
    assert [a, b, c] + [d] == [a, b, c, d];
  }

  lemma TwoBytesValue(a: Byte, b: Byte)
    ensures BigEndian([a]) == a && BigEndian([a, b]) == a * 256 + b
  {
    BigEndianSnoc([], a);
    assert [] + [a] == [a];
    BigEndianSnoc([a], b);
    assert [a] + [b] == [a, b];
  }

  /** Decoding exactly the bytes that the first one announces. */
  lemma DecodeWhole(data: seq<Byte>, masked: seq<Byte>)
    requires data != [] && |data| == LengthOf(data[0]) && masked == [data[0] % 64] + data[1..]
    ensures Decode(data) == Some((BigEndian(masked), |data|))
  {
    assert data[1..|data|] == data[1..];
  }

  /** Examples of appendix A.1 of RFC 9000; the last one is not in its shortest form. */
  lemma SampleEncodings()
    ensures Decode([0x9D, 0x7F, 0x3E, 0x7D]) == Some((494_878_333, 4))
    ensures Decode([0x7B, 0xBD]) == Some((15_293, 2))
    ensures Decode([0x25]) == Some((37, 1))
    ensures Decode([0x40, 0x25]) == Some((37, 2))
  {
    FourBytesValue(0x1D, 0x7F, 0x3E, 0x7D);
    DecodeWhole([0x9D, 0x7F, 0x3E, 0x7D], [0x1D, 0x7F, 0x3E, 0x7D]);
    TwoBytesValue(0x3B, 0xBD);
    DecodeWhole([0x7B, 0xBD], [0x3B, 0xBD]);
    TwoBytesValue(0x25, 0);
    DecodeWhole([0x25], [0x25]);
    TwoBytesValue(0x00, 0x25);
    DecodeWhole([0x40, 0x25], [0x00, 0x25]);
  }

  // ---- Streams of integers ----

  function EncodeAll(vals: seq<nat>): seq<Byte>
    requires forall i :: 0 <= i < |vals| ==> vals[i] < MAX_VALUE
  {
    if vals == [] then [] else Encode(vals[0]) + EncodeAll(vals[1..])
  }

  function DecodeAll(data: seq<Byte>): Option<seq<nat>>
    decreases |data|
  {
    if data == [] then Some([])
    else
      match Decode(data)
      case None => None
      case Some((val, n)) =>
        assert n > 0;
        match DecodeAll(data[n..])
        case None => None
        case Some(vals) => Some([val] + vals)
  }

  lemma DecodeFirst(val: nat, rest: seq<Byte>)
    requires val < MAX_VALUE && DecodeAll(rest).Some?
    ensures DecodeAll(Encode(val) + rest) == Some([val] + DecodeAll(rest).value)
  {
    RoundTrip(val, rest);
    var data := Encode(val) + rest;
    assert |Encode(val)| > 0;
    assert data[VarintSize(val)..] == rest;
  }

  /** Any concatenation of encodings decodes to the same list. */
  lemma {:induction false} StreamRoundTrip(vals: seq<nat>)
    requires forall i :: 0 <= i < |vals| ==> vals[i] < MAX_VALUE
    ensures DecodeAll(EncodeAll(vals)) == Some(vals)
  {
    if vals != [] {
      StreamRoundTrip(vals[1..]);
      DecodeFirst(vals[0], EncodeAll(vals[1..]));
      assert vals == [vals[0]] + vals[1..];
    }
  }
}
