/** SSZ bit sequences (src/scanner/bits.rs). Hex parsing is outside: the input is the byte sequence. */
module Bits {
  import opened Wrappers

  type Byte = b: int | 0 <= b < 256

  function Pow2(n: nat): (p: nat)
    ensures p > 0
  {
    if n == 0 then 1 else 2 * Pow2(n - 1)
  }

  function BitValue(bit: bool): nat {
    if bit then 1 else 0
  }

  /** The number whose little-endian binary digits are `bits`. */
  function Value(bits: seq<bool>): nat {
    if bits == [] then 0 else BitValue(bits[0]) + 2 * Value(bits[1..])
  }

  /** `(value >> i) & 1 == 1`. */
  predicate TestBit(value: nat, i: nat) {
    (value / Pow2(i)) % 2 == 1
  }

  /** The low `n` binary digits of a number, least significant first. */
  function Digits(value: nat, n: nat): (bits: seq<bool>)
    ensures |bits| == n
  {
    seq(n, i requires 0 <= i < n => TestBit(value, i))
  }

  lemma {:induction false} DivPow2(value: nat, i: nat)
    ensures value / Pow2(i + 1) == (value / 2) / Pow2(i)
  {
    var p := Pow2(i);
    var q, r := (value / 2) / p, (value / 2) % p;
    assert value / 2 == q * p + r;
    assert value == 2 * (value / 2) + value % 2;
    assert value == q * (2 * p) + (2 * r + value % 2);
    assert 0 <= 2 * r + value % 2 < 2 * p;
    QuotientUnique(value, 2 * p, q, 2 * r + value % 2);
  }

  lemma QuotientUnique(value: nat, d: nat, q: nat, r: nat)
    requires d > 0 && value == q * d + r && r < d
    ensures value / d == q
  {
    var q' := value / d;
    assert q' * d <= value < (q' + 1) * d by { assert value == q' * d + value % d; }
    if q < q' {
      TimesMonotone(q + 1, q', d);
    } else {
      TimesMonotone(q', q, d);
      if q' < q { TimesMonotone(q' + 1, q, d); }
    }
  }

  lemma TimesMonotone(a: nat, b: nat, d: nat)
    requires a <= b
    ensures a * d <= b * d
  {
    assert (b - a) * d == b * d - a * d;
  }

  lemma DigitsStep(value: nat, n: nat)
    requires n > 0
    ensures Digits(value, n) == [value % 2 == 1] + Digits(value / 2, n - 1)
  {
    forall i | 0 < i < n ensures TestBit(value, i) == TestBit(value / 2, i - 1) {
      DivPow2(value, i - 1);
    }
  }

  lemma {:induction false} DigitsOfValue(bits: seq<bool>)
    ensures Digits(Value(bits), |bits|) == bits
    ensures Value(bits) < Pow2(|bits|)
  {
    if bits != [] {
      DigitsOfValue(bits[1..]);
      DigitsStep(Value(bits), |bits|);
      assert bits == [bits[0]] + bits[1..];
    }
  }

  lemma {:induction false} ValueOfDigits(value: nat, n: nat)
    requires value < Pow2(n)
    ensures Value(Digits(value, n)) == value
  {
    if n > 0 {
      ValueOfDigits(value / 2, n - 1);
      DigitsStep(value, n);
      assert Digits(value, n)[1..] == Digits(value / 2, n - 1);
    }
  }

  /** Position of the highest set bit of a nonzero byte: `7 - leading_zeros`. */
  function HighBit(value: nat): (h: nat)
    requires value > 0
    ensures Pow2(h) <= value < Pow2(h + 1)
  {
    if value == 1 then 0 else 1 + HighBit(value / 2)
  }

  // ---- The two encodings, as the SSZ specification writes them ----

  /** Section Bitlist[N] of simple-serialize: little-endian bytes with a 1 just past the data. */
  function EncodeBitlist(bits: seq<bool>): (bytes: seq<Byte>)
    ensures |bytes| == |bits| / 8 + 1
  {
    if |bits| < 8 then
      LastByteBound(bits);
      [Value(bits + [true])]
    else
      ByteBound(bits[..8]);
      [Value(bits[..8])] + EncodeBitlist(bits[8..])
  }

  /** Section Bitvector[N]: whole little-endian bytes, no sentinel. */
  function EncodeBitvector(bits: seq<bool>): (bytes: seq<Byte>)
    requires |bits| % 8 == 0
    ensures |bytes| == |bits| / 8
  {
    if bits == [] then [] else
      ByteBound(bits[..8]);
      [Value(bits[..8])] + EncodeBitvector(bits[8..])
  }

  lemma ByteBound(bits: seq<bool>)
    requires |bits| == 8
    ensures Value(bits) < 256
  {
    DigitsOfValue(bits);
    assert Pow2(8) == 256 by { assert Pow2(4) == 16; }
  }

  lemma LastByteBound(bits: seq<bool>)
    requires |bits| < 8
    ensures 0 < Value(bits + [true]) < 256
    ensures HighBit(Value(bits + [true])) == |bits|
  {
    ValueSentinel(bits);
    DigitsOfValue(bits);
    Pow2Monotone(|bits| + 1, 8);
    assert Pow2(8) == 256 by { assert Pow2(4) == 16; }
    var h := HighBit(Value(bits + [true]));
    if h < |bits| {
      Pow2Monotone(h + 1, |bits|);
    } else if h > |bits| {
      Pow2Monotone(|bits| + 1, h);
    }
  }

  lemma {:induction false} ValueSentinel(bits: seq<bool>)
    ensures Value(bits + [true]) == Value(bits) + Pow2(|bits|)
  {
    if bits != [] {
      ValueSentinel(bits[1..]);
      assert (bits + [true])[1..] == bits[1..] + [true];
    }
  }

  lemma {:induction false} Pow2Monotone(a: nat, b: nat)
    requires a <= b
    ensures Pow2(a) <= Pow2(b)
    decreases b
  {
    if a < b {
      Pow2Monotone(a, b - 1);
    }
  }

  // ---- The decoders ----

  /** What `decode_bitlist` returns: refused exactly when there is no sentinel bit. */
  function BitlistOf(bytes: seq<Byte>): Option<seq<bool>> {
    if bytes == [] then None
    else if |bytes| == 1 then
      if bytes[0] == 0 then None else Some(Digits(bytes[0], HighBit(bytes[0])))
    else
      match BitlistOf(bytes[1..])
      case None => None
      case Some(rest) => Some(Digits(bytes[0], 8) + rest)
  }

  /** What `decode_bitvector` returns. */
  function BitvectorOf(bytes: seq<Byte>): (bits: seq<bool>)
    ensures |bits| == 8 * |bytes|
  {
    if bytes == [] then [] else Digits(bytes[0], 8) + BitvectorOf(bytes[1..])
  }

  lemma {:induction false} BitvectorSnoc(bytes: seq<Byte>, last: Byte)
    ensures BitvectorOf(bytes + [last]) == BitvectorOf(bytes) + Digits(last, 8)
  {
    if bytes == [] {
      assert BitvectorOf([last]) == Digits(last, 8) + BitvectorOf([]);
    } else {
      BitvectorSnoc(bytes[1..], last);
      assert (bytes + [last])[1..] == bytes[1..] + [last];
    }
  }

  lemma {:induction false} BitlistSplit(bytes: seq<Byte>)
    requires bytes != []
    ensures var last := bytes[|bytes| - 1];
            BitlistOf(bytes) == if last == 0 then None
                                else Some(BitvectorOf(bytes[..|bytes| - 1]) + Digits(last, HighBit(last)))
  {
    if |bytes| > 1 {
      BitlistSplit(bytes[1..]);
      var last := bytes[|bytes| - 1];
      assert bytes[..|bytes| - 1][1..] == bytes[1..][..|bytes| - 2];
      if last != 0 {
        var middle := BitvectorOf(bytes[1..][..|bytes| - 2]);
        assert Digits(bytes[0], 8) + (middle + Digits(last, HighBit(last)))
            == (Digits(bytes[0], 8) + middle) + Digits(last, HighBit(last));
      }
    } else if bytes[0] != 0 {
      assert BitvectorOf([]) + Digits(bytes[0], HighBit(bytes[0])) == Digits(bytes[0], HighBit(bytes[0]));
    }
  }

  method PushByte(bits: seq<bool>, byte: Byte, count: nat) returns (r: seq<bool>)
    ensures r == bits + Digits(byte, count)
  {
    r := bits;
    for i := 0 to count
      invariant r == bits + Digits(byte, i)
    {
      r := r + [(byte / Pow2(i)) % 2 == 1];
      assert Digits(byte, i + 1) == Digits(byte, i) + [TestBit(byte, i)];
    }
  }

  method DecodeBitvector(bytes: seq<Byte>) returns (bits: seq<bool>)
    ensures bits == BitvectorOf(bytes)
  {
    bits := [];
    for i := 0 to |bytes|
      invariant bits == BitvectorOf(bytes[..i])
    {
      BitvectorSnoc(bytes[..i], bytes[i]);
      assert bytes[..i + 1] == bytes[..i] + [bytes[i]];
      bits := PushByte(bits, bytes[i], 8);
    }
    assert bytes[..|bytes|] == bytes;
  }

  method DecodeBitlist(bytes: seq<Byte>) returns (r: Result<seq<bool>>)
    ensures r == match BitlistOf(bytes)
                 case None => Err(InconsistentBeaconData)
                 case Some(bits) => Ok(bits)
  {
    if |bytes| == 0 {
      return Err(InconsistentBeaconData);
    }
    BitlistSplit(bytes);
    var last := bytes[|bytes| - 1];
    if last == 0 {
      return Err(InconsistentBeaconData);
    }
    var sentinel := HighBit(last);
    var bits := DecodeBitvector(bytes[..|bytes| - 1]);
    bits := PushByte(bits, last, sentinel);
    return Ok(bits);
  }

  // ---- Round trips ----

  /** Decoding an encoded bit sequence gives it back, whatever its length. */
  lemma {:induction false} BitlistRoundTrip(bits: seq<bool>)
    ensures BitlistOf(EncodeBitlist(bits)) == Some(bits)
  {
    if |bits| < 8 {
      LastByteBound(bits);
      DigitsOfValue(bits + [true]);
      var v := Value(bits + [true]);
      assert Digits(v, |bits|) == Digits(v, |bits| + 1)[..|bits|] == bits;
    } else {
      BitlistRoundTrip(bits[8..]);
      ByteBound(bits[..8]);
      DigitsOfValue(bits[..8]);
      var bytes := EncodeBitlist(bits);
      assert bytes[1..] == EncodeBitlist(bits[8..]);
      assert bits == bits[..8] + bits[8..];
    }
  }

  /** The only byte sequence that decodes to `bits` is its encoding; refusal means no encoding ends so. */
  lemma {:induction false} BitlistCanonical(bytes: seq<Byte>)
    ensures BitlistOf(bytes).None? <==> bytes == [] || bytes[|bytes| - 1] == 0
    ensures BitlistOf(bytes).Some? ==> EncodeBitlist(BitlistOf(bytes).value) == bytes
  {
    if |bytes| == 1 && bytes[0] != 0 {
      LastByteCanonical(bytes[0]);
    } else if |bytes| > 1 {
      BitlistCanonical(bytes[1..]);
      if BitlistOf(bytes[1..]).Some? {
        var rest := BitlistOf(bytes[1..]).value;
        var bits := Digits(bytes[0], 8) + rest;
        assert bits[..8] == Digits(bytes[0], 8) && bits[8..] == rest;
        assert Pow2(8) == 256 by { assert Pow2(4) == 16; }
        ValueOfDigits(bytes[0], 8);
        assert bytes == [bytes[0]] + bytes[1..];
      }
    }
  }

  lemma LastByteCanonical(b: Byte)
    requires b != 0
    ensures HighBit(b) < 8
    ensures EncodeBitlist(Digits(b, HighBit(b))) == [b]
  {
    var h := HighBit(b);
    assert Pow2(8) == 256 by { assert Pow2(4) == 16; }
    if h >= 8 {
      Pow2Monotone(8, h);
    }
    QuotientUnique(b, Pow2(h), 1, b - Pow2(h));
    assert TestBit(b, h);
    assert Digits(b, h + 1) == Digits(b, h) + [true];
    ValueOfDigits(b, h + 1);
  }

  lemma {:induction false} BitvectorRoundTrip(bits: seq<bool>)
    requires |bits| % 8 == 0
    ensures BitvectorOf(EncodeBitvector(bits)) == bits
  {
    if bits != [] {
      BitvectorRoundTrip(bits[8..]);
      ByteBound(bits[..8]);
      DigitsOfValue(bits[..8]);
      assert EncodeBitvector(bits)[1..] == EncodeBitvector(bits[8..]);
      assert bits == bits[..8] + bits[8..];
    }
  }

  lemma {:induction false} BitvectorCanonical(bytes: seq<Byte>)
    ensures EncodeBitvector(BitvectorOf(bytes)) == bytes
  {
    if bytes != [] {
      BitvectorCanonical(bytes[1..]);
      var bits := BitvectorOf(bytes);
      assert bits[..8] == Digits(bytes[0], 8) && bits[8..] == BitvectorOf(bytes[1..]);
      assert Pow2(8) == 256 by { assert Pow2(4) == 16; }
      ValueOfDigits(bytes[0], 8);
      assert bytes == [bytes[0]] + bytes[1..];
    }
  }
}
