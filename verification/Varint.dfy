/** The base-128 varint with which trace messages are length-prefixed. */
module Varint {
  import opened Bits

  type Byte = b: int | 0 <= b < 256

  const MASK32: nat := 0x1_0000_0000
  const MAX_INT64: nat := 0x7FFF_FFFF_FFFF_FFFF

  /* ---- values of byte sequences ---- */

  /** The number whose 7-bit groups, least significant first, are the low bits of `s`. */
  function Payload(s: seq<Byte>): (r: nat)
  {
    if s == [] then 0 else s[0] % 128 + 128 * Payload(s[1..])
  }

  /** The position of the first byte without a continuation bit, or the end. */
  function Terminator(s: seq<Byte>): (j: nat)
    ensures j <= |s| && (j < |s| ==> s[j] < 128)
    ensures forall i :: 0 <= i < j ==> s[i] >= 128
  {
    if s == [] || s[0] < 128 then 0 else 1 + Terminator(s[1..])
  }

  /** The reduction to 32 bits, with the sign that a value above 63 bits is given. */
  function Masked(raw: nat): (r: int)
  {
    if raw > MAX_INT64 then raw % MASK32 - MASK32 else raw % MASK32
  }

  datatype Decoded = EndOfFile | TooLong | Value(value: int, length: nat)

  /** What the decoder makes of the bytes that follow. */
  function Decode(s: seq<Byte>): (r: Decoded)
  {
    var j := Terminator(s);
    if j < |s| && j < 10 then Value(Masked(Payload(s[..j + 1])), j + 1)
    else if |s| < 10 then EndOfFile
    else TooLong
  }

  function Encode(v: nat): (r: seq<Byte>)
    ensures |r| >= 1
  {
    if v < 128 then [v] else [128 + v % 128] + Encode(v / 128)
  }

  /* ---- the decoder's accumulation ---- */

  lemma {:induction false} PayloadBound(s: seq<Byte>)
    ensures Payload(s) < Pow2(7 * |s|)
  {
    if s == [] {
    } else {
      PayloadBound(s[1..]);
      PowAdd(7, 7 * (|s| - 1));
      assert Pow2(7) == 128;
    }
  }

  lemma {:induction false} PayloadSnoc(s: seq<Byte>, b: Byte)
    ensures Payload(s + [b]) == Payload(s) + b % 128 * Pow2(7 * |s|)
  {
    if s == [] {
      assert [] + [b] == [b];
      assert [b][1..] == [];
    } else {
      PayloadSnoc(s[1..], b);
      assert (s + [b])[1..] == s[1..] + [b];
      PowAdd(7, 7 * (|s| - 1));
      assert Pow2(7) == 128;
      var p := Pow2(7 * (|s| - 1));
      assert 128 * (b % 128 * p) == b % 128 * (128 * p);
    }
  }

  /** Or-ing in the next group is what `Payload` does. */
  lemma {:induction false} OrNextGroup(s: seq<Byte>, b: Byte)
    ensures BitOr(Payload(s), b % 128 * Pow2(7 * |s|)) == Payload(s + [b])
  {
    PayloadBound(s);
    OrAbove(Payload(s), b % 128, 7 * |s|);
    PayloadSnoc(s, b);
  }

  /* ---- the encoding ---- */

  lemma {:induction false} EncodeFacts(v: nat)
    ensures var e := Encode(v);
            Terminator(e) == |e| - 1 && Payload(e) == v
  {
    if v >= 128 {
      var rest := Encode(v / 128);
      EncodeFacts(v / 128);
      var e := Encode(v);
      assert e[1..] == rest;
    } else {
      assert [v][1..] == [];
    }
  }

  lemma {:induction false} TerminatorConcat(s: seq<Byte>, rest: seq<Byte>)
    requires s != [] && Terminator(s) == |s| - 1
    ensures Terminator(s + rest) == |s| - 1
  {
    if s[0] < 128 {
    } else {
      assert (s + rest)[1..] == s[1..] + rest;
      TerminatorConcat(s[1..], rest);
    }
  }

  /** The length of the encoding is the number of 7-bit groups of the value. */
  lemma {:induction false} EncodeLength(v: nat, n: nat)
    requires n >= 1
    ensures |Encode(v)| <= n <==> v < Pow2(7 * n)
  {
    assert Pow2(7) == 128;
    if n == 1 {
    } else {
      PowAdd(7, 7 * (n - 1));
      var p := Pow2(7 * (n - 1));
      PowMonotone(7, 7 * n);
      if v >= 128 {
        EncodeLength(v / 128, n - 1);
        assert v < 128 * p <==> v / 128 < p;
      }
    }
  }

  /** Decoding a value that was encoded in at most ten bytes consumes exactly these, whatever follows.
      It gives the value back modulo 2^32, as a negative number if the value needs 64 bits. Longer
      encodings are refused. */
  lemma DecodeEncode(v: nat, rest: seq<Byte>)
    ensures Decode(Encode(v) + rest) ==
            if |Encode(v)| > 10 then TooLong
            else if v < 0x8000_0000_0000_0000 then Value(v % 0x1_0000_0000, |Encode(v)|)
            else Value(v % 0x1_0000_0000 - 0x1_0000_0000, |Encode(v)|)
  {
    var e := Encode(v);
    EncodeFacts(v);
    TerminatorConcat(e, rest);
    assert (e + rest)[..|e|] == e;
  }

  /** Lengths below 2^63 take at most ten bytes. */
  lemma LengthFits(v: nat)
    requires v <= MAX_INT64
    ensures |Encode(v)| <= 10
  {
    Pow32();
    PowAdd(35, 35);
    EncodeLength(v, 10);
  }

  /** For 32-bit values the round trip is exact and takes at most five bytes. */
  lemma RoundTrip32(v: nat, rest: seq<Byte>)
    requires v < 0x1_0000_0000
    ensures Decode(Encode(v) + rest) == Value(v, |Encode(v)|)
    ensures |Encode(v)| <= 5
  {
    LengthFits(v);
    DecodeEncode(v, rest);
    Pow32();
    EncodeLength(v, 5);
  }

  /** No byte string that decodes to the value is shorter. */
  lemma EncodingIsShortest(v: nat, s: seq<Byte>, n: nat)
    requires Decode(s) == Value(v, n)
    ensures |Encode(v)| <= n <= 10
  {
    var w := s[..n];
    PayloadBound(w);
    var raw := Payload(w);
    assert raw % MASK32 <= raw;
    EncodeLength(v, n);
  }
}
