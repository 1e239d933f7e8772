/** The sign-magnitude variable-length integer: six value bits, a sign bit and a continuation
    bit in the first byte, seven value bits and a continuation bit in each later one. */
module TdfVarint {
  import opened Bytes

  function Abs(n: int): nat { if n < 0 then -n else n }

  function Pow2(n: nat): (p: nat)
    ensures p >= 1
  {
    if n == 0 then 1 else 2 * Pow2(n - 1)
  }

  /** The bytes after the first one. */
  function EncodeRest(remaining: nat): seq<byte>
  {
    if remaining == 0 then []
    else [remaining % 0x80 + if remaining / 0x80 > 0 then 0x80 else 0] + EncodeRest(remaining / 0x80)
  }

  function FirstByte(value: int): byte
  {
    Abs(value) % 0x40 + (if value < 0 then 0x40 else 0) + (if Abs(value) / 0x40 > 0 then 0x80 else 0)
  }

  function Encode(value: int): seq<byte>
  {
    [FirstByte(value)] + EncodeRest(Abs(value) / 0x40)
  }

  /** The uint64 accumulator after the continuation bytes, and how many bytes were consumed.
      Each byte fills the seven bits above `shift`, which the accumulator has not reached yet
      (see MagnitudeBelowShift), so the source's bitwise or is an addition; bits shifted past the
      top of the register are lost. */
  function DecodeRest(value: nat, shift: nat, buffer: seq<byte>): (r: (nat, nat))
    ensures r.1 <= |buffer|
    ensures buffer != [] ==> r.1 >= 1
    decreases |buffer|
  {
    if buffer == [] then (value, 0)
    else
      var value' := value + (buffer[0] as int % 0x80) * Pow2(shift) % TWO_64;
      if buffer[0] < 0x80 then (value', 1)
      else
        var (v, n) := DecodeRest(value', shift + 7, buffer[1..]);
        (v, n + 1)
  }

  /** The unsigned value spelled by a nonempty buffer, and the number of bytes read. */
  function Magnitude(buffer: seq<byte>): (r: (nat, nat))
    requires buffer != []
    ensures 1 <= r.1 <= |buffer|
  {
    if buffer[0] < 0x80 then (buffer[0] % 0x40, 1)
    else
      var (magnitude, more) := DecodeRest(buffer[0] % 0x40, 6, buffer[1..]);
      (magnitude, 1 + more)
  }

  /** Conversion to int64 and, when the sign bit is set, negation: both wrap. */
  function Signed(first: byte, magnitude: nat): int64
  {
    var value := Wrap64(magnitude);
    if first / 0x40 % 2 == 1 then Wrap64(-(value as int)) else value
  }

  /** DecodeVarsizeInteger: the value and the number of bytes read; (0, 0) on an empty buffer. */
  function Decode(buffer: seq<byte>): (r: (int64, nat))
    ensures r.1 <= |buffer|
    ensures buffer != [] ==> r.1 >= 1
  {
    if buffer == [] then (0, 0)
    else
      var (magnitude, read) := Magnitude(buffer);
      (Signed(buffer[0], magnitude), read)
  }

  // ---- the accumulator ---------------------------------------------------------------------

  lemma Pow2Add(a: nat, b: nat)
    ensures Pow2(a + b) == Pow2(a) * Pow2(b)
  {
    if b > 0 {
      Pow2Add(a, b - 1);
    }
  }

  lemma Pow2Small()
    ensures Pow2(6) == 0x40 && Pow2(7) == 0x80 && Pow2(8) == 0x100
  {
  }

  /** The powers that matter for a 64-bit register filled in steps of seven bits. */
  lemma Pow2Register()
    ensures Pow2(55) == 0x80_0000_0000_0000
    ensures Pow2(62) == 0x4000_0000_0000_0000
    ensures Pow2(63) == TWO_63 && Pow2(64) == TWO_64
  {
    Pow2Small();
    hide Pow2;
    Pow2Add(8, 8);
    Pow2Add(16, 16);
    Pow2Add(32, 16);
    Pow2Add(48, 7);
    Pow2Add(48, 8);
    Pow2Add(56, 6);
    Pow2Add(56, 7);
    Pow2Add(56, 8);
  }

  lemma Pow2Monotone(a: nat, b: nat)
    requires a <= b
    ensures Pow2(a) <= Pow2(b)
  {
    Pow2Add(a, b - a);
    assert Pow2(a) * 1 <= Pow2(a) * Pow2(b - a);
  }

  /** One continuation byte's contribution, as the 64-bit shift leaves it. Shifts run 6, 13, ...:
      62 is the only one at which bits fall off the register, and past it nothing is left. */
  lemma ShiftedBits(bits: nat, shift: nat)
    requires bits < 0x80 && shift % 7 == 6
    ensures var t := bits * Pow2(shift) % TWO_64;
            && t <= 0x7f * Pow2(shift)
            && (shift >= 64 ==> t == 0)
            && (shift < 64 ==> t + Pow2(shift) <= TWO_64)
  {
    hide Pow2;
    Pow2Register();
    if shift < 62 {
      ShiftedInside(bits, shift);
    } else if shift == 62 {
      ShiftedAcross(bits);
    } else {
      Pow2Add(64, shift - 64);
      ShiftedOut(bits, Pow2(shift - 64));
    }
  }

  lemma ShiftedInside(bits: nat, shift: nat)
    requires bits < 0x80 && shift <= 55
    ensures bits * Pow2(shift) <= 0x7f * Pow2(shift)
    ensures 0x80 * Pow2(shift) <= TWO_64
    ensures bits * Pow2(shift) % TWO_64 == bits * Pow2(shift)
  {
    hide Pow2;
    Pow2Monotone(shift, 55);
    Pow2Register();
    Scale(bits, 0x7f, Pow2(shift));
  }

  lemma ShiftedAcross(bits: nat)
    requires bits < 0x80
    ensures var t := bits * 0x4000_0000_0000_0000 % TWO_64;
            t <= bits * 0x4000_0000_0000_0000 && t + 0x4000_0000_0000_0000 <= TWO_64
  {
    assert bits * 0x4000_0000_0000_0000 == bits / 4 * TWO_64 + bits % 4 * 0x4000_0000_0000_0000;
  }

  lemma ShiftedOut(bits: nat, p: nat)
    ensures bits * (TWO_64 * p) % TWO_64 == 0
  {
    Reassociate(bits, p);
    var k := bits * p;
    assert bits * (TWO_64 * p) == k * TWO_64;
  }

  lemma Scale(a: nat, b: nat, p: nat)
    requires a <= b
    ensures 0 <= a * p <= b * p
  {
  }

  lemma Reassociate(bits: nat, p: nat)
    ensures bits * (TWO_64 * p) == bits * p * TWO_64
  {
  }

  /** The accumulator stays below the shift and inside the register, so each byte lands on bits
      that are still clear and the bitwise or of the source cannot carry. */
  lemma {:induction false} MagnitudeBelowShift(value: nat, shift: nat, buffer: seq<byte>)
    requires shift % 7 == 6 && value < Pow2(shift) && value < TWO_64
    ensures var (v, n) := DecodeRest(value, shift, buffer); v < Pow2(shift + 7 * n) && v < TWO_64
    decreases |buffer|
  {
    hide Pow2;
    if buffer != [] {
      var bits := buffer[0] as int % 0x80;
      var value' := value + bits * Pow2(shift) % TWO_64;
      Pow2Register();
      ShiftedBits(bits, shift);
      Pow2Add(shift, 7);
      Pow2Small();
      if buffer[0] >= 0x80 {
        MagnitudeBelowShift(value', shift + 7, buffer[1..]);
      }
    }
  }

  // ---- round trip --------------------------------------------------------------------------

  lemma {:induction false} RestRoundTrip(value: nat, shift: nat, remaining: nat, suffix: seq<byte>)
    requires remaining > 0 && remaining * Pow2(shift) < TWO_64
    ensures DecodeRest(value, shift, EncodeRest(remaining) + suffix)
         == (value + remaining * Pow2(shift), |EncodeRest(remaining)|)
    decreases remaining
  {
    hide Pow2, DecodeRest, EncodeRest;
    var low, high := remaining % 0x80, remaining / 0x80;
    var p, p' := Pow2(shift), Pow2(shift + 7);
    Pow2Add(shift, 7);
    Pow2Small();
    SplitProduct(remaining, p, p');
    RestStep(value, shift, remaining, suffix);
    if high > 0 {
      RestRoundTrip(value + low * p, shift + 7, high, suffix);
    }
  }

  /** One continuation byte out and in again. */
  lemma RestStep(value: nat, shift: nat, remaining: nat, suffix: seq<byte>)
    requires remaining > 0 && remaining % 0x80 * Pow2(shift) < TWO_64
    ensures var low, high := remaining % 0x80, remaining / 0x80;
            && |EncodeRest(remaining)| == 1 + |EncodeRest(high)|
            && DecodeRest(value, shift, EncodeRest(remaining) + suffix) ==
                 if high == 0 then (value + low * Pow2(shift), 1)
                 else var (v, n) := DecodeRest(value + low * Pow2(shift), shift + 7, EncodeRest(high) + suffix); (v, n + 1)
    ensures remaining < 0x80 ==> EncodeRest(remaining / 0x80) == []
  {
    hide Pow2;
    var buffer := EncodeRest(remaining) + suffix;
    assert buffer[1..] == EncodeRest(remaining / 0x80) + suffix;
  }

  lemma SplitProduct(n: nat, p: nat, p': nat)
    requires p' == p * 0x80
    ensures n * p == n / 0x80 * p' + n % 0x80 * p
    ensures n % 0x80 * p >= 0 && n / 0x80 * p' >= 0
  {
    var low, high := n % 0x80, n / 0x80;
    assert n * p == (high * 0x80 + low) * p;
    assert high * p' == high * 0x80 * p;
  }

  lemma FirstByteFields(value: int64)
    ensures var first := FirstByte(value);
            && first % 0x40 == Abs(value) % 0x40
            && (first / 0x40 % 2 == 1 <==> value < 0)
            && (first >= 0x80 <==> Abs(value) / 0x40 > 0)
  {
  }

  /** Sign and magnitude give the value back, -2^63 included: its magnitude does not fit an int64,
      and the conversion and the negation both wrap. */
  lemma SignedMagnitude(value: int64)
    ensures Signed(FirstByte(value), Abs(value)) == value
  {
    FirstByteFields(value);
  }

  lemma {:induction false} MagnitudeRoundTrip(value: int64, suffix: seq<byte>)
    ensures Magnitude(Encode(value) + suffix) == (Abs(value), |Encode(value)|)
  {
    var low, high := Abs(value) % 0x40, Abs(value) / 0x40;
    FirstByteFields(value);
    var rest := (Encode(value) + suffix)[1..];
    assert rest == EncodeRest(high) + suffix;
    if high > 0 {
      assert Pow2(6) == 0x40;
      RestRoundTrip(low, 6, high, suffix);
      assert DecodeRest(low, 6, rest) == (Abs(value), |EncodeRest(high)|);
    }
  }

  /** Every int64 survives, and the decoder stops at the end of the encoding whatever follows. */
  lemma {:induction false} RoundTrip(value: int64, suffix: seq<byte>)
    ensures Decode(Encode(value) + suffix) == (value, |Encode(value)|)
  {
    MagnitudeRoundTrip(value, suffix);
    SignedMagnitude(value);
  }

  // ---- canonical form ----------------------------------------------------------------------

  lemma {:induction false} RestLength(remaining: nat, n: nat)
    requires remaining < Pow2(7 * n)
    ensures |EncodeRest(remaining)| <= n
    decreases n
  {
    if n > 0 && remaining > 0 {
      Pow2Add(7 * (n - 1), 7);
      Pow2Small();
      hide Pow2;
      RestLength(remaining / 0x80, n - 1);
    }
  }

  lemma {:induction false} LengthBounds(value: int64)
    ensures 1 <= |Encode(value)| <= 10
  {
    hide Pow2;
    Pow2Register();
    Pow2Small();
    RestLength(Abs(value) / 0x40, 9);
  }

  /** No shorter spelling of a value exists: whatever bytes the decoder reads in full as `value`
      are at least as many as the encoder writes. */
  lemma {:induction false} Shortest(buffer: seq<byte>)
    requires buffer != [] && Decode(buffer).1 == |buffer|
    ensures |Encode(Decode(buffer).0)| <= |buffer|
  {
    var value := Decode(buffer).0;
    LengthBounds(value);
    if |buffer| < 10 {
      var magnitude := Magnitude(buffer).0;
      MagnitudeBound(buffer);
      SignedSmall(buffer[0], magnitude);
      RestLength(magnitude / 0x40, |buffer| - 1);
    }
  }

  lemma MagnitudeBound(buffer: seq<byte>)
    requires buffer != [] && Magnitude(buffer).1 == |buffer| < 10
    ensures Magnitude(buffer).0 < TWO_63
    ensures Magnitude(buffer).0 / 0x40 < Pow2(7 * (|buffer| - 1))
  {
    var n := |buffer| - 1;
    Pow2Small();
    hide Pow2;
    if buffer[0] >= 0x80 {
      MagnitudeBelowShift(buffer[0] % 0x40, 6, buffer[1..]);
    }
    Pow2Add(6, 7 * n);
    Pow2Monotone(6 + 7 * n, 63);
    Pow2Register();
  }

  lemma SignedSmall(first: byte, magnitude: nat)
    requires magnitude < TWO_63
    ensures Abs(Signed(first, magnitude)) == magnitude
  {
  }

  /** A multi-byte encoding never ends in a zero byte. */
  lemma {:induction false} NoTrailingZero(remaining: nat)
    requires remaining > 0
    ensures EncodeRest(remaining) != [] && EncodeRest(remaining)[|EncodeRest(remaining)| - 1] != 0
  {
    if remaining / 0x80 > 0 {
      NoTrailingZero(remaining / 0x80);
    }
  }

  lemma {:induction false} LastByteNonzero(value: int64)
    requires |Encode(value)| > 1
    ensures Encode(value)[|Encode(value)| - 1] != 0
  {
    NoTrailingZero(Abs(value) / 0x40);
  }
}
