/**
 The size and precision byte of LOC records (section 2 of RFC 1876): a decimal
 mantissa and a power of ten, in centimetres.
 */
module LocSize {

  const MAX_SIZE: nat := 9_000_000_000

  function Pow10(e: nat): (r: nat)
    ensures r > 0
  {
    if e == 0 then 1 else 10 * Pow10(e - 1)
  }

  /** The floor of the decimal logarithm. */
  function Log10(v: nat): nat {
    if v < 10 then 0 else 1 + Log10(v / 10)
  }

  function Exponent(v: nat): nat {
    if v != 0 then Log10(v) else 0
  }

  function Mantissa(v: nat): nat {
    v / Pow10(Exponent(v))
  }

  /** The Python encoder: a shift and a mask on unbounded integers. */
  function EncodePython(v: nat): nat {
    PythonByte(Mantissa(v), Exponent(v))
  }

  function PythonByte(m: nat, e: nat): nat {
    m * 16 % 256 + e % 16
  }

  function SaturateU8(n: nat): nat {
    if n > 255 then 255 else n
  }

  /** The Rust encoder: saturating conversions, then arithmetic on bytes. */
  function EncodeRust(v: nat): nat {
    RustByte(Mantissa(v), Exponent(v))
  }

  function RustByte(m: nat, e: nat): nat {
    (SaturateU8(m) * 16 % 256 + SaturateU8(e) % 16) % 256
  }

  function Decode(b: nat): nat {
    b / 16 * Pow10(b % 16)
  }

  // ---------- Digits ----------

  function LeadingDigit(v: nat): nat {
    if v < 10 then v else LeadingDigit(v / 10)
  }

  /** A digit followed by e zeros. */
  function Shifted(m: nat, e: nat): nat {
    if e == 0 then m else 10 * Shifted(m, e - 1)
  }

  lemma {:induction false} ShiftedIsProduct(m: nat, e: nat)
    ensures m * Pow10(e) == Shifted(m, e)
  {
    if e > 0 {
      ShiftedIsProduct(m, e - 1);
      assert m * (10 * Pow10(e - 1)) == 10 * (m * Pow10(e - 1));
    }
  }

  lemma {:induction false} LeadingDigitBounds(v: nat)
    ensures LeadingDigit(v) <= 9 && (v > 0 ==> LeadingDigit(v) >= 1)
    ensures Shifted(LeadingDigit(v), Log10(v)) <= v < Shifted(LeadingDigit(v), Log10(v)) + Pow10(Log10(v))
  {
    if v >= 10 {
      LeadingDigitBounds(v / 10);
    }
  }

  lemma {:induction false} MulStep(a: nat, b: nat, p: nat)
    ensures a < b ==> a * p + p <= b * p
    decreases b
  {
    if a < b {
      MulStep(a, b - 1, p);
      assert b * p == (b - 1) * p + p;
    }
  }

  lemma DivUnique(v: nat, p: nat, m: nat)
    requires p > 0 && m * p <= v < m * p + p
    ensures v / p == m
  {
    var q := v / p;
    assert v == q * p + v % p;
    MulStep(q, m, p);
    MulStep(m, q, p);
  }

  lemma MantissaIsLeadingDigit(v: nat)
    ensures Mantissa(v) == LeadingDigit(v) && Exponent(v) == Log10(v)
  {
    LeadingDigitBounds(v);
    ShiftedIsProduct(LeadingDigit(v), Log10(v));
    DivUnique(v, Pow10(Log10(v)), LeadingDigit(v));
  }

  /** A digit followed by e zeros has that leading digit and that logarithm. */
  lemma {:induction false} ShiftedDigits(m: nat, e: nat)
    requires 1 <= m <= 9
    ensures Shifted(m, e) >= 1 && Log10(Shifted(m, e)) == e && LeadingDigit(Shifted(m, e)) == m
  {
    if e > 0 {
      ShiftedDigits(m, e - 1);
    }
  }

  lemma {:induction false} LogMonotone(v: nat, w: nat)
    requires v <= w
    ensures Log10(v) <= Log10(w)
  {
    if v >= 10 {
      LogMonotone(v / 10, w / 10);
    }
  }

  lemma ExponentInRange(v: nat)
    requires v <= MAX_SIZE
    ensures Log10(v) <= 9
  {
    assert Shifted(9, 9) == MAX_SIZE by {
      assert Shifted(9, 3) == 9_000 && Shifted(9, 6) == 9_000_000;
    }
    ShiftedDigits(9, 9);
    LogMonotone(v, MAX_SIZE);
  }

  lemma SmallDigits(m: nat, e: nat)
    requires m <= 9 && e <= 9
    ensures PythonByte(m, e) == RustByte(m, e) == 16 * m + e
  {
  }

  /** Encoding puts the leading digit and the number of digits after it into the byte. */
  lemma EncodedDigits(v: nat)
    requires v <= MAX_SIZE
    ensures EncodePython(v) == 16 * LeadingDigit(v) + Log10(v) && EncodeRust(v) == EncodePython(v)
    ensures LeadingDigit(v) <= 9 && Log10(v) <= 9
  {
    ExponentInRange(v);
    LeadingDigitBounds(v);
    SmallDigits(LeadingDigit(v), Log10(v));
    MantissaIsLeadingDigit(v);
  }

  lemma DecodedDigits(m: nat, e: nat)
    requires m <= 9 && e <= 9
    ensures var b := 16 * m + e; b / 16 == m && b % 16 == e && Decode(b) == Shifted(m, e)
  {
    ShiftedIsProduct(m, e);
  }

  lemma {:induction false} ShiftedZero(e: nat)
    ensures Shifted(0, e) == 0
  {
    if e > 0 {
      ShiftedZero(e - 1);
    }
  }

  lemma {:induction false} ShiftedAtLeastPower(m: nat, e: nat)
    requires m >= 1
    ensures Shifted(m, e) >= Pow10(e)
  {
    if e > 0 {
      ShiftedAtLeastPower(m, e - 1);
    }
  }

  /**
   For every whole-centimetre size up to the maximum: both digits are at most 9,
   decoding rounds down by less than one step of the mantissa and by less than
   half, encoding the decoded size gives the same byte, and the two encoders agree.
   */
  lemma SizeByte(v: nat)
    requires v <= MAX_SIZE
    ensures var b := EncodePython(v);
            && b < 256 && b / 16 <= 9 && b % 16 <= 9
            && Decode(b) <= v < Decode(b) + Pow10(b % 16)
            && (v > 0 ==> v < 2 * Decode(b))
            && EncodePython(Decode(b)) == b
            && EncodeRust(v) == b
  {
    var m, e := LeadingDigit(v), Log10(v);
    EncodedDigits(v);
    DecodedDigits(m, e);
    LeadingDigitBounds(v);
    EncodedDigits(Shifted(m, e));
    if v > 0 {
      ShiftedDigits(m, e);
      ShiftedAtLeastPower(m, e);
    }
  }
}
