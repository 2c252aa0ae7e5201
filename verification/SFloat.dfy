/** The 16-bit SFLOAT codec (IEEE 11073-20601): a signed 4-bit exponent of ten and
    a signed 12-bit mantissa.  Arithmetic is over the reals; None is NaN. */
module SFloat {
  import opened Base

  const NAN_CODE := 0x07FF

  function Pow10(e: int): (p: real)
    ensures p > 0.0
    decreases if e < 0 then -e else e
  {
    if e == 0 then 1.0 else if e > 0 then 10.0 * Pow10(e - 1) else Pow10(e + 1) / 10.0
  }

  /** math.Round: halves go away from zero. */
  function Round(x: real): int {
    if x >= 0.0 then (x + 0.5).Floor else -((0.5 - x).Floor)
  }

  function Mantissa(v: real, e: int): int { Round(v / Pow10(e)) }

  predicate Fits(v: real, e: int) { -2048 <= Mantissa(v, e) <= 2047 }

  /** uint16((exp & 0xF) << 12) | uint16(m & 0xFFF). */
  function Pack(e: int, m: int): (raw: int)
    ensures 0 <= raw < 0x10000
  {
    (e % 16) * 4096 + m % 4096
  }

  function Number(m: int, e: int): real { m as real * Pow10(e) }

  function MantissaOf(raw: int): int { var m := raw % 4096; if m >= 2048 then m - 4096 else m }
  function ExponentOf(raw: int): int { var e := raw / 4096; if e >= 8 then e - 16 else e }

  function Decode(raw: int): Option<real>
    requires 0 <= raw < 0x10000
  {
    if raw == 0x07FF || raw == 0x0800 || raw == 0x07FE || raw == 0x0802 then None
    else Some(Number(MantissaOf(raw), ExponentOf(raw)))
  }

  /** The smallest exponent from `e` on at which the mantissa fits. */
  function Chosen(v: real, e: int): (c: Option<int>)
    ensures c.Some? ==> e <= c.value <= 7 && Fits(v, c.value) && forall k :: e <= k < c.value ==> !Fits(v, k)
    ensures c.None? ==> forall k :: e <= k <= 7 ==> !Fits(v, k)
    decreases 8 - e
  {
    if e > 7 then None else if Fits(v, e) then Some(e) else Chosen(v, e + 1)
  }

  function Code(v: Option<real>): (raw: int)
    ensures 0 <= raw < 0x10000
  {
    if v.None? then NAN_CODE
    else match Chosen(v.value, -2)
      case None => NAN_CODE
      case Some(e) => Pack(e, Mantissa(v.value, e))
  }

  /** EncodeSFloat. */
  method Encode(v: Option<real>) returns (raw: int)
    ensures raw == Code(v)
  {
    if v.None? { return NAN_CODE; }
    var e := -2;
    while e <= 7
      invariant -2 <= e <= 8 && Chosen(v.value, -2) == Chosen(v.value, e)
    {
      var m := Round(v.value / Pow10(e));
      if -2048 <= m <= 2047 { return (e % 16) * 4096 + m % 4096; }
      e := e + 1;
    }
    return NAN_CODE;
  }

  // ---------------------------------------------------------------- unpacking

  predicate Reserved(e: int, m: int) { e == 0 && (m == 2047 || m == 2046 || m == -2048 || m == -2046) }

  lemma Digits(hi: int, lo: int)
    requires 0 <= hi < 16 && 0 <= lo < 4096
    ensures (hi * 4096 + lo) % 4096 == lo && (hi * 4096 + lo) / 4096 == hi
  {}

  /** Packing loses nothing but the four reserved codes. */
  lemma Unpack(e: int, m: int)
    requires -8 <= e <= 7 && -2048 <= m <= 2047
    ensures Decode(Pack(e, m)) == if Reserved(e, m) then None else Some(Number(m, e))
  {
    var hi, lo := if e >= 0 then e else e + 16, if m >= 0 then m else m + 4096;
    assert e % 16 == hi && m % 4096 == lo;
    var raw := hi * 4096 + lo;
    assert Pack(e, m) == raw;
    Digits(hi, lo);
    assert MantissaOf(raw) == m && ExponentOf(raw) == e;
    assert (raw == 0x07FF || raw == 0x0800 || raw == 0x07FE || raw == 0x0802) <==> Reserved(e, m);
  }

  // ----------------------------------------------------------------- rounding

  lemma RoundNear(x: real)
    ensures -0.5 <= Round(x) as real - x <= 0.5
  {}

  lemma RoundMonotone(x: real, y: real)
    requires x <= y
    ensures Round(x) <= Round(y)
  {}

  lemma RoundRange(x: real)
    ensures -2048 <= Round(x) <= 2047 <==> -2048.5 < x < 2047.5
  {}

  /** Multiplying by a positive number preserves order. */
  lemma Scale(a: real, b: real, p: real)
    requires p > 0.0
    ensures a < b <==> a * p < b * p
    ensures a <= b <==> a * p <= b * p
  {
    Distribute(b, a, p);
    Sign(b - a, p);
  }

  lemma Sign(d: real, p: real)
    requires p > 0.0
    ensures d > 0.0 <==> d * p > 0.0
    ensures d >= 0.0 <==> d * p >= 0.0
  {}

  lemma Quotient(v: real, p: real)
    requires p > 0.0
    ensures v / p * p == v
  {}

  lemma RoundedNear(v: real, p: real)
    requires p > 0.0
    ensures -0.5 * p <= Round(v / p) as real * p - v <= 0.5 * p
  {
    RoundNear(v / p);
    Quotient(v, p);
    Near(Round(v / p) as real, v / p, p, v);
  }

  lemma MantissaNear(v: real, e: int)
    ensures -0.5 * Pow10(e) <= Number(Mantissa(v, e), e) - v <= 0.5 * Pow10(e)
  {
    RoundedNear(v, Pow10(e));
  }

  lemma Distribute(m: real, x: real, p: real)
    ensures (m - x) * p == m * p - x * p
  {}

  lemma Near(m: real, x: real, p: real, v: real)
    requires p > 0.0 && -0.5 <= m - x <= 0.5 && x * p == v
    ensures -0.5 * p <= m * p - v <= 0.5 * p
  {
    Distribute(m, x, p);
    HalfScaled(m - x, p, m * p - v);
  }

  lemma HalfScaled(d: real, p: real, r: real)
    requires p > 0.0 && -0.5 <= d <= 0.5 && d * p == r
    ensures -0.5 * p <= r <= 0.5 * p
  {
    Scale(-0.5, d, p);
    Scale(d, 0.5, p);
  }

  /** What encoding then decoding yields. */
  function Through(v: real): Option<real> { Decode(Code(Some(v))) }

  /** Decoding an encoded value gives NaN exactly when no exponent fits or the
      rounded value hits a reserved code at exponent 0; otherwise the result is
      within half a unit of the chosen exponent. */
  lemma ThroughExact(v: real)
    ensures Through(v).None? <==> Chosen(v, -2).None? || (Chosen(v, -2) == Some(0) && Reserved(0, Mantissa(v, 0)))
    ensures Through(v).Some? ==>
              var e := Chosen(v, -2).value;
              && Through(v).value == Number(Mantissa(v, e), e)
              && -0.5 * Pow10(e) <= Through(v).value - v <= 0.5 * Pow10(e)
  {
    match Chosen(v, -2) {
      case None => assert Decode(NAN_CODE).None?;
      case Some(e) =>
        Unpack(e, Mantissa(v, e));
        MantissaNear(v, e);
    }
  }

  // ---------------------------------------------------- which exponents fit

  lemma QuotientBetween(v: real, p: real, lo: real, hi: real)
    requires p > 0.0
    ensures lo < v / p <==> lo * p < v
    ensures lo <= v / p <==> lo * p <= v
    ensures v / p < hi <==> v < hi * p
    ensures v / p <= hi <==> v <= hi * p
  {
    Quotient(v, p);
    Compare(v / p, p, v, lo);
    Compare(v / p, p, v, hi);
  }

  lemma Compare(x: real, p: real, v: real, c: real)
    requires p > 0.0 && x * p == v
    ensures c < x <==> c * p < v
    ensures c <= x <==> c * p <= v
    ensures x < c <==> v < c * p
    ensures x <= c <==> v <= c * p
  {
    Scale(c, x, p);
    Scale(x, c, p);
  }

  /** In terms of the value itself (halves round away from zero). */
  lemma FitsRange(v: real, e: int)
    ensures Fits(v, e) <==> -2048.5 * Pow10(e) < v < 2047.5 * Pow10(e)
  {
    RoundRange(v / Pow10(e));
    QuotientBetween(v, Pow10(e), -2048.5, 2047.5);
  }

  lemma Pow10Ten(e: int)
    ensures Pow10(e + 1) == 10.0 * Pow10(e)
  {}

  lemma {:induction false} Pow10Less(d: int, e: int)
    requires d < e
    ensures 10.0 * Pow10(d) <= Pow10(e)
    decreases e - d
  {
    Pow10Ten(d);
    if d + 1 < e {
      Pow10Less(d + 1, e);
    }
  }

  /** Not fitting one exponent lower means the mantissa is at least 205 in size. */
  lemma LargeMantissa(v: real, e: int)
    requires !Fits(v, e - 1)
    ensures v > 0.0 ==> Mantissa(v, e) >= 205
    ensures v <= 0.0 ==> Mantissa(v, e) <= -205
  {
    FitsRange(v, e - 1);
    Pow10Ten(e - 1);
    QuotientBetween(v, Pow10(e), 204.75, -204.85);
    RoundLarge(v / Pow10(e));
  }

  lemma RoundLarge(x: real)
    ensures x >= 204.75 ==> Round(x) >= 205
    ensures x <= -204.85 ==> Round(x) <= -205
  {}

  lemma Apart(big: real, small: real, p: real, q: real)
    requires q > 0.0 && 10.0 * q <= p && big >= 205.0 && small <= 2048.0
    ensures small * q <= big * p
  {
    Scale(205.0, big, p);
    Scale(small, 2048.0, q);
  }

  /** A value whose chosen exponent is larger reconstructs beyond everything a
      smaller exponent can represent. */
  lemma Beyond(v: real, e: int, d: int, m: int)
    requires !Fits(v, e - 1) && d < e && -2048 <= m <= 2047
    ensures v > 0.0 ==> Number(m, d) <= Number(Mantissa(v, e), e)
    ensures v <= 0.0 ==> Number(Mantissa(v, e), e) <= Number(m, d)
  {
    LargeMantissa(v, e);
    Pow10Less(d, e);
    var p, q, big := Pow10(e), Pow10(d), Mantissa(v, e) as real;
    if v > 0.0 {
      Apart(big, m as real, p, q);
    } else {
      Apart(-big, -m as real, p, q);
      assert -big * p == -(big * p) && (-m) as real * q == -(m as real * q);
    }
  }

  lemma SameExponentMonotone(v: real, w: real, e: int)
    requires v <= w
    ensures Number(Mantissa(v, e), e) <= Number(Mantissa(w, e), e)
  {
    var p := Pow10(e);
    QuotientMonotone(v, w, p);
    RoundMonotone(v / p, w / p);
    Scale(Mantissa(v, e) as real, Mantissa(w, e) as real, p);
  }

  lemma QuotientMonotone(v: real, w: real, p: real)
    requires v <= w && p > 0.0
    ensures v / p <= w / p
  {
    Quotient(w, p);
    QuotientBetween(v, p, w / p, w / p);
  }

  lemma SmallerExponentMonotone(v: real, w: real, d: int, e: int)
    requires v <= w && d < e && Fits(v, d) && !Fits(w, d) && !Fits(w, e - 1)
    ensures Number(Mantissa(v, d), d) <= Number(Mantissa(w, e), e)
  {
    FitsRange(v, d);
    FitsRange(w, d);
    Beyond(w, e, d, Mantissa(v, d));
  }

  lemma LargerExponentMonotone(v: real, w: real, d: int, e: int)
    requires v <= w && e < d && Fits(w, e) && !Fits(v, e) && !Fits(v, d - 1)
    ensures Number(Mantissa(v, d), d) <= Number(Mantissa(w, e), e)
  {
    FitsRange(v, e);
    FitsRange(w, e);
    Beyond(v, d, e, Mantissa(w, e));
  }

  /** Encoding then decoding is monotone wherever it is not NaN. */
  lemma ThroughMonotone(v: real, w: real)
    requires v <= w && Through(v).Some? && Through(w).Some?
    ensures Through(v).value <= Through(w).value
  {
    ThroughExact(v);
    ThroughExact(w);
    var d, e := Chosen(v, -2).value, Chosen(w, -2).value;
    if d == e {
      SameExponentMonotone(v, w, e);
    } else if d < e {
      SmallerExponentMonotone(v, w, d, e);
    } else {
      LargerExponentMonotone(v, w, d, e);
    }
  }

  // ------------------------------------------------------- where NaN appears

  lemma Powers()
    ensures Pow10(-2) == 0.01 && Pow10(-1) == 0.1 && Pow10(0) == 1.0 && Pow10(7) == 10000000.0
  {
    assert Pow10(1) == 10.0;
    assert Pow10(2) == 100.0;
    assert Pow10(3) == 1000.0;
    assert Pow10(4) == 10000.0;
    assert Pow10(5) == 100000.0;
    assert Pow10(6) == 1000000.0;
  }

  /** A value that fits an exponent fits every larger one. */
  lemma FitsUpwards(v: real, d: int, e: int)
    requires d <= e && Fits(v, d)
    ensures Fits(v, e)
  {
    FitsRange(v, d);
    FitsRange(v, e);
    if d < e {
      Pow10Less(d, e);
      Scale(Pow10(d), Pow10(e), 2048.5);
      Scale(Pow10(d), Pow10(e), 2047.5);
    }
  }

  /** The exact set of reals that do not survive: those out of range, and three
      gaps around the reserved codes. */
  lemma NanExactly(v: real)
    ensures Through(v).None? <==>
              || v >= 20475000000.0 || v <= -20485000000.0
              || 2045.5 <= v < 2047.5
              || -2048.5 < v <= -2047.5
              || -2046.5 < v <= -2045.5
  {
    ThroughExact(v);
    Powers();
    FitsRange(v, 7);
    FitsRange(v, 0);
    FitsRange(v, -1);
    if Fits(v, 7) && Chosen(v, -2).None? { assert false; }
    if Fits(v, -2) { FitsUpwards(v, -2, -1); }
    if Chosen(v, -2).Some? { FitsUpwards(v, Chosen(v, -2).value, 7); }
    assert v / Pow10(0) == v;
    assert Chosen(v, -2) == Some(0) <==> Fits(v, 0) && !Fits(v, -1);
    if Fits(v, 0) {
      assert Reserved(0, Mantissa(v, 0)) <==> 2045.5 <= v < 2047.5 || -2048.5 < v <= -2047.5 || -2046.5 < v <= -2045.5;
    }
  }

  /** On the thresholds the bypass command accepts, nothing is lost but rounding
      of at most a twentieth of a volt. */
  lemma ThresholdRange(v: real)
    requires 0.0 < v <= 60.0
    ensures Through(v).Some? && -0.05 <= Through(v).value - v <= 0.05
  {
    NanExactly(v);
    ThroughExact(v);
    Powers();
    FitsRange(v, -1);
    var e := Chosen(v, -2).value;
    assert e == -2 || e == -1;
  }
}
