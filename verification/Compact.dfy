/** The compact format of 256-bit numbers: 23 bits of mantissa, a sign bit and a byte of exponent. */
module Compact {
  import opened Powers
  import opened Products
  import opened ArithUint256

  const SIGN := 0x80_0000       // also one more than the largest mantissa
  const EXPONENT := 0x100_0000  // the value of one exponent step

  function Size(c: nat): nat { c / EXPONENT }
  function Word(c: nat): (w: nat)
    ensures w < SIGN
  {
    c % SIGN
  }
  predicate SignBit(c: nat) { c / SIGN % 2 == 1 }

  /** Mantissa and exponent as a number of any size. */
  function Scaled(word: int, size: nat): int {
    if size <= 3 then word / Pow2(8 * (3 - size)) else word * Pow2(8 * (size - 3))
  }

  /** The number that a compact value stands for. */
  function Decoded(c: nat): int { Scaled(Word(c), Size(c)) }

  predicate BitLength(x: nat, n: nat) { x < Pow2(n) && (n > 0 ==> Pow2(n - 1) <= x) }

  // --- encoding -------------------------------------------------------------------------------

  function ByteLength(n: nat): nat { (n + 7) / 8 }

  /** The three highest bytes. */
  function Raw(x: nat, size: nat): int {
    if size <= 3 then x * Pow2(8 * (3 - size)) else x / Pow2(8 * (size - 3))
  }

  lemma Pow2Small()
    ensures Pow2(8) == 256 && Pow2(15) == 0x8000 && Pow2(16) == 0x1_0000 && Pow2(23) == SIGN && Pow2(24) == EXPONENT
  {
    assert Pow2(8) == 256;
    Pow2Adds(8, 7);
    Pow2Adds(8, 8);
    Pow2Adds(16, 7);
    Pow2Adds(16, 8);
    assert Pow2(7) == 128;
  }

  lemma RawFits(x: nat, n: nat)
    requires BitLength(x, n)
    ensures 0 <= Raw(x, ByteLength(n)) < EXPONENT
  {
    hide Pow2;
    var size := ByteLength(n);
    Pow2Grows(n, 8 * size);
    Pow2Small();
    if size <= 3 {
      var p := Pow2(8 * (3 - size));
      Pow2Adds(8 * size, 8 * (3 - size));
      assert 8 * size + 8 * (3 - size) == 24;
      MulLess(x, Pow2(8 * size), p);
      MulNonNegative(x, p);
    } else {
      var p := Pow2(8 * (size - 3));
      Pow2Adds(8 * (size - 3), 24);
      assert 8 * (size - 3) + 24 == 8 * size;
      QuotientLess(x, p, EXPONENT);
    }
  }

  /** A mantissa that would touch the sign bit is moved down a byte. */
  function Mantissa(raw: int): int { if raw >= SIGN then raw / 256 else raw }
  function Exponent(raw: int, size: nat): nat { if raw >= SIGN then size + 1 else size }

  function Encoded(x: nat, n: nat): int {
    var raw := Raw(x, ByteLength(n));
    Exponent(raw, ByteLength(n)) * EXPONENT + Mantissa(raw)
  }

  lemma EncodedParts(x: nat, n: nat)
    requires BitLength(x, n)
    ensures Encoded(x, n) >= 0
    ensures Word(Encoded(x, n)) == Mantissa(Raw(x, ByteLength(n)))
    ensures Size(Encoded(x, n)) == Exponent(Raw(x, ByteLength(n)), ByteLength(n))
    ensures !SignBit(Encoded(x, n))
  {
    hide Raw, Word, Size, SignBit;
    RawFits(x, n);
    var raw := Raw(x, ByteLength(n));
    MantissaFits(raw);
    PartsOf(Exponent(raw, ByteLength(n)), Mantissa(raw));
  }

  lemma MantissaFits(raw: nat)
    requires raw < EXPONENT
    ensures 0 <= Mantissa(raw) < SIGN && Mantissa(raw) % SIGN == Mantissa(raw)
  {
  }

  // --- what the encoding keeps --------------------------------------------------------------------

  /** Rounded down to a multiple. */
  function Floor(x: nat, g: nat): int
    requires g > 0
  {
    (x / g) * g
  }

  lemma FloorIs(x: nat, g: nat)
    requires g > 0
    ensures 0 <= Floor(x, g) <= x < Floor(x, g) + g
  {
    DivMod(x, g);
    assert (x / g) * g == g * (x / g);
  }

  /** A multiple that is not above a number is not above it rounded down. */
  lemma FloorBest(x: nat, g: nat, k: nat)
    requires g > 0 && k * g <= x
    ensures k * g <= Floor(x, g)
  {
    FloorIs(x, g);
    var q := x / g;
    assert k >= q + 1 ==> k * g >= (q + 1) * g;
    MulSum(q, 1, g);
    assert k <= q ==> k * g <= q * g;
  }

  lemma DivDiv(x: nat, a: nat, b: nat)
    requires a > 0 && b > 0
    ensures a * b > 0 && x / a / b == x / (a * b)
  {
    DivMod(x, a);
    DivMod(x / a, b);
    var q, r := x / a / b, (x / a) % b;
    var low := x % a;
    assert x == a * (b * q + r) + low;
    assert a * (b * q + r) == a * (b * q) + a * r;
    MulAssoc(a, b, q);
    MulLess(r, b, a);
    assert a * r + low < a * b by {
      assert r * a == a * r && b * a == a * b;
    }
    RemainderUnique(a * r + low, q, a * b, x);
  }

  lemma MulDiv(x: nat, p: nat)
    requires p > 0
    ensures (x * p) / p == x
  {
    assert x * p == p * x;
    RemainderUnique(0, x, p, x * p);
  }

  /** Up to three bytes nothing is lost. */
  lemma SmallExact(x: nat, size: nat)
    requires size <= 3
    ensures Raw(x, size) < SIGN ==> Scaled(Raw(x, size), size) == x
    ensures size < 3 ==> Scaled(Raw(x, size) / 256, size + 1) == x
  {
    hide Pow2;
    MulDiv(x, Pow2(8 * (3 - size)));
    MulNonNegative(x, Pow2(8 * (3 - size)));
    if size < 3 {
      Pow2Small();
      var p := Pow2(8 * (2 - size));
      Pow2Adds(8 * (2 - size), 8);
      assert 8 * (2 - size) + 8 == 8 * (3 - size);
      MulAssoc(x, p, 256);
      MulDiv(x * p, 256);
      MulDiv(x, p);
      MulNonNegative(x, p);
      assert 8 * (3 - (size + 1)) == 8 * (2 - size);
    }
  }

  /** Beyond three bytes the number is rounded down to the exponent's multiples. */
  lemma LargeFloor(x: nat, size: nat)
    requires size >= 3
    ensures size > 3 ==> Scaled(Raw(x, size), size) == Floor(x, Pow2(8 * (size - 3)))
    ensures Raw(x, size) >= 0 && Scaled(Raw(x, size) / 256, size + 1) == Floor(x, Pow2(8 * (size - 2)))
  {
    hide Pow2;
    Pow2Small();
    Pow2Zero();
    if size == 3 {
      assert Raw(x, 3) == x * 1;
    } else {
      var p := Pow2(8 * (size - 3));
      Pow2Adds(8 * (size - 3), 8);
      assert 8 * (size - 3) + 8 == 8 * (size - 2);
      DivDiv(x, p, 256);
    }
    assert 8 * (size + 1 - 3) == 8 * (size - 2);
  }

  /** The exponent is no larger than it has to be. */
  lemma ExponentTight(x: nat, n: nat)
    requires BitLength(x, n)
    ensures var raw, size := Raw(x, ByteLength(n)), ByteLength(n);
            var e := Exponent(raw, size);
            e > 3 ==> x >= SIGN * Pow2(8 * (e - 4))
  {
    hide Pow2;
    Pow2Small();
    Pow2Zero();
    var raw, size := Raw(x, ByteLength(n)), ByteLength(n);
    if raw >= SIGN {
      if size == 3 {
        assert raw == x * 1;
      } else if size > 3 {
        var p := Pow2(8 * (size - 3));
        FloorIs(x, p);
        MulMono(SIGN, raw, p);
      }
    } else if size > 3 {
      assert n >= 8 * (size - 1) + 1;
      Pow2Grows(8 * (size - 1), n - 1);
      Pow2Adds(8 * (size - 4), 24);
      assert 8 * (size - 4) + 24 == 8 * (size - 1);
      MulMono(SIGN, EXPONENT, Pow2(8 * (size - 4)));
    }
  }

  /** Encoding and decoding rounds down: to the number itself if its exponent is at most three, and else to the
      next multiple of the exponent's unit. */
  lemma EncodedValue(x: nat, n: nat)
    requires BitLength(x, n)
    ensures Encoded(x, n) >= 0
    ensures var c := Encoded(x, n);
            && (Size(c) <= 3 ==> Decoded(c) == x)
            && (Size(c) > 3 ==> Decoded(c) == Floor(x, Pow2(8 * (Size(c) - 3))) && x >= SIGN * Pow2(8 * (Size(c) - 4)))
  {
    hide Pow2, Raw, Scaled, Floor;
    EncodedParts(x, n);
    RawFits(x, n);
    ExponentTight(x, n);
    var size := ByteLength(n);
    if size <= 3 {
      SmallExact(x, size);
    }
    if size >= 3 {
      LargeFloor(x, size);
    }
  }

  /** What has a smaller exponent is below the smallest number that needs the larger one. */
  lemma SmallerExponent(word: nat, size: nat, e: nat)
    requires word < SIGN && size < e && e > 3
    ensures 0 <= Scaled(word, size) < SIGN * Pow2(8 * (e - 4))
  {
    hide Pow2;
    if size <= 3 {
      var p := Pow2(8 * (3 - size));
      DivMod(word, p);
      var q := word / p;
      assert q >= 0 && p * q >= 1 * q by {
        MulMono(1, p, q);
      }
      MulMono(1, Pow2(8 * (e - 4)), SIGN);
    } else {
      MulNonNegative(word, Pow2(8 * (size - 3)));
      Pow2Grows(8 * (size - 3), 8 * (e - 4));
      MulLess(word, SIGN, Pow2(8 * (size - 3)));
      MulMono(Pow2(8 * (size - 3)), Pow2(8 * (e - 4)), SIGN);
    }
  }

  /** The smallest number that needs an exponent is a multiple of its unit. */
  lemma UnitMultiple(e: nat)
    requires e > 3
    ensures SIGN * Pow2(8 * (e - 4)) == Pow2(15) * Pow2(8 * (e - 3))
  {
    hide Pow2;
    Pow2Small();
    Pow2Adds(8 * (e - 4), 8);
    assert 8 * (e - 4) + 8 == 8 * (e - 3);
  }

  /** Of all compact values that are not above a number, its encoding is the largest. */
  lemma EncodedIsBest(x: nat, n: nat, c: nat)
    requires BitLength(x, n) && Decoded(c) <= x
    ensures Encoded(x, n) >= 0 && Decoded(c) <= Decoded(Encoded(x, n)) <= x
  {
    hide Pow2, Floor, Encoded;
    EncodedValue(x, n);
    var e := Size(Encoded(x, n));
    if e > 3 {
      var g := Pow2(8 * (e - 3));
      FloorIs(x, g);
      if Size(c) < e {
        SmallerExponent(Word(c), Size(c), e);
        UnitMultiple(e);
        FloorBest(x, g, Pow2(15));
      } else {
        var k := Pow2(8 * (Size(c) - e));
        Pow2Adds(8 * (Size(c) - e), 8 * (e - 3));
        assert 8 * (Size(c) - e) + 8 * (e - 3) == 8 * (Size(c) - 3);
        MulAssoc(Word(c), k, g);
        MulNonNegative(Word(c), k);
        FloorBest(x, g, Word(c) * k);
      }
    }
  }

  // --- the operations on limbs ------------------------------------------------------------------------

  /** The overflow test is exact. */
  lemma OverflowExact(word: nat, size: nat)
    requires word < SIGN
    ensures Scaled(word, size) >= 0
    ensures Scaled(word, size) >= Pow2(256) <==>
              word != 0 && (size > 34 || (word > 0xff && size > 33) || (word > 0xffff && size > 32))
  {
    hide Pow2;
    Pow2Small();
    Pow2Grows(24, 256);
    if size <= 3 {
      ScaledDown(word, size);
    } else if size <= 35 {
      OverflowBelow36(word, size);
      UnitsLeft(size);
    } else {
      OverflowFrom36(word, size);
    }
  }

  lemma OverflowBelow36(word: nat, size: nat)
    requires 3 < size <= 35
    ensures Scaled(word, size) >= 0 && (Scaled(word, size) >= Pow2(256) <==> word >= Pow2(8 * (35 - size)))
  {
    hide Pow2;
    var p, q := Pow2(8 * (size - 3)), Pow2(8 * (35 - size));
    Pow2Adds(8 * (size - 3), 8 * (35 - size));
    assert 8 * (size - 3) + 8 * (35 - size) == 256;
    Threshold(word, p, q);
    MulNonNegative(word, p);
  }

  lemma OverflowFrom36(word: nat, size: nat)
    requires size > 35
    ensures Scaled(word, size) >= 0 && (Scaled(word, size) >= Pow2(256) <==> word != 0)
  {
    hide Pow2;
    var p := Pow2(8 * (size - 3));
    Pow2Grows(256, 8 * (size - 3));
    if word > 0 {
      MulMono(1, word, p);
    } else {
      assert 0 * p == 0;
    }
  }

  lemma Threshold(word: nat, p: nat, q: nat)
    requires p > 0
    ensures word * p >= p * q <==> word >= q
  {
    if word >= q {
      MulMono(q, word, p);
    } else {
      MulLess(word, q, p);
    }
  }

  /** How large a mantissa overflows at an exponent. */
  lemma UnitsLeft(size: nat)
    requires 3 < size <= 35
    ensures size == 35 ==> Pow2(8 * (35 - size)) == 1
    ensures size == 34 ==> Pow2(8 * (35 - size)) == 0x100
    ensures size == 33 ==> Pow2(8 * (35 - size)) == 0x1_0000
    ensures size <= 32 ==> Pow2(8 * (35 - size)) >= EXPONENT
  {
    Pow2Small();
    Pow2Zero();
    if size <= 32 {
      Pow2Grows(24, 8 * (35 - size));
    }
  }

  /** Assign a number of one limb. */
  method Assign(a: BaseUint, x: Limb)
    requires a.pn.Length > 0
    modifies a.pn
    ensures a.Value() == x
  {
    a.SetZero();
    ghost var was := a.pn[..];
    ValUpdate(was, 0, x);
    Pow2Zero();
    a.pn[0] := x;
    assert a.pn[..] == was[0 := x];
    hide Val, Pow2;
  }

  /** Set a number from the compact format, telling about a negative or too large value. */
  method SetCompact(a: BaseUint, nCompact: nat) returns (fNegative: bool, fOverflow: bool)
    requires a.pn.Length == 8 && nCompact < B
    modifies a.pn
    ensures a.Value() == Decoded(nCompact) % Pow2(256)
    ensures fNegative <==> Decoded(nCompact) != 0 && SignBit(nCompact)
    ensures fOverflow <==> Decoded(nCompact) >= Pow2(256)
  {
    hide Val, Pow2;
    var nSize := nCompact / EXPONENT;
    var nWord: Limb := nCompact % SIGN;
    OverflowExact(nWord, nSize);
    if nSize <= 3 {
      ScaledDown(nWord, nSize);
      nWord := nWord / Pow2(8 * (3 - nSize));
      Assign(a, nWord);
      Pow2Small();
      Pow2Grows(24, 256);
      RemainderUnique(nWord, 0, Pow2(256), nWord);
    } else {
      Assign(a, nWord);
      a.ShiftLeft(8 * (nSize - 3));
      ScaledZero(nWord, nSize);
    }
    fNegative := nWord != 0 && nCompact / SIGN % 2 == 1;
    fOverflow := nWord != 0 && (nSize > 34 || (nWord > 0xff && nSize > 33) || (nWord > 0xffff && nSize > 32));
  }

  lemma ScaledDown(word: nat, size: nat)
    requires size <= 3
    ensures 0 <= word / Pow2(8 * (3 - size)) <= word
  {
    hide Pow2;
    var p := Pow2(8 * (3 - size));
    DivMod(word, p);
    var q := word / p;
    assert q >= 0;
    MulMono(1, p, q);
  }

  lemma ScaledZero(word: nat, size: nat)
    requires size > 3
    ensures Scaled(word, size) == 0 <==> word == 0
  {
    hide Pow2;
    var p := Pow2(8 * (size - 3));
    if word > 0 {
      MulMono(1, word, p);
    } else {
      assert 0 * p == 0;
    }
  }

  /** The low 64 bits. */
  method GetLow64(a: BaseUint) returns (r: nat)
    requires a.pn.Length >= 2
    ensures r == a.Value() % (B * B)
  {
    var s := a.pn[..];
    ghost var high := Val(s[1..][1..]);
    assert Val(s) == s[0] + B * Val(s[1..]) && Val(s[1..]) == s[1] + B * high;
    r := s[0] + B * s[1];
    RemainderUnique(r, high, B * B, Val(s));
  }

  /** The compact format of a number: the largest compact value not above it. */
  method GetCompact(a: BaseUint, fNegative: bool) returns (nCompact: nat)
    requires a.pn.Length == 8
    ensures Decoded(nCompact) <= a.Value() && nCompact < B
    ensures forall c: nat :: Decoded(c) <= a.Value() ==> Decoded(c) <= Decoded(nCompact)
    ensures SignBit(nCompact) <==> fNegative && Word(nCompact) != 0
  {
    hide Val, Pow2, Decoded, Raw;
    var n := a.Bits();
    ghost var x := a.Value();
    RawFits(x, n);
    EncodedParts(x, n);
    var nSize := (n + 7) / 8;
    var raw := HighBytes(a, nSize, n);
    if raw >= SIGN {
      raw := raw / 256;
      nSize := nSize + 1;
    }
    nCompact := nSize * EXPONENT + raw;
    assert nCompact == Encoded(x, n);
    EncodedValue(x, n);
    BestOfAll(x, n);
    if fNegative && nCompact % SIGN != 0 {
      SignAside(nCompact);
      nCompact := nCompact + SIGN;
    }
  }

  lemma BestOfAll(x: nat, n: nat)
    requires BitLength(x, n)
    ensures Encoded(x, n) >= 0 && Decoded(Encoded(x, n)) <= x
    ensures forall c: nat :: Decoded(c) <= x ==> Decoded(c) <= Decoded(Encoded(x, n))
  {
    hide Decoded, Encoded, BitLength;
    EncodedAtMost(x, n);
    forall c: nat | Decoded(c) <= x
      ensures Decoded(c) <= Decoded(Encoded(x, n))
    {
      EncodedIsBest(x, n, c);
    }
  }

  lemma EncodedAtMost(x: nat, n: nat)
    requires BitLength(x, n)
    ensures Encoded(x, n) >= 0 && Decoded(Encoded(x, n)) <= x
  {
    hide Pow2, Floor, Encoded;
    EncodedValue(x, n);
    var e := Size(Encoded(x, n));
    if e > 3 {
      FloorIs(x, Pow2(8 * (e - 3)));
    }
  }

  /** The sign bit does not touch mantissa and exponent. */
  lemma SignAside(c: nat)
    requires !SignBit(c)
    ensures Decoded(c + SIGN) == Decoded(c) && SignBit(c + SIGN) && Word(c + SIGN) == Word(c) && c + SIGN < (Size(c) + 1) * EXPONENT
  {
    hide Scaled;
    var k, w := c / SIGN / 2, c % SIGN;
    HalfSteps(c);
    PartsOf(k, w);
    PartsOf(k, SIGN + w);
  }

  lemma HalfSteps(c: nat)
    requires !SignBit(c)
    ensures c == EXPONENT * (c / SIGN / 2) + c % SIGN
  {
    DivMod(c, SIGN);
    DivMod(c / SIGN, 2);
  }

  /** Exponent, sign bit and mantissa of a number in parts. */
  lemma PartsOf(k: nat, low: nat)
    requires low < EXPONENT
    ensures var c := EXPONENT * k + low; Size(c) == k && Word(c) == low % SIGN && (SignBit(c) <==> low >= SIGN)
  {
    var c, bit := EXPONENT * k + low, if low >= SIGN then 1 else 0;
    RemainderUnique(low, k, EXPONENT, c);
    RemainderUnique(low - SIGN * bit, 2 * k + bit, SIGN, c);
    RemainderUnique(low - SIGN * bit, bit, SIGN, low);
    RemainderUnique(bit, k, 2, 2 * k + bit);
  }

  /** The three highest bytes of a number, moved into place. */
  method HighBytes(a: BaseUint, size: nat, ghost n: nat) returns (raw: nat)
    requires a.pn.Length == 8 && BitLength(a.Value(), n) && size == ByteLength(n)
    ensures raw == Raw(a.Value(), size)
  {
    hide Val, Pow2;
    RawFits(a.Value(), n);
    if size <= 3 {
      Pow2Grows(n, 24);
      Pow2Small();
      var low := GetLow64(a);
      RemainderUnique(a.Value(), 0, B * B, a.Value());
      raw := low * Pow2(8 * (3 - size));
    } else {
      var bn := new BaseUint.Copy(a);
      bn.ShiftRight(8 * (size - 3));
      RemainderUnique(bn.Value(), 0, B * B, bn.Value());
      raw := GetLow64(bn);
    }
  }
}
