/**
 Unsigned integers of a fixed number of 32-bit limbs, least significant first, and their operations
 on the limbs in place. A 256-bit number has eight limbs; nothing depends on that but the compact
 format.
 */
module ArithUint256 {
  import opened Powers
  import opened Products

  const B: nat := 0x1_0000_0000

  type Limb = x: nat | x < B

  /** The number that limbs stand for. */
  function Val(s: seq<Limb>): (v: nat) { if s == [] then 0 else s[0] + B * Val(s[1..]) }

  lemma BaseIsPow2()
    ensures Pow2(32) == B
  {
    assert Pow2(8) == 256;
    Pow2Adds(8, 8);
    Pow2Adds(16, 16);
  }

  lemma NextPower(i: nat)
    ensures Pow2(32 * (i + 1)) == B * Pow2(32 * i)
  {
    BaseIsPow2();
    Pow2Adds(32 * i, 32);
  }

  // --- limbs ---------------------------------------------------------------------------------------

  lemma {:induction false} ValSnoc(s: seq<Limb>, x: Limb)
    ensures Val(s + [x]) == Val(s) + x * Pow2(32 * |s|)
    decreases |s|
  {
    hide Pow2;
    if s == [] {
      assert Val([x]) == x + B * Val([x][1..]);
      Pow2Zero();
    } else {
      assert (s + [x])[1..] == s[1..] + [x];
      ValSnoc(s[1..], x);
      NextPower(|s| - 1);
      MulSwap(B, x, Pow2(32 * (|s| - 1)));
      assert B * (Val(s[1..]) + x * Pow2(32 * (|s| - 1))) == B * Val(s[1..]) + B * (x * Pow2(32 * (|s| - 1)));
    }
  }

  lemma Pow2Zero()
    ensures Pow2(0) == 1
  {
  }

  lemma {:induction false} ValBound(s: seq<Limb>)
    ensures Val(s) < Pow2(32 * |s|)
    decreases |s|
  {
    if s != [] {
      ValBound(s[1..]);
      NextPower(|s| - 1);
    }
  }

  /** One more limb of a longer prefix. */
  lemma ValNext(s: seq<Limb>, i: nat)
    requires i < |s|
    ensures Val(s[..i + 1]) == Val(s[..i]) + s[i] * Pow2(32 * i)
  {
    assert s[..i + 1] == s[..i] + [s[i]];
    ValSnoc(s[..i], s[i]);
  }

  lemma {:induction false} ValConcat(s: seq<Limb>, t: seq<Limb>)
    ensures Val(s + t) == Val(s) + Val(t) * Pow2(32 * |s|)
    decreases |t|
  {
    hide Pow2, Val;
    if t == [] {
      assert s + t == s;
      assert Val(t) == 0 by {
        ValEmpty();
      }
    } else {
      var last := |t| - 1;
      ValConcat(s, t[..last]);
      assert s + t == (s + t[..last]) + [t[last]];
      ValSnoc(s + t[..last], t[last]);
      ValSnoc(t[..last], t[last]);
      assert t == t[..last] + [t[last]];
      Pow2Adds(32 * |s|, 32 * last);
      var p, q := Pow2(32 * |s|), Pow2(32 * last);
      MulSum(Val(t[..last]), t[last] * q, p);
      MulSwap(t[last], p, q);
      assert (t[last] * q) * p == p * (t[last] * q);
    }
  }

  lemma ValEmpty()
    ensures Val([]) == 0
  {
  }

  /** A limb and a carry hold a sum. */
  lemma Spread(n: nat, p: nat)
    ensures (n % B) * p + (n / B) * (B * p) == n * p
  {
    assert n == B * (n / B) + n % B;
    MulSum(B * (n / B), n % B, p);
    MulSwap(n / B, B, p);
    assert (B * (n / B)) * p == B * ((n / B) * p);
  }

  /** One limb of an addition: what is done and what is carried add up. */
  lemma AddStep(done: nat, carry: nat, p: nat, a: nat, b: nat, x: nat, y: nat)
    requires done + carry * p == a + b
    ensures var n := carry + x + y;
            done + (n % B) * p + (n / B) * (B * p) == (a + x * p) + (b + y * p)
  {
    Spread(carry + x + y, p);
    MulSum(carry, x, p);
    MulSum(carry + x, y, p);
  }

  /** The complement of every limb. */
  lemma {:induction false} ValComplement(s: seq<Limb>, t: seq<Limb>)
    requires |s| == |t| && forall i :: 0 <= i < |s| ==> t[i] == B - 1 - s[i]
    ensures Val(s) + Val(t) == Pow2(32 * |s|) - 1
    decreases |s|
  {
    if s == [] {
      Pow2Zero();
    } else {
      ValComplement(s[1..], t[1..]);
      NextPower(|s| - 1);
      assert B * Val(s[1..]) + B * Val(t[1..]) == B * (Val(s[1..]) + Val(t[1..]));
    }
  }

  class BaseUint {
    const pn: array<Limb>

    function Value(): nat
      reads pn
    {
      Val(pn[..])
    }

    /** One more than the largest value. */
    ghost function Modulus(): nat { Pow2(32 * pn.Length) }

    constructor Zero(width: nat)
      ensures fresh(pn) && pn.Length == width && Value() == 0
    {
      pn := new Limb[width](_ => 0);
      new;
      AllZero(pn[..]);
    }

    constructor Copy(b: BaseUint)
      ensures fresh(pn) && pn.Length == b.pn.Length && pn[..] == b.pn[..]
    {
      pn := new Limb[b.pn.Length](i requires 0 <= i < b.pn.Length reads b.pn => b.pn[i]);
      new;
      assert pn[..] == b.pn[..];
    }

    /** Add in place; also right when a number is added to itself. */
    method Add(b: BaseUint)
      requires b.pn.Length == pn.Length
      modifies pn
      ensures Value() == (old(Value()) + old(b.Value())) % Modulus()
    {
      hide Val, Pow2;
      ghost var a0, b0 := pn[..], b.pn[..];
      var carry: nat := 0;
      ValEmpty();
      for i := 0 to pn.Length
        invariant carry <= 1
        invariant Val(pn[..i]) + carry * Pow2(32 * i) == Val(a0[..i]) + Val(b0[..i])
        invariant forall k :: i <= k < pn.Length ==> pn[k] == a0[k] && b.pn[k] == b0[k]
      {
        ghost var before := pn[..i];
        ghost var p := Pow2(32 * i);
        var n := carry + pn[i] + b.pn[i];
        AddStep(Val(before), carry, p, Val(a0[..i]), Val(b0[..i]), a0[i], b0[i]);
        ValNext(a0, i);
        ValNext(b0, i);
        NextPower(i);
        pn[i] := n % B;
        carry := n / B;
        ValNext(pn[..], i);
        assert pn[..][..i] == before && pn[..][..i + 1] == pn[..i + 1];
      }
      assert pn[..pn.Length] == pn[..] && a0[..pn.Length] == a0 && b0[..pn.Length] == b0;
      ValBound(pn[..]);
      assert carry * Modulus() == Modulus() * carry;
      RemainderUnique(Val(pn[..]), carry, Modulus(), Val(a0) + Val(b0));
    }

    /** Add one in place. */
    method Increment()
      requires pn.Length > 0
      modifies pn
      ensures Value() == (old(Value()) + 1) % Modulus()
    {
      ghost var a0 := pn[..];
      var i := 0;
      pn[0] := (pn[0] + 1) % B;
      while pn[i] == 0 && i < pn.Length - 1
        invariant 0 <= i < pn.Length && pn[i] == (a0[i] + 1) % B
        invariant forall k :: 0 <= k < i ==> pn[k] == 0 && a0[k] == B - 1
        invariant forall k :: i < k < pn.Length ==> pn[k] == a0[k]
        decreases pn.Length - i
      {
        i := i + 1;
        pn[i] := (pn[i] + 1) % B;
      }
      CarryDone(a0, pn[..], i);
    }

    /** Subtract one in place. */
    method Decrement()
      requires pn.Length > 0
      modifies pn
      ensures Value() == (old(Value()) - 1) % Modulus()
    {
      hide Val, Pow2;
      ghost var a0 := pn[..];
      ValBound(a0);
      var i := 0;
      pn[0] := (pn[0] - 1) % B;
      while pn[i] == B - 1 && i < pn.Length - 1
        invariant 0 <= i < pn.Length && pn[i] == (a0[i] - 1) % B
        invariant forall k :: 0 <= k < i ==> pn[k] == B - 1 && a0[k] == 0
        invariant forall k :: i < k < pn.Length ==> pn[k] == a0[k]
        decreases pn.Length - i
      {
        OneLess(a0[i]);
        i := i + 1;
        pn[i] := (pn[i] - 1) % B;
      }
      OneLess(a0[i]);
      CarryDone(pn[..], a0, i);
      ValBound(pn[..]);
      BackOne(Val(pn[..]), Val(a0), Modulus());
    }

    /** The negative of a number, modulo the range. */
    method Negated() returns (r: BaseUint)
      requires pn.Length > 0
      ensures fresh(r) && fresh(r.pn) && r.pn.Length == pn.Length && r.Value() == (0 - Value()) % Modulus()
    {
      r := new BaseUint.Zero(pn.Length);
      for i := 0 to pn.Length
        invariant forall k :: 0 <= k < i ==> r.pn[k] == B - 1 - pn[k]
      {
        r.pn[i] := B - 1 - pn[i];
      }
      ValComplement(pn[..], r.pn[..]);
      ghost var v := r.Value();
      r.Increment();
      ValBound(pn[..]);
      assert v + 1 == Modulus() - Value();
      NegMod(Value(), Modulus());
    }

    /** Subtract in place, modulo the range. */
    method Subtract(b: BaseUint)
      requires pn.Length == b.pn.Length > 0
      modifies pn
      ensures Value() == (old(Value()) - old(b.Value())) % Modulus()
    {
      hide Val, Pow2;
      ghost var x, y, m := Val(pn[..]), Val(b.pn[..]), Modulus();
      ValBound(pn[..]);
      ValBound(b.pn[..]);
      SubMod(x, y, m);
      var n := b.Negated();
      Add(n);
    }

    /** Numeric order, decided at the highest limb that differs. */
    method CompareTo(b: BaseUint) returns (c: int)
      requires b.pn.Length == pn.Length
      ensures c == if Value() < b.Value() then -1 else if Value() > b.Value() then 1 else 0
    {
      var i := pn.Length;
      while i > 0
        invariant 0 <= i <= pn.Length && pn[i..] == b.pn[i..]
      {
        i := i - 1;
        if pn[i] < b.pn[i] {
          HighestDiffers(pn[..], b.pn[..], i);
          return -1;
        }
        if pn[i] > b.pn[i] {
          HighestDiffers(b.pn[..], pn[..], i);
          return 1;
        }
        assert pn[i..] == [pn[i]] + pn[i + 1..] && b.pn[i..] == [b.pn[i]] + b.pn[i + 1..];
      }
      assert pn[0..] == pn[..] && b.pn[0..] == b.pn[..];
      c := 0;
    }

    /** Multiply by a single limb in place. */
    method MultiplySmall(b32: Limb)
      modifies pn
      ensures Value() == (old(Value()) * b32) % Modulus()
    {
      hide Val, Pow2;
      ghost var a0 := pn[..];
      var carry: nat := 0;
      ValEmpty();
      for i := 0 to pn.Length
        invariant carry < B
        invariant Val(pn[..i]) + carry * Pow2(32 * i) == Val(a0[..i]) * b32
        invariant forall k :: i <= k < pn.Length ==> pn[k] == a0[k]
      {
        ghost var before := pn[..i];
        MulCarry(carry, b32, pn[i], 0);
        var n: nat := carry + b32 * pn[i];
        MulStep(Val(before), carry, Pow2(32 * i), Val(a0[..i]), a0[i], b32);
        ValNext(a0, i);
        NextPower(i);
        pn[i] := n % B;
        carry := n / B;
        ValNext(pn[..], i);
        assert pn[..][..i] == before && pn[..][..i + 1] == pn[..i + 1];
      }
      assert pn[..pn.Length] == pn[..] && a0[..pn.Length] == a0;
      ValBound(pn[..]);
      assert carry * Modulus() == Modulus() * carry;
      RemainderUnique(Val(pn[..]), carry, Modulus(), Val(a0) * b32);
    }

    /** Add a limb times another number, moved up by j limbs; what does not fit is dropped. */
    method AddRow(aj: Limb, j: nat, b: BaseUint) returns (ghost dropped: nat)
      requires b.pn.Length == pn.Length && j < pn.Length
      requires b.pn == pn ==> forall k :: 0 <= k < pn.Length ==> pn[k] == 0
      modifies pn
      ensures b.pn != pn ==> Value() + dropped * Modulus() == old(Value()) + aj * Pow2(32 * j) * b.Value()
      ensures b.pn == pn ==> forall k :: 0 <= k < pn.Length ==> pn[k] == 0
    {
      hide Val, Pow2, RowSoFar;
      ghost var v0, bs := Val(pn[..]), b.pn[..];
      var carry: nat := 0;
      var i := 0;
      RowStart(pn[..], aj, j, bs);
      while i + j < pn.Length
        invariant 0 <= i <= pn.Length - j && carry < B
        invariant b.pn != pn ==> b.pn[..] == bs && RowSoFar(pn[..], carry, aj, j, i, v0, bs)
        invariant b.pn == pn ==> carry == 0 && forall k :: 0 <= k < pn.Length ==> pn[k] == 0
      {
        ghost var before := pn[..];
        MulCarry(carry, aj, b.pn[i], pn[i + j]);
        var n: nat := carry + pn[i + j] + aj * b.pn[i];
        if b.pn != pn {
          RowStep(before, carry, aj, j, i, v0, bs, n);
        } else {
          TimesZero(aj);
        }
        var limb: Limb := n % B;
        pn[i + j] := limb;
        assert pn[..] == before[i + j := limb];
        carry := n / B;
        i := i + 1;
      }
      dropped := 0;
      if b.pn != pn {
        dropped := RowDone(pn[..], carry, aj, j, v0, bs);
      }
    }

    method SetZero()
      modifies pn
      ensures Value() == 0 && forall k :: 0 <= k < pn.Length ==> pn[k] == 0
    {
      for i := 0 to pn.Length
        invariant forall k :: 0 <= k < i ==> pn[k] == 0
      {
        pn[i] := 0;
      }
      AllZero(pn[..]);
    }

    /** Multiply in place, modulo the range. Multiplying a number by itself in place gives zero, as it is cleared before
        it is read; that is the product exactly if the lower half of its bits is clear. */
    method Multiply(b: BaseUint)
      requires b.pn.Length == pn.Length
      modifies pn
      ensures b.pn != pn ==> Value() == (old(Value()) * old(b.Value())) % Modulus()
      ensures b.pn == pn ==> Value() == 0
      ensures Value() == (old(Value()) * old(b.Value())) % Modulus() <==> b.pn != pn || old(Value()) % Pow2(16 * pn.Length) == 0
    {
      hide Val, Pow2, ProductSoFar;
      var a := pn[..];
      ghost var vb := b.Value();
      SetZero();
      ProductStart(a, vb, Modulus());
      ghost var dropped: nat := 0;
      for j := 0 to pn.Length
        invariant b.pn != pn ==> b.Value() == vb && ProductSoFar(Val(pn[..]), dropped, a, j, vb, Modulus())
        invariant b.pn == pn ==> forall k :: 0 <= k < pn.Length ==> pn[k] == 0
      {
        ghost var v := Val(pn[..]);
        ghost var more := AddRow(a[j], j, b);
        if b.pn != pn {
          ProductStep(v, dropped, a, j, vb, Modulus(), Val(pn[..]), more);
          dropped := dropped + more;
        }
      }
      if b.pn != pn {
        ValBound(pn[..]);
        ProductDone(Val(pn[..]), dropped, a, vb, Modulus());
      } else {
        AllZero(pn[..]);
        SquareVanishesIff(Val(a), 16 * pn.Length);
      }
    }

    /** Set more bits of a limb. */
    method SetLimb(j: nat, x: Limb)
      requires j < pn.Length && Or(pn[j], x) == pn[j] + x < B
      modifies pn
      ensures pn[..] == old(pn[..])[j := old(pn[j]) + x] && Value() == old(Value()) + x * Pow2(32 * j)
    {
      hide Val, Pow2, Or;
      ghost var was := pn[..];
      ValUpdate(was, j, pn[j] + x);
      MulSum(pn[j], x, Pow2(32 * j));
      pn[j] := Or(pn[j], x);
      assert pn[..] == was[j := was[j] + x];
    }

    /** Or the two parts of a shifted limb into their places, as far as these exist. */
    method SpreadLimb(x: Limb, j: nat, bits: nat)
      requires bits < 32
      requires forall m :: j < m < pn.Length ==> pn[m] == 0
      requires j < pn.Length ==> pn[j] < Pow2(bits)
      modifies pn
      ensures Value() == old(Value()) + (if j + 1 < pn.Length then Hi(x, bits) * Pow2(32 * (j + 1)) else 0)
                                      + (if j < pn.Length then Lo(x, bits) * Pow2(32 * j) else 0)
      ensures forall m :: j + 1 < m < pn.Length ==> pn[m] == 0
      ensures j + 1 < pn.Length ==> pn[j + 1] < Pow2(bits)
    {
      hide Val, Pow2, Hi, Lo;
      LimbShift(x, bits);
      var hi: Limb := Hi(x, bits);
      var lo: Limb := Lo(x, bits);
      if j + 1 < pn.Length && bits != 0 {
        SetLimb(j + 1, hi);
      }
      if j < pn.Length {
        OrLow(pn[j], x, bits);
        SetLimb(j, lo);
      }
    }

    /** Shift left in place: multiply by a power of two, modulo the range. */
    method ShiftLeft(shift: nat)
      modifies pn
      ensures Value() == (old(Value()) * Pow2(shift)) % Modulus()
    {
      hide Val, Pow2, ShiftedUp, Hi, Lo;
      var a := pn[..];
      SetZero();
      var k, bits := shift / 32, shift % 32;
      ghost var dropped: nat := 0;
      ShiftedUpStart(a, k, bits, Modulus());
      for i := 0 to pn.Length
        invariant ShiftedUp(Val(pn[..]), dropped, a, i, k, bits, Modulus())
        invariant forall m :: i + k < m < pn.Length ==> pn[m] == 0
        invariant i + k < pn.Length ==> pn[i + k] < Pow2(bits)
      {
        ghost var v := Val(pn[..]);
        SpreadLimb(a[i], i + k, bits);
        dropped := ShiftedUpStep(v, dropped, a, i, k, bits, pn.Length, Val(pn[..]));
      }
      ValBound(pn[..]);
      assert shift == 32 * k + bits;
      ShiftedUpDone(Val(pn[..]), dropped, a, k, bits, Modulus());
    }

    /** Shift right in place: divide by a power of two. */
    method ShiftRight(shift: nat)
      modifies pn
      ensures Value() == old(Value()) / Pow2(shift)
    {
      hide Val, Pow2, ShiftedDown, Hi, Lo, Or;
      var a := pn[..];
      SetZero();
      var k, bits := shift / 32, shift % 32;
      ghost var rem: nat := 0;
      ShiftedDownStart(a, k, bits);
      for i := 0 to pn.Length
        invariant ShiftedDown(Val(pn[..]), rem, a, i, k, bits)
        invariant i <= k ==> Val(pn[..]) == 0
        invariant forall m :: 0 <= m < pn.Length && i - k <= m ==> pn[m] == 0
        invariant i - k - 1 >= 0 ==> pn[i - k - 1] < Pow2(32 - bits)
      {
        ghost var v := Val(pn[..]);
        DownLimb(a[i], bits);
        var up: Limb := Up(a[i], bits);
        var down: Limb := a[i] / Pow2(bits);
        if i - k - 1 >= 0 && bits != 0 {
          OrLow(pn[i - k - 1], a[i], 32 - bits);
          SetLimb(i - k - 1, up);
        }
        if i - k >= 0 {
          OrZero(down);
          SetLimb(i - k, down);
        }
        rem := ShiftedDownStep(v, rem, a, i, k, bits, Val(pn[..]));
      }
      assert shift == 32 * k + bits;
      ShiftedDownDone(Val(pn[..]), rem, a, k, bits);
    }

    /** The number of bits up to the highest one set. */
    method Bits() returns (n: nat)
      ensures Value() < Pow2(n) && (n > 0 ==> Pow2(n - 1) <= Value()) && n <= 32 * pn.Length
    {
      hide Val, Pow2;
      var pos := pn.Length;
      while pos > 0
        invariant 0 <= pos <= pn.Length && forall k :: pos <= k < pn.Length ==> pn[k] == 0
      {
        pos := pos - 1;
        if pn[pos] != 0 {
          BaseIsPow2();
          var bits := 31;
          while bits > 0
            invariant 0 <= bits <= 31 && pn[pos] < Pow2(bits + 1)
          {
            TopBit(pn[pos], bits);
            if pn[pos] / Pow2(bits) % 2 == 1 {
              HighestBit(pn[..], pos, bits);
              return 32 * pos + bits + 1;
            }
            bits := bits - 1;
          }
          Pow2Zero();
          Pow2One();
          HighestBit(pn[..], pos, 0);
          return 32 * pos + 1;
        }
      }
      AllZero(pn[..]);
      Pow2Zero();
      n := 0;
    }

    /** Set a bit; all bits up to it are clear. */
    method SetBit(s: nat)
      requires s / 32 < pn.Length && LowClear(pn[..], s + 1)
      modifies pn
      ensures Value() == old(Value()) + Pow2(s) && LowClear(pn[..], s)
    {
      hide Val, Pow2, Or, LowClear;
      var limb := BitLimb(pn[..], s);
      ghost var was := pn[..];
      SetLimb(s / 32, limb);
      BitSetClear(was, s, limb);
    }

    /** Decide one bit of a quotient: subtract the aligned divisor if it fits. */
    method QuotientBit(num: BaseUint, div: BaseUint, shift: nat, ghost v: nat, ghost d: nat)
      requires div.pn.Length == num.pn.Length == pn.Length > 0 && div.pn != num.pn && pn != num.pn && pn != div.pn
      requires Dividing(v, d, Value(), num.Value(), shift + 1) && div.Value() == d * Pow2(shift)
      requires LowClear(pn[..], shift + 1) && shift / 32 < pn.Length
      modifies pn, num.pn
      ensures Dividing(v, d, Value(), num.Value(), shift) && LowClear(pn[..], shift)
    {
      hide Val, Pow2, LowClear, Dividing;
      ghost var q, r := Val(pn[..]), num.Value();
      DivideStep(v, d, q, r, shift);
      var c := num.CompareTo(div);
      if c >= 0 {
        ValBound(num.pn[..]);
        NoBorrow(r, d * Pow2(shift), num.Modulus());
        num.Subtract(div);
        SetBit(shift);
      } else {
        StaysClear(pn[..], shift);
      }
    }

    /** Divide in place by shifting and subtracting: the quotient, rounded down. Division by zero fails, after the
        number has been cleared. */
    method Divide(b: BaseUint) returns (ok: bool)
      requires b.pn.Length == pn.Length > 0
      modifies pn
      ensures ok <==> old(b.Value()) != 0
      ensures ok ==> Value() == old(Value()) / old(b.Value())
      ensures !ok ==> Value() == 0
    {
      hide Val, Pow2, LowClear, Dividing;
      ghost var v, d := Val(pn[..]), Val(b.pn[..]);
      var div := new BaseUint.Copy(b);
      var num := new BaseUint.Copy(this);
      SetZero();
      var num_bits := num.Bits();
      var div_bits := div.Bits();
      Pow2Zero();
      if div_bits == 0 {
        return false;
      }
      ok := true;
      if div_bits > num_bits {
        Pow2Grows(num_bits, div_bits - 1);
        SmallQuotient(v, d);
        return;
      }
      var shift: int := num_bits - div_bits;
      div.ShiftLeft(shift);
      ClearIsLow(pn[..], shift + 1);
      DivideStart(v, d, num_bits, div_bits, pn.Length, div.Value());
      while shift >= 0
        invariant -1 <= shift < num_bits
        invariant Dividing(v, d, Val(pn[..]), num.Value(), shift + 1) && (shift >= 0 ==> div.Value() == d * Pow2(shift))
        invariant LowClear(pn[..], shift + 1)
        invariant div.pn.Length == num.pn.Length == pn.Length && fresh(div.pn) && fresh(num.pn) && div.pn != num.pn
      {
        QuotientBit(num, div, shift, v, d);
        HalveDivisor(d, shift);
        div.ShiftRight(1);
        shift := shift - 1;
      }
      DivideDone(v, d, Val(pn[..]), num.Value());
    }
  }

  /** Long division under way: the quotient so far, and a remainder below the divisor times a power of two. */
  ghost predicate Dividing(v: nat, d: nat, q: nat, r: nat, s: nat) { v == q * d + r && r < d * Pow2(s) }

  lemma SmallQuotient(v: nat, d: nat)
    requires v < d
    ensures v / d == 0
  {
    RemainderUnique(v, 0, d, v);
  }

  lemma ClearIsLow(s: seq<Limb>, n: nat)
    requires forall k :: 0 <= k < |s| ==> s[k] == 0
    ensures LowClear(s, n)
  {
    if n / 32 < |s| {
      RemainderUnique(0, 0, Pow2(n % 32), 0);
    }
  }

  /** Once aligned, the divisor has not lost any bit, and twice the divisor is more than the number. */
  lemma DivideStart(v: nat, d: nat, num_bits: nat, div_bits: nat, w: nat, div: nat)
    requires 0 < div_bits <= num_bits <= 32 * w
    requires v < Pow2(num_bits) && Pow2(div_bits - 1) <= d < Pow2(div_bits)
    requires div == (d * Pow2(num_bits - div_bits)) % Pow2(32 * w)
    ensures div == d * Pow2(num_bits - div_bits)
    ensures Dividing(v, d, 0, v, num_bits - div_bits + 1)
  {
    hide Pow2;
    var shift := num_bits - div_bits;
    var p := Pow2(shift);
    Pow2Adds(div_bits, shift);
    Pow2Adds(div_bits - 1, shift + 1);
    Pow2Double(shift);
    Pow2Grows(num_bits, 32 * w);
    assert div_bits + shift == num_bits && div_bits - 1 + (shift + 1) == num_bits;
    MulLess(d, Pow2(div_bits), p);
    RemainderUnique(d * p, 0, Pow2(32 * w), d * p);
    MulMono(Pow2(div_bits - 1), d, 2 * p);
  }

  /** One bit of the quotient. */
  lemma DivideStep(v: nat, d: nat, q: nat, r: nat, s: nat)
    requires Dividing(v, d, q, r, s + 1)
    ensures r >= d * Pow2(s) ==> Dividing(v, d, q + Pow2(s), r - d * Pow2(s), s)
    ensures r < d * Pow2(s) ==> Dividing(v, d, q, r, s)
  {
    hide Pow2;
    var p := Pow2(s);
    Pow2Double(s);
    assert d * (2 * p) == d * p + d * p;
    MulSum(q, p, d);
    assert p * d == d * p;
  }

  lemma NoBorrow(a: nat, b: nat, m: nat)
    requires b <= a < m
    ensures (a - b) % m == a - b
  {
    RemainderUnique(a - b, 0, m, a - b);
  }

  lemma HalveDivisor(d: nat, s: nat)
    ensures s > 0 ==> (d * Pow2(s)) / Pow2(1) == d * Pow2(s - 1)
  {
    hide Pow2;
    Pow2One();
    if s > 0 {
      var p := Pow2(s - 1);
      Pow2Double(s - 1);
      assert d * (2 * p) == 2 * (d * p);
    }
  }

  lemma DivideDone(v: nat, d: nat, q: nat, r: nat)
    requires Dividing(v, d, q, r, 0)
    ensures d > 0 && q == v / d && r == v % d
  {
    Pow2Zero();
    assert q * d == d * q;
    RemainderUnique(r, q, d, v);
  }

  lemma Pow2One()
    ensures Pow2(1) == 2
  {
    Pow2Zero();
  }

  /** What one probe for the highest bit finds out. */
  lemma TopBit(x: nat, bits: nat)
    requires x < Pow2(bits + 1)
    ensures x / Pow2(bits) % 2 == 1 <==> x >= Pow2(bits)
  {
    var p := Pow2(bits);
    assert Pow2(bits + 1) == 2 * p;
    hide Pow2;
    DivMod(x, p);
    var q := x / p;
    QuotientLess(x, p, 2);
    assert q == 0 || q == 1;
  }

  /** A number whose highest limb is at pos, with its highest bit at bits. */
  lemma HighestBit(s: seq<Limb>, pos: nat, bits: nat)
    requires pos < |s| && bits < 32 && Pow2(bits) <= s[pos] < Pow2(bits + 1) && forall k :: pos < k < |s| ==> s[k] == 0
    ensures Pow2(32 * pos + bits) <= Val(s) < Pow2(32 * pos + bits + 1)
  {
    hide Val, Pow2;
    ValSplit(s, pos);
    AllZero(s[pos + 1..]);
    ValBound(s[..pos]);
    Pow2Adds(32 * pos, bits);
    Pow2Adds(32 * pos, bits + 1);
    MulRange(Pow2(bits), s[pos], Pow2(bits + 1), Pow2(32 * pos));
  }

  lemma MulRange(lo: nat, x: nat, hi: nat, p: nat)
    requires lo <= x < hi && p > 0
    ensures p * lo <= x * p && x * p + p <= p * hi
  {
    assert lo * p <= x * p;
    MulLess(x, hi, p);
  }

  /** The bits below n are clear. */
  ghost predicate LowClear(s: seq<Limb>, n: nat) {
    && (forall m :: 0 <= m < n / 32 && m < |s| ==> s[m] == 0)
    && (n / 32 < |s| ==> s[n / 32] % Pow2(n % 32) == 0)
  }

  function BitOf(s: nat): nat { Pow2(s % 32) }

  /** The limb with a single bit set, which the limb at its place does not have. */
  method BitLimb(pn: seq<Limb>, s: nat) returns (limb: Limb)
    requires s / 32 < |pn| && LowClear(pn, s + 1)
    ensures limb == BitOf(s) && Or(pn[s / 32], limb) == pn[s / 32] + limb < B && limb * Pow2(32 * (s / 32)) == Pow2(s)
  {
    BitFits(pn[s / 32], s, pn);
    limb := BitOf(s);
  }

  lemma BitFits(x: Limb, s: nat, pn: seq<Limb>)
    requires s / 32 < |pn| && LowClear(pn, s + 1) && x == pn[s / 32]
    ensures BitOf(s) < B && Or(x, BitOf(s)) == x + BitOf(s) < B && BitOf(s) * Pow2(32 * (s / 32)) == Pow2(s)
  {
    hide Pow2, Or;
    var j, l := s % 32, s / 32;
    assert s == 32 * l + j;
    Pow2Adds(32 * l, j);
    BaseIsPow2();
    Pow2Double(j);
    Pow2Grows(j + 1, 32);
    var c := ClearAbove(pn, s);
    OrDisjoint(c, Pow2(j), j + 1);
    Pow2Adds(31 - j, j + 1);
    RoomForBit(c, Pow2(j), Pow2(31 - j));
  }

  lemma Pow2Double(j: nat)
    ensures Pow2(j + 1) == 2 * Pow2(j)
  {
  }

  /** The limb a bit goes to is a multiple of the next power. */
  lemma ClearAbove(pn: seq<Limb>, s: nat) returns (c: nat)
    requires s / 32 < |pn| && LowClear(pn, s + 1)
    ensures pn[s / 32] == c * Pow2(s % 32 + 1)
  {
    hide Pow2;
    if s % 32 == 31 {
      assert (s + 1) / 32 == s / 32 + 1;
      c := 0;
    } else {
      assert (s + 1) / 32 == s / 32 && (s + 1) % 32 == s % 32 + 1;
      var m := Pow2(s % 32 + 1);
      DivMod(pn[s / 32], m);
      c := pn[s / 32] / m;
    }
  }

  lemma RoomForBit(c: nat, p: nat, q: nat)
    requires p > 0 && q * (2 * p) == B && c * (2 * p) < B
    ensures c * (2 * p) + p < B
  {
    assert c >= q ==> c * (2 * p) >= q * (2 * p);
    MulLess(c, q, 2 * p);
  }

  lemma BitSetClear(pn: seq<Limb>, s: nat, limb: Limb)
    requires s / 32 < |pn| && LowClear(pn, s + 1) && limb == BitOf(s) && pn[s / 32] + limb < B
    ensures LowClear(pn[s / 32 := pn[s / 32] + limb], s)
  {
    hide Pow2;
    var c := ClearAbove(pn, s);
    var p := Pow2(s % 32);
    Pow2Double(s % 32);
    MultipleOf(2 * c + 1, p);
    assert pn[s / 32] + limb == (2 * c + 1) * p by {
      MulSum(2 * c, 1, p);
      assert c * (2 * p) == (2 * c) * p;
    }
    assert s / 32 <= (s + 1) / 32;
  }

  /** Without setting the bit, the bits below it are clear as well. */
  lemma StaysClear(pn: seq<Limb>, s: nat)
    requires LowClear(pn, s + 1)
    ensures LowClear(pn, s)
  {
    hide Pow2;
    assert s / 32 <= (s + 1) / 32;
    if s / 32 < |pn| {
      var c := ClearAbove(pn, s);
      var p := Pow2(s % 32);
      Pow2Double(s % 32);
      MultipleOf(2 * c, p);
      assert c * (2 * p) == (2 * c) * p;
    }
  }

  lemma MultipleOf(k: nat, p: nat)
    requires p > 0
    ensures (k * p) % p == 0
  {
    assert k * p == p * k;
    RemainderUnique(0, k, p, k * p);
  }

  lemma OrZero(x: nat)
    ensures Or(0, x) == x
  {
  }

  /** What a limb shifted right pushes into the limb below. */
  function Up(a: Limb, bits: nat): nat
    requires bits < 32
  {
    if bits == 0 then 0 else Lo(a, 32 - bits)
  }

  /** The two parts of a limb shifted right. */
  lemma DownLimb(a: Limb, bits: nat)
    requires bits < 32
    ensures a * Pow2(32 - bits) == (a / Pow2(bits)) * B + Up(a, bits)
    ensures 0 <= Up(a, bits) < B && 0 <= a / Pow2(bits) < Pow2(32 - bits) && a / Pow2(bits) < B
  {
    hide Pow2, Lo, Hi;
    BaseIsPow2();
    Pow2Zero();
    if bits == 0 {
    } else {
      LimbShift(a, 32 - bits);
      assert Hi(a, 32 - bits) == a / Pow2(bits) by {
        HiIs(a, 32 - bits);
      }
    }
  }

  lemma HiIs(a: Limb, s: nat)
    requires s < 32
    ensures Hi(a, s) == a / Pow2(32 - s)
  {
  }

  /** The first i limbs are shifted down by k limbs and some bits; rem fell off. */
  ghost predicate ShiftedDown(v: nat, rem: nat, a: seq<Limb>, i: nat, k: nat, bits: nat)
    requires i <= |a|
  {
    Val(a[..i]) == v * Pow2(32 * k + bits) + rem && rem < Pow2(32 * k + bits)
  }

  lemma ShiftedDownStart(a: seq<Limb>, k: nat, bits: nat)
    ensures ShiftedDown(0, 0, a, 0, k, bits)
  {
    ValEmpty();
  }

  lemma ShiftedDownStep(v: nat, rem: nat, a: seq<Limb>, i: nat, k: nat, bits: nat, v': nat) returns (rem': nat)
    requires i < |a| && bits < 32 && ShiftedDown(v, rem, a, i, k, bits) && (i <= k ==> v == 0)
    requires v' == v + (if i - k - 1 >= 0 then Up(a[i], bits) * Pow2(32 * (i - k - 1)) else 0)
                     + (if i - k >= 0 then (a[i] / Pow2(bits)) * Pow2(32 * (i - k)) else 0)
    ensures ShiftedDown(v', rem', a, i + 1, k, bits)
  {
    hide Val, Pow2, Up;
    ValNext(a, i);
    ValBound(a[..i]);
    if i < k {
      rem' := rem + a[i] * Pow2(32 * i);
      ValBound(a[..i + 1]);
      Pow2Grows(32 * (i + 1), 32 * k + bits);
    } else if i == k {
      rem' := SplitAtLimb(a[i], Val(a[..i]), k, bits);
      Pow2Zero();
    } else {
      rem' := rem;
      LimbDown(a[i], i, k, bits);
      MulSum(v, Up(a[i], bits) * Pow2(32 * (i - k - 1)) + (a[i] / Pow2(bits)) * Pow2(32 * (i - k)), Pow2(32 * k + bits));
    }
  }

  /** The limb that the shift cuts through. */
  lemma SplitAtLimb(x: Limb, low: nat, k: nat, bits: nat) returns (rem: nat)
    requires bits < 32 && low < Pow2(32 * k)
    ensures low + x * Pow2(32 * k) == (x / Pow2(bits)) * Pow2(32 * k + bits) + rem && rem < Pow2(32 * k + bits)
  {
    hide Pow2;
    var p, r := Pow2(32 * k), Pow2(bits);
    Pow2Adds(32 * k, bits);
    DivMod(x, r);
    rem := low + (x % r) * p;
    CutLimb(x / r, x % r, low, p, r);
  }

  lemma CutLimb(d: nat, m: nat, low: nat, p: nat, r: nat)
    requires low < p && m < r
    ensures low + (r * d + m) * p == d * (p * r) + (low + m * p) && low + m * p < p * r
  {
    MulSum(r * d, m, p);
    MulSwap(r, d, p);
    assert (r * d) * p == d * (p * r);
    MulLess(m, r, p);
    assert r * p == p * r;
  }

  /** A limb above the cut, shifted, in terms of its two parts. */
  lemma LimbDown(a: Limb, i: nat, k: nat, bits: nat)
    requires bits < 32 && i > k
    ensures (Up(a, bits) * Pow2(32 * (i - k - 1)) + (a / Pow2(bits)) * Pow2(32 * (i - k))) * Pow2(32 * k + bits) == a * Pow2(32 * i)
  {
    hide Pow2, Up;
    DownLimb(a, bits);
    var q, p, r := Pow2(32 - bits), Pow2(32 * (i - k - 1)), Pow2(32 * k + bits);
    NextPower(i - k - 1);
    assert 32 * (i - k - 1 + 1) == 32 * (i - k);
    assert Pow2(32 * i) == (q * p) * r by {
      Pow2Adds(32 - bits, 32 * (i - k - 1));
      Pow2Adds(32 - bits + 32 * (i - k - 1), 32 * k + bits);
      assert 32 - bits + 32 * (i - k - 1) + (32 * k + bits) == 32 * i;
    }
    DownProduct(a, q, a / Pow2(bits), Up(a, bits), p, r);
  }

  lemma DownProduct(a: nat, q: nat, d: nat, u: nat, p: nat, r: nat)
    requires a * q == d * B + u
    ensures (u * p + d * (B * p)) * r == a * ((q * p) * r)
  {
    MulAssoc(d, B, p);
    MulSum(d * B, u, p);
    assert u * p + d * (B * p) == (a * q) * p;
    MulAssoc(a, q, p);
    MulAssoc(a, q * p, r);
  }

  lemma ShiftedDownDone(v: nat, rem: nat, a: seq<Limb>, k: nat, bits: nat)
    requires ShiftedDown(v, rem, a, |a|, k, bits)
    ensures v == Val(a) / Pow2(32 * k + bits)
  {
    hide Val, Pow2;
    assert a[..|a|] == a;
    var m := Pow2(32 * k + bits);
    assert v * m == m * v;
    RemainderUnique(rem, v, m, Val(a));
  }

  /** Bitwise or. */
  function Or(x: nat, y: nat): (r: nat) {
    if x == 0 then y else if y == 0 then x
    else 2 * Or(x / 2, y / 2) + if x % 2 == 1 || y % 2 == 1 then 1 else 0
  }

  /** Without common bits, or is addition. */
  lemma {:induction false} OrDisjoint(k: nat, y: nat, s: nat)
    requires y < Pow2(s)
    ensures Or(k * Pow2(s), y) == k * Pow2(s) + y == Or(y, k * Pow2(s))
    decreases s
  {
    var x := k * Pow2(s);
    if s > 0 && x != 0 && y != 0 {
      var half := k * Pow2(s - 1);
      assert x == 2 * half by {
        MulSwap(k, 2, Pow2(s - 1));
      }
      OrDisjoint(k, y / 2, s - 1);
    }
  }

  /** What a limb shifted left pushes into the next limb, and what stays. */
  function Hi(a: Limb, s: nat): int
    requires s < 32
  {
    a / Pow2(32 - s)
  }

  function Lo(a: Limb, s: nat): nat { (a * Pow2(s)) % B }

  lemma LimbShift(a: Limb, s: nat)
    requires s < 32
    ensures a * Pow2(s) == Hi(a, s) * B + Lo(a, s) && 0 <= Hi(a, s) < Pow2(s) && Lo(a, s) == (a % Pow2(32 - s)) * Pow2(s)
    ensures Hi(a, s) < B && Lo(a, s) < B && (s == 0 ==> Hi(a, s) == 0)
  {
    hide Pow2;
    BaseIsPow2();
    Pow2Adds(32 - s, s);
    SplitShift(a, Pow2(32 - s), Pow2(s));
    Pow2Grows(s, 32);
    Pow2Zero();
  }

  /** Multiplying by r, where q times r is the base: the quotient by q moves up, the remainder stays. */
  lemma SplitShift(a: nat, q: nat, r: nat)
    requires q > 0 && r > 0 && q * r == B && a < B
    ensures a * r == (a / q) * B + (a % q) * r && a / q < r && (a * r) % B == (a % q) * r && (a % q) * r + r <= B
  {
    DivMod(a, q);
    var hi, low := a / q, a % q;
    MulSum(q * hi, low, r);
    MulAssoc(hi, q, r);
    MulLess(low, q, r);
    RemainderUnique(low * r, hi, B, a * r);
    QuotientLess(a, q, r);
  }

  /** The low part joins what the limb below pushed up. */
  lemma OrLow(y: nat, a: Limb, s: nat)
    requires s < 32 && y < Pow2(s)
    ensures Or(y, Lo(a, s)) == y + Lo(a, s) < B
  {
    hide Pow2, Or;
    LimbShift(a, s);
    BaseIsPow2();
    Pow2Adds(32 - s, s);
    SplitShift(a, Pow2(32 - s), Pow2(s));
    OrDisjoint(a % Pow2(32 - s), y, s);
  }

  /** The first i limbs are shifted up by k limbs and some bits. */
  ghost predicate ShiftedUp(v: nat, dropped: nat, a: seq<Limb>, i: nat, k: nat, bits: nat, m: nat)
    requires i <= |a|
  {
    v + dropped * m == Val(a[..i]) * Pow2(32 * k + bits)
  }

  lemma ShiftedUpStart(a: seq<Limb>, k: nat, bits: nat, m: nat)
    ensures ShiftedUp(0, 0, a, 0, k, bits, m) && Pow2(bits) > 0
  {
    ValEmpty();
  }

  lemma ShiftedUpStep(v: nat, dropped: nat, a: seq<Limb>, i: nat, k: nat, bits: nat, w: nat, v': nat) returns (dropped': nat)
    requires i < |a| && bits < 32 && ShiftedUp(v, dropped, a, i, k, bits, Pow2(32 * w))
    requires v' == v + (if i + k + 1 < w then Hi(a[i], bits) * Pow2(32 * (i + k + 1)) else 0)
                     + (if i + k < w then Lo(a[i], bits) * Pow2(32 * (i + k)) else 0)
    ensures ShiftedUp(v', dropped', a, i + 1, k, bits, Pow2(32 * w))
  {
    hide Val, Pow2, Hi, Lo;
    var hi, lo := Hi(a[i], bits), Lo(a[i], bits);
    var m := Pow2(32 * w);
    ValNext(a, i);
    LimbShift(a[i], bits);
    LimbProduct(a[i], i, k, bits);
    MulSum(Val(a[..i]), a[i] * Pow2(32 * i), Pow2(32 * k + bits));
    dropped' := dropped;
    if i + k + 1 >= w {
      Beyond(hi, i + k + 1, w);
      dropped' := dropped' + hi * Pow2(32 * (i + k + 1 - w));
      MulSum(dropped, hi * Pow2(32 * (i + k + 1 - w)), m);
    }
    if i + k >= w {
      Beyond(lo, i + k, w);
      MulSum(dropped', lo * Pow2(32 * (i + k - w)), m);
      dropped' := dropped' + lo * Pow2(32 * (i + k - w));
    }
  }

  /** A limb, shifted, in terms of its two parts. */
  lemma LimbProduct(a: Limb, i: nat, k: nat, bits: nat)
    requires bits < 32
    ensures (a * Pow2(32 * i)) * Pow2(32 * k + bits)
         == Hi(a, bits) * Pow2(32 * (i + k + 1)) + Lo(a, bits) * Pow2(32 * (i + k))
  {
    hide Pow2, Hi, Lo;
    LimbShift(a, bits);
    var p := Pow2(32 * (i + k));
    Pow2Adds(32 * k, bits);
    Pow2Adds(32 * i, 32 * k);
    NextPower(i + k);
    assert (a * Pow2(32 * i)) * (Pow2(32 * k) * Pow2(bits)) == (a * Pow2(bits)) * (Pow2(32 * i) * Pow2(32 * k));
    MulSum(Hi(a, bits) * B, Lo(a, bits), p);
    assert (Hi(a, bits) * B) * p == Hi(a, bits) * (B * p);
  }

  /** Beyond the top limb, everything is a multiple of the modulus. */
  lemma Beyond(x: nat, i: nat, w: nat)
    requires i >= w
    ensures x * Pow2(32 * i) == (x * Pow2(32 * (i - w))) * Pow2(32 * w)
  {
    hide Pow2;
    SplitPower(32 * i, 32 * w);
    MulAssoc(x, Pow2(32 * i - 32 * w), Pow2(32 * w));
    assert 32 * i - 32 * w == 32 * (i - w);
  }

  lemma SplitPower(m: nat, n: nat)
    requires n <= m
    ensures Pow2(m) == Pow2(m - n) * Pow2(n)
  {
    hide Pow2;
    Pow2Adds(m - n, n);
  }

  lemma ShiftedUpDone(v: nat, dropped: nat, a: seq<Limb>, k: nat, bits: nat, m: nat)
    requires v < m && ShiftedUp(v, dropped, a, |a|, k, bits, m)
    ensures v == (Val(a) * Pow2(32 * k + bits)) % m
  {
    hide Val, Pow2;
    assert a[..|a|] == a;
    assert dropped * m == m * dropped;
    RemainderUnique(v, dropped, m, Val(a) * Pow2(32 * k + bits));
  }

  lemma TimesZero(x: nat)
    ensures x * 0 == 0
  {
  }

  /** The first j rows of a product are added up. */
  ghost predicate ProductSoFar(v: nat, dropped: nat, a: seq<Limb>, j: nat, vb: nat, m: nat)
    requires j <= |a|
  {
    v + dropped * m == Val(a[..j]) * vb
  }

  lemma ProductStart(a: seq<Limb>, vb: nat, m: nat)
    ensures ProductSoFar(0, 0, a, 0, vb, m)
  {
    ValEmpty();
  }

  lemma ProductStep(v: nat, dropped: nat, a: seq<Limb>, j: nat, vb: nat, m: nat, v': nat, more: nat)
    requires j < |a| && ProductSoFar(v, dropped, a, j, vb, m) && v' + more * m == v + a[j] * Pow2(32 * j) * vb
    ensures ProductSoFar(v', dropped + more, a, j + 1, vb, m)
  {
    hide Val, Pow2;
    ValNext(a, j);
    MulSum(dropped, more, m);
    MulSum(Val(a[..j]), a[j] * Pow2(32 * j), vb);
  }

  lemma ProductDone(v: nat, dropped: nat, a: seq<Limb>, vb: nat, m: nat)
    requires v < m && ProductSoFar(v, dropped, a, |a|, vb, m)
    ensures v == (Val(a) * vb) % m
  {
    hide Val;
    assert a[..|a|] == a;
    assert dropped * m == m * dropped;
    RemainderUnique(v, dropped, m, Val(a) * vb);
  }

  /** A square is zero modulo an even power of two exactly if the number is zero modulo half that power. */
  lemma {:induction false} SquareVanishesIff(v: nat, n: nat)
    ensures (v * v) % Pow2(2 * n) == 0 <==> v % Pow2(n) == 0
    decreases n
  {
    if n == 0 {
      Pow2Zero();
    } else {
      hide Pow2;
      var w := v / 2;
      var k := 2 * (n - 1);
      Pow2Quarter(k);
      Pow2Double(n - 1);
      assert 2 * n == k + 2;
      if v % 2 == 0 {
        SquareVanishesIff(w, n - 1);
        SquareOfDouble(w);
        ScaledRemainder(4, w * w, Pow2(k));
        ScaledRemainder(2, w, Pow2(n - 1));
      } else {
        SquareOfOdd(w);
        OddRemainder(v, Pow2(n - 1));
        OddRemainder(v * v, Pow2(k + 1));
      }
    }
  }

  lemma Pow2Quarter(k: nat)
    ensures Pow2(k + 2) == 4 * Pow2(k) == 2 * Pow2(k + 1)
  {
    Pow2Double(k);
    hide Pow2;
    Pow2Double(k + 1);
  }

  lemma SquareOfDouble(w: nat)
    ensures (2 * w) * (2 * w) == 4 * (w * w)
  {
  }

  lemma SquareOfOdd(w: nat)
    ensures ((2 * w + 1) * (2 * w + 1)) % 2 == 1
  {
    assert (2 * w + 1) * (2 * w + 1) == 2 * (2 * (w * w) + 2 * w) + 1;
  }

  lemma ScaledRemainder(k: nat, x: nat, m: nat)
    requires k > 0 && m > 0
    ensures k * m > 0 && (k * x) % (k * m) == k * (x % m)
  {
    DivMod(x, m);
    var q, r := x / m, x % m;
    MulLess(r, m, k);
    MulNonNegative(k, r);
    assert k * x == k * r + (k * m) * q;
    RemainderUnique(k * r, q, k * m, k * x);
  }

  lemma OddRemainder(x: nat, m: nat)
    requires x % 2 == 1 && m > 0
    ensures x % (2 * m) != 0
  {
    DivMod(x, 2 * m);
    var q := x / (2 * m);
    assert 2 * m * q == 2 * (m * q);
  }

  /** The smallest number that in-place multiplication with itself gets wrong, whatever the width. */
  lemma SquareOfOneLost(w: nat)
    requires w > 0
    ensures (1 * 1) % Pow2(32 * w) == 1 != 0 && 1 % Pow2(16 * w) != 0
  {
    hide Pow2;
    Pow2One();
    Pow2Grows(1, 32 * w);
    Pow2Grows(1, 16 * w);
    RemainderUnique(1, 0, Pow2(32 * w), 1);
    RemainderUnique(1, 0, Pow2(16 * w), 1);
  }

  /** Where a carry ends: below it limbs wrapped around, above it nothing changed. */
  lemma CarryDone(a: seq<Limb>, r: seq<Limb>, i: nat)
    requires |r| == |a| && i < |a| && r[i] == (a[i] + 1) % B && (r[i] != 0 || i == |a| - 1)
    requires forall k :: 0 <= k < i ==> r[k] == 0 && a[k] == B - 1
    requires forall k :: i < k < |a| ==> r[k] == a[k]
    ensures Val(r) == (Val(a) + 1) % Pow2(32 * |a|)
  {
    hide Val, Pow2, Above;
    ValSplit(a, i);
    ValSplit(r, i);
    AllZero(r[..i]);
    ValComplement(r[..i], a[..i]);
    assert r[i + 1..] == a[i + 1..];
    ValBound(r);
    if a[i] == B - 1 {
      assert a[i + 1..] == [];
      NothingAbove(i);
      NextPower(i);
    }
    CarrySum(Val(a), Val(r), a[i], r[i], Pow2(32 * i), Above(a[i + 1..], i), Pow2(32 * |a|));
  }

  lemma CarrySum(va: int, vr: nat, ai: Limb, ri: Limb, p: nat, high: int, m: nat)
    requires va == p - 1 + ai * p + high && vr == ri * p + high && vr < m && ri == (ai + 1) % B
    requires ai == B - 1 ==> high == 0 && m == B * p
    ensures vr == (va + 1) % m
  {
    MulSum(ai, 1, p);
    if ai == B - 1 {
      RemainderUnique(0, 1, m, va + 1);
    } else {
      RemainderUnique(vr, 0, m, va + 1);
    }
  }

  lemma OneLess(x: Limb)
    ensures ((x - 1) % B + 1) % B == x && ((x - 1) % B == B - 1 <==> x == 0)
  {
  }

  /** What the limbs above the i-th contribute. */
  ghost function Above(s: seq<Limb>, i: nat): int { Val(s) * Pow2(32 * (i + 1)) }

  lemma NothingAbove(i: nat)
    ensures Above([], i) == 0
  {
    hide Pow2;
  }

  lemma ValSplit(s: seq<Limb>, i: nat)
    requires i < |s|
    ensures Val(s) == Val(s[..i]) + s[i] * Pow2(32 * i) + Above(s[i + 1..], i)
  {
    hide Val, Pow2;
    assert s == s[..i + 1] + s[i + 1..];
    ValConcat(s[..i + 1], s[i + 1..]);
    ValNext(s, i);
  }

  lemma BackOne(r: nat, a: nat, m: nat)
    requires m > 0 && r < m && a < m && a == (r + 1) % m
    ensures r == (a - 1) % m
  {
    if r + 1 < m {
      RemainderUnique(r + 1, 0, m, r + 1);
      RemainderUnique(r, 0, m, a - 1);
    } else {
      RemainderUnique(0, 1, m, r + 1);
      RemainderUnique(r, -1, m, a - 1);
    }
  }

  lemma NegMod(v: nat, m: nat)
    requires v < m
    ensures (m - v) % m == (0 - v) % m
  {
    if v == 0 {
      RemainderUnique(0, 1, m, m);
      RemainderUnique(0, 0, m, 0);
    } else {
      RemainderUnique(m - v, 0, m, m - v);
      RemainderUnique(m - v, -1, m, 0 - v);
    }
  }

  lemma SubMod(a: nat, b: nat, m: nat)
    requires a < m && b < m
    ensures (a + (0 - b) % m) % m == (a - b) % m
  {
    NegMod(b, m);
    if b == 0 {
      RemainderUnique(0, 1, m, m);
    } else {
      RemainderUnique(m - b, 0, m, m - b);
      if a >= b {
        RemainderUnique(a - b, 1, m, a + (m - b));
        RemainderUnique(a - b, 0, m, a - b);
      } else {
        RemainderUnique(a + (m - b), 0, m, a + (m - b));
        RemainderUnique(a + (m - b), -1, m, a - b);
      }
    }
  }

  lemma {:induction false} AllZero(s: seq<Limb>)
    requires forall i :: 0 <= i < |s| ==> s[i] == 0
    ensures Val(s) == 0
    decreases |s|
  {
    if s != [] {
      AllZero(s[1..]);
    }
  }

  /** The highest limb that differs decides. */
  lemma HighestDiffers(a: seq<Limb>, b: seq<Limb>, i: nat)
    requires |a| == |b| && i < |a| && a[i] < b[i] && a[i + 1..] == b[i + 1..]
    ensures Val(a) < Val(b)
  {
    hide Val, Pow2, Above;
    ValSplit(a, i);
    ValSplit(b, i);
    ValBound(a[..i]);
    MulLess(a[i], b[i], Pow2(32 * i));
  }

  /** A product of limbs with a carry and another limb still fits two limbs. */
  lemma MulCarry(carry: nat, x: nat, y: nat, z: nat)
    requires carry < B && x < B && y < B && z < B
    ensures 0 <= carry + z + x * y < B * B && 0 <= (carry + z + x * y) / B < B
  {
    MulBounds(x, y, B - 1);
    QuotientBelow(carry + z + x * y);
  }

  lemma MulBounds(x: nat, y: nat, m: nat)
    requires x <= m && y <= m
    ensures x * y <= m * m
  {
    assert x * y <= x * m;
    assert x * m <= m * m;
  }

  lemma QuotientBelow(n: nat)
    requires n < B * B
    ensures n / B < B
  {
  }

  lemma MulStep(done: nat, carry: nat, p: nat, a: nat, x: nat, b: nat)
    requires done + carry * p == a * b
    ensures var n := carry + b * x;
            done + (n % B) * p + (n / B) * (B * p) == (a + x * p) * b
  {
    Spread(carry + b * x, p);
    MulSum(carry, b * x, p);
    MulSum(a, x * p, b);
    assert (b * x) * p == (x * p) * b;
  }

  lemma ValUpdate(s: seq<Limb>, k: nat, x: Limb)
    requires k < |s|
    ensures Val(s[k := x]) == Val(s) - s[k] * Pow2(32 * k) + x * Pow2(32 * k)
  {
    hide Val, Pow2;
    ValSplit(s, k);
    ValSplit(s[k := x], k);
    assert s[k := x][..k] == s[..k] && s[k := x][k + 1..] == s[k + 1..];
  }

  /** The first i limbs of a row of a product are added. */
  ghost predicate RowSoFar(s: seq<Limb>, carry: nat, aj: Limb, j: nat, i: nat, v0: nat, bs: seq<Limb>)
    requires i <= |bs|
  {
    Val(s) + carry * Pow2(32 * (i + j)) == v0 + aj * Pow2(32 * j) * Val(bs[..i])
  }

  lemma RowStart(s: seq<Limb>, aj: Limb, j: nat, bs: seq<Limb>)
    ensures RowSoFar(s, 0, aj, j, 0, Val(s), bs)
  {
    ValEmpty();
  }

  lemma RowStep(s: seq<Limb>, carry: nat, aj: Limb, j: nat, i: nat, v0: nat, bs: seq<Limb>, n: nat)
    requires i < |bs| && i + j < |s| && RowSoFar(s, carry, aj, j, i, v0, bs) && n == carry + s[i + j] + aj * bs[i]
    ensures RowSoFar(s[i + j := n % B], n / B, aj, j, i + 1, v0, bs)
  {
    hide Val, Pow2;
    var k := i + j;
    var p := Pow2(32 * k);
    ValUpdate(s, k, n % B);
    NextPower(k);
    ValNext(bs, i);
    Spread(n, p);
    MulSum(carry + s[k], aj * bs[i], p);
    MulSum(carry, s[k], p);
    Pow2Adds(32 * j, 32 * i);
    RowProduct(aj, Pow2(32 * j), Val(bs[..i]), bs[i], Pow2(32 * i));
  }

  lemma RowProduct(a: int, p: int, v: int, b: int, q: int)
    ensures a * p * (v + b * q) == a * p * v + (a * b) * (p * q)
  {
    assert a * p * (v + b * q) == a * p * v + a * p * (b * q);
    assert a * p * (b * q) == (a * b) * (p * q);
  }

  /** The end of a row: the last carry and the limbs that were not used are multiples of the modulus. */
  lemma RowDone(s: seq<Limb>, carry: nat, aj: Limb, j: nat, v0: nat, bs: seq<Limb>) returns (dropped: nat)
    requires j < |bs| == |s| && RowSoFar(s, carry, aj, j, |bs| - j, v0, bs)
    ensures Val(s) + dropped * Pow2(32 * |bs|) == v0 + aj * Pow2(32 * j) * Val(bs)
  {
    hide Val, Pow2;
    var low, high := bs[..|bs| - j], bs[|bs| - j..];
    assert bs == low + high;
    ValConcat(low, high);
    Pow2Adds(32 * j, 32 * (|bs| - j));
    RowProduct(aj, Pow2(32 * j), Val(low), Val(high), Pow2(32 * (|bs| - j)));
    dropped := carry + aj * Val(high);
    MulSum(carry, aj * Val(high), Pow2(32 * |bs|));
  }
}
