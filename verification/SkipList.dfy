/**
 The heights that skip pointers lead to, and how many steps a walk over them takes.

 A walk does not take the best step at every height, but the number of its steps is at most the
 square of the number of bits of the height it starts from.
 */
module SkipList {
  import opened Powers
  import opened Products

  /** The number with its lowest one bit cleared. */
  function InvertLowestOne(n: nat): (r: nat)
    ensures n > 0 ==> r < n
    ensures n == 0 ==> r == 0
  {
    if n == 0 then 0 else if n % 2 == 1 then n - 1 else 2 * InvertLowestOne(n / 2)
  }

  /** The number that 32 bits stand for. */
  function Unsigned(x: bv32): int { x as int }

  predicate Odd(x: bv32) { x & 1 == 1 }
  function Half(x: bv32): bv32 { x >> 1 }

  /** The machine expression that clears the lowest one. */
  function Cleared(x: bv32): bv32 { x & (x - 1) }

  lemma ShiftDoubles(y: bv32)
    requires y < 0x8000_0000
    ensures Unsigned(y << 1) == 2 * Unsigned(y)
  {
  }

  lemma ShiftDoublesOdd(y: bv32)
    requires y < 0x8000_0000
    ensures Unsigned((y << 1) | 1) == 2 * Unsigned(y) + 1
  {
  }

  lemma HalfSmall(x: bv32)
    ensures Half(x) < 0x8000_0000
  {
  }

  lemma ClearedSmall(y: bv32)
    requires y < 0x8000_0000
    ensures Cleared(y) < 0x8000_0000
  {
  }

  lemma OddParts(x: bv32)
    ensures Odd(x) ==> x == (Half(x) << 1) | 1
  {
  }

  lemma OddCleared(x: bv32)
    ensures Odd(x) ==> Cleared(x) == Half(x) << 1
  {
  }

  lemma EvenParts(x: bv32)
    ensures !Odd(x) ==> x == Half(x) << 1
  {
  }

  lemma EvenCleared(x: bv32)
    ensures !Odd(x) ==> Cleared(x) == Cleared(Half(x)) << 1
  {
  }

  lemma OddValue(x: bv32)
    requires Odd(x)
    ensures Unsigned(x) == 2 * Unsigned(Half(x)) + 1
  {
    hide Unsigned, Odd, Half;
    HalfSmall(x);
    OddParts(x);
    ShiftDoublesOdd(Half(x));
  }

  lemma OddClearedValue(x: bv32)
    requires Odd(x)
    ensures Unsigned(Cleared(x)) == 2 * Unsigned(Half(x))
  {
    hide Unsigned, Odd, Half, Cleared;
    HalfSmall(x);
    OddCleared(x);
    ShiftDoubles(Half(x));
  }

  lemma EvenValue(x: bv32)
    requires !Odd(x)
    ensures Unsigned(x) == 2 * Unsigned(Half(x))
  {
    hide Unsigned, Odd, Half;
    HalfSmall(x);
    EvenParts(x);
    ShiftDoubles(Half(x));
  }

  lemma EvenClearedValue(x: bv32)
    requires !Odd(x)
    ensures Unsigned(Cleared(x)) == 2 * Unsigned(Cleared(Half(x)))
  {
    hide Unsigned, Odd, Half, Cleared;
    HalfSmall(x);
    ClearedSmall(Half(x));
    EvenCleared(x);
    ShiftDoubles(Cleared(Half(x)));
  }

  lemma NotNegative(x: bv32)
    ensures Unsigned(x) >= 0
  {
  }

  lemma ZeroOrMore(x: bv32)
    ensures if x == 0 then Unsigned(x) == 0 else Unsigned(x) > 0
  {
  }

  lemma ZeroCleared(x: bv32)
    ensures x == 0 ==> Cleared(x) == 0
  {
  }

  lemma ZeroClearedValue(x: bv32)
    ensures Unsigned(x) == 0 ==> Unsigned(Cleared(x)) == 0
  {
    hide Unsigned, Cleared;
    ZeroOrMore(x);
    ZeroCleared(x);
  }

  /** On 32 bits the machine expression clears the lowest one. */
  lemma {:induction false} InvertLowestOneBits(x: bv32)
    ensures Unsigned(x) >= 0 && InvertLowestOne(Unsigned(x)) == Unsigned(Cleared(x))
    decreases Unsigned(x)
  {
    hide Unsigned, Odd, Half, Cleared;
    NotNegative(x);
    NotNegative(Half(x));
    if Odd(x) {
      OddValue(x);
      OddClearedValue(x);
    } else {
      EvenValue(x);
      EvenClearedValue(x);
      ZeroClearedValue(x);
      if Unsigned(x) != 0 {
        InvertLowestOneBits(Half(x));
      }
    }
  }

  function GetSkipHeight(height: nat): (r: nat)
    ensures height > 0 ==> r < height
  {
    if height < 2 then 0
    else if height % 2 == 1 then InvertLowestOne(InvertLowestOne(height - 1)) + 1
    else InvertLowestOne(height)
  }

  // --- the walk -------------------------------------------------------------------------------------

  /** Where a walk to a target goes from a height above it: over the skip pointer, unless that passes the target or the
      parent's skip pointer is much better, and else to the parent. */
  function Step(h: nat, t: nat): (r: nat)
    requires t < h
    ensures t <= r < h
  {
    var heightSkip, heightSkipPrev := GetSkipHeight(h), GetSkipHeight(h - 1);
    if heightSkip == t || (heightSkip > t && !(heightSkipPrev < heightSkip - 2 && heightSkipPrev >= t)) then heightSkip else h - 1
  }

  function Steps(h: nat, t: nat): nat
    requires t <= h
  {
    if h == t then 0 else 1 + Steps(Step(h, t), t)
  }

  /** The ones in the binary form of a number. */
  function Ones(n: nat): nat { if n == 0 then 0 else n % 2 + Ones(n / 2) }

  lemma OnesDouble(n: nat)
    ensures Ones(2 * n) == Ones(n) && Ones(2 * n + 1) == Ones(n) + 1
  {
    assert (2 * n) / 2 == n && (2 * n + 1) / 2 == n;
  }

  lemma InvertDouble(n: nat)
    ensures InvertLowestOne(2 * n) == 2 * InvertLowestOne(n) && InvertLowestOne(2 * n + 1) == 2 * n
  {
    assert (2 * n) / 2 == n && (2 * n + 1) % 2 == 1;
  }

  lemma Halves(n: nat) returns (g: nat)
    ensures g == n / 2 && n == 2 * g + n % 2
  {
    g := n / 2;
  }

  /** Clearing the lowest one clears one. */
  lemma {:induction false} OneLess(n: nat)
    requires n > 0
    ensures Ones(n) >= 1 && Ones(InvertLowestOne(n)) == Ones(n) - 1
    decreases n
  {
    hide Ones, InvertLowestOne;
    var g := Halves(n);
    OnesDouble(g);
    InvertDouble(g);
    OnesDouble(InvertLowestOne(g));
    if n % 2 == 0 {
      OneLess(g);
    }
  }

  // --- blocks of heights with the same upper bits -----------------------------------------------------

  /** The lowest height with some upper bits, above the lower e bits. */
  function Base(m: nat, e: nat): nat { if e == 0 then m else 2 * Base(m, e - 1) }

  predicate Within(h: nat, m: nat, e: nat) { Base(m, e) <= h < Base(m + 1, e) }

  lemma WithinHalf(h: nat, m: nat, e: nat)
    requires e > 0 && Within(h, m, e)
    ensures Within(h / 2, m, e - 1) && (h > Base(m, e) && h % 2 == 0 ==> h / 2 > Base(m, e - 1))
  {
  }

  /** Clearing the lowest one stays within the block, and in its lowest height clears the lowest upper bit. */
  lemma {:induction false} ClearWithin(h: nat, m: nat, e: nat)
    requires Within(h, m, e) && h > Base(m, e)
    ensures Within(InvertLowestOne(h), m, e)
    decreases e
  {
    hide InvertLowestOne;
    if e > 0 {
      WithinHalf(h, m, e);
      var g := Halves(h);
      InvertDouble(g);
      if h % 2 == 0 {
        ClearWithin(g, m, e - 1);
      }
    }
  }

  lemma {:induction false} ClearBase(m: nat, e: nat)
    requires m % 2 == 1
    ensures InvertLowestOne(Base(m, e)) == Base(m - 1, e)
    decreases e
  {
    hide InvertLowestOne;
    if e == 0 {
      var g := Halves(m);
      InvertDouble(g);
    } else {
      ClearBase(m, e - 1);
      InvertDouble(Base(m, e - 1));
    }
  }

  /** Within a block there are at most e more ones than in the upper bits, and at least one above its lowest height. */
  lemma {:induction false} OnesWithin(h: nat, m: nat, e: nat)
    requires Within(h, m, e)
    ensures Ones(m) <= Ones(h) <= Ones(m) + e && (h > Base(m, e) ==> Ones(h) > Ones(m))
    decreases e
  {
    hide Ones;
    if e > 0 {
      WithinHalf(h, m, e);
      var g := Halves(h);
      OnesWithin(g, m, e - 1);
      OnesDouble(g);
    }
  }

  lemma {:induction false} BaseGrows(m: nat, n: nat, e: nat)
    ensures m <= n ==> Base(m, e) <= Base(n, e)
    ensures m < n ==> Base(m, e) < Base(n, e)
    decreases e
  {
    if e > 0 {
      BaseGrows(m, n, e - 1);
    }
  }

  // --- steps within a block ---------------------------------------------------------------------------

  /** Above the target, a step from an odd height takes the skip pointer unless that passes the target. */
  lemma OddStep(h: nat, t: nat)
    requires t < h && h % 2 == 1 && h > 2
    ensures var s := InvertLowestOne(InvertLowestOne(h - 1)) + 1; Step(h, t) == if s >= t then s else h - 1
  {
  }

  /** From an even height that clears its lowest one above the target, one step clears it, or two steps lead to where the
      parent's skip pointer leads. */
  lemma EvenStep(h: nat, t: nat)
    requires t < h && h % 2 == 0 && h > 2 && InvertLowestOne(h) > t
    ensures var s, sp := InvertLowestOne(h), InvertLowestOne(InvertLowestOne(h - 2)) + 1;
            Step(h, t) == if sp < s - 2 && sp >= t then h - 1 else s
  {
    assert h - 1 > 2 && (h - 1) % 2 == 1;
  }

  /** If the parent's skip pointer is much better, it has fewer ones to clear. */
  lemma MuchBetter(h: nat)
    requires h % 2 == 0 && h > 2 && InvertLowestOne(InvertLowestOne(h - 2)) + 1 < InvertLowestOne(h) - 2
    ensures Ones(h - 2) <= Ones(h)
  {
    hide InvertLowestOne, Ones;
    var g := Halves(h);
    InvertDouble(g);
    InvertDouble(g - 1);
    InvertDouble(InvertLowestOne(g - 1));
    OnesDouble(g);
    OnesDouble(g - 1);
    var f := Halves(g);
    InvertDouble(f);
    OnesDouble(f);
    if g % 2 == 0 {
      OneBelowEven(f);
    }
  }

  lemma OneBelowEven(f: nat)
    requires f > 0 && InvertLowestOne(InvertLowestOne(2 * f - 1)) < InvertLowestOne(2 * f) - 1
    ensures Ones(2 * f - 1) <= Ones(2 * f)
  {
    hide InvertLowestOne, Ones;
    InvertDouble(f - 1);
    InvertDouble(f);
    OnesDouble(f - 1);
    OnesDouble(f);
    var k := Halves(f);
    InvertDouble(k);
    OnesDouble(k);
    if f % 2 == 0 {
      InvertDouble(k - 1);
    }
  }

  /** A skip from an odd height clears two ones. */
  lemma OddSkipOnes(x: nat)
    requires x % 2 == 0 && InvertLowestOne(InvertLowestOne(x)) > 0
    ensures Ones(InvertLowestOne(InvertLowestOne(x)) + 1) == Ones(x) - 1
  {
    hide Ones, InvertLowestOne;
    var y := InvertLowestOne(x);
    if x == 0 {
      InvertZero();
    }
    OneLess(x);
    if y == 0 {
      InvertZero();
    }
    OneLess(y);
    EvenStays(x);
    EvenStays(y);
    var g := Halves(InvertLowestOne(y));
    OnesDouble(g);
  }

  lemma InvertZero()
    ensures InvertLowestOne(0) == 0
  {
  }

  lemma EvenStays(x: nat)
    requires x % 2 == 0
    ensures InvertLowestOne(x) % 2 == 0
  {
    var g := Halves(x);
    InvertDouble(g);
  }

  lemma OddOnes(h: nat)
    requires h % 2 == 1
    ensures Ones(h - 1) == Ones(h) - 1
  {
    hide Ones;
    var g := Halves(h);
    OnesDouble(g);
  }

  /** A walk comes down to the lowest height of its block, or below, in at most two steps for every one it clears. */
  lemma {:induction false} DownToBase(h: nat, t: nat, m: nat, e: nat) returns (r: nat)
    requires m % 2 == 1 && Within(h, m, e) && t < Base(m, e)
    ensures t <= r <= Base(m, e) && Ones(h) >= Ones(m) && Steps(h, t) <= 2 * (Ones(h) - Ones(m)) + Steps(r, t)
    decreases h
  {
    hide Ones, InvertLowestOne, Step, Within;
    OnesWithin(h, m, e);
    var base := Base(m, e);
    WithinMeans(h, m, e);
    if h == base {
      return h;
    }
    if h % 2 == 1 {
      var s := InvertLowestOne(InvertLowestOne(h - 1)) + 1;
      OddStep(h, t);
      OddOnes(h);
      if s < t {
        WithinBetween(h - 1, h, m, e);
        r := DownToBase(h - 1, t, m, e);
      } else if s <= base {
        r := s;
      } else {
        OddSkipOnes(h - 1);
        WithinBetween(s, h, m, e);
        r := DownToBase(s, t, m, e);
      }
    } else {
      var s, sp := InvertLowestOne(h), InvertLowestOne(InvertLowestOne(h - 2)) + 1;
      ClearWithin(h, m, e);
      WithinMeans(s, m, e);
      OneLess(h);
      EvenStep(h, t);
      if Step(h, t) == s {
        r := DownToBase(s, t, m, e);
      } else {
        OddStep(h - 1, t);
        if sp <= base {
          r := sp;
        } else {
          MuchBetter(h);
          OddSkipOnes(h - 2);
          WithinBetween(sp, h, m, e);
          r := DownToBase(sp, t, m, e);
        }
      }
    }
  }

  lemma WithinMeans(h: nat, m: nat, e: nat)
    requires Within(h, m, e)
    ensures Base(m, e) <= h && (h > Base(m, e) && m > 0 ==> h > 2 && Base(m, e) % 2 == 0)
  {
    hide Base;
    BaseStep(m, e);
    BaseStep(m + 1, e);
    if e > 0 {
      Double(Base(m, e - 1));
      if m > 0 {
        BasePositive(m, e - 1);
      }
    }
  }

  lemma BaseStep(m: nat, e: nat)
    ensures Base(m, e) == if e == 0 then m else 2 * Base(m, e - 1)
  {
  }

  lemma Double(x: nat)
    ensures 2 * x % 2 == 0
  {
  }

  lemma {:induction false} BasePositive(m: nat, e: nat)
    requires m > 0
    ensures Base(m, e) > 0
  {
    if e > 0 {
      BasePositive(m, e - 1);
    }
  }

  lemma WithinBetween(x: nat, h: nat, m: nat, e: nat)
    requires Within(h, m, e) && Base(m, e) <= x <= h
    ensures Within(x, m, e)
  {
  }

  /** Between heights that share all but the lower j bits a walk takes at most j * j steps. */
  lemma {:induction false} StepsWithin(h: nat, t: nat, q: nat, j: nat)
    requires Within(h, q, j) && Within(t, q, j) && t <= h
    ensures Steps(h, t) <= j * j
    decreases j
  {
    hide Ones, Step, Within;
    if j == 0 {
      OnlyOne(h, t, q);
    } else {
      var e := j - 1;
      assert j * j == e * e + 2 * e + 1;
      UpperBit(h, q, j);
      UpperBit(t, q, j);
      if Within(h, 2 * q, e) && Within(t, 2 * q, e) {
        StepsWithin(h, t, 2 * q, e);
      } else if Within(h, 2 * q + 1, e) && Within(t, 2 * q + 1, e) {
        StepsWithin(h, t, 2 * q + 1, e);
      } else {
        CrossBit(h, t, q, e);
        OnesWithin(h, 2 * q + 1, e);
        var r := DownToBase(h, t, 2 * q + 1, e);
        var x := if r == Base(2 * q + 1, e) then Step(r, t) else r;
        BelowBase(x, t, q, e);
        StepsWithin(x, t, 2 * q, e);
      }
    }
  }

  lemma OnlyOne(h: nat, t: nat, q: nat)
    requires Within(h, q, 0) && Within(t, q, 0)
    ensures h == t
  {
  }

  lemma {:induction false} BaseSplit(q: nat, j: nat)
    requires j > 0
    ensures Base(q, j) == Base(2 * q, j - 1)
    decreases j
  {
    if j > 1 {
      BaseSplit(q, j - 1);
    }
  }

  lemma UpperBit(h: nat, q: nat, j: nat)
    requires j > 0 && Within(h, q, j)
    ensures Within(h, 2 * q, j - 1) || Within(h, 2 * q + 1, j - 1)
  {
    BaseSplit(q, j);
    BaseSplit(q + 1, j);
  }

  lemma CrossBit(h: nat, t: nat, q: nat, e: nat)
    requires t <= h && (Within(h, 2 * q, e) || Within(h, 2 * q + 1, e)) && (Within(t, 2 * q, e) || Within(t, 2 * q + 1, e))
    requires !(Within(h, 2 * q, e) && Within(t, 2 * q, e)) && !(Within(h, 2 * q + 1, e) && Within(t, 2 * q + 1, e))
    ensures Within(h, 2 * q + 1, e) && Within(t, 2 * q, e) && t < Base(2 * q + 1, e)
  {
  }

  lemma BelowBase(x: nat, t: nat, q: nat, e: nat)
    requires Within(t, 2 * q, e) && t <= x < Base(2 * q + 1, e)
    ensures Within(x, 2 * q, e)
  {
  }

  /** From a height of so many bits a walk takes at most the square of that many steps. */
  lemma StepsSquare(h: nat, t: nat, bits: nat)
    requires t <= h < Pow2(bits)
    ensures Steps(h, t) <= bits * bits
  {
    BaseOfNone(bits);
    StepsWithin(h, t, 0, bits);
  }

  lemma {:induction false} BaseOfNone(e: nat)
    ensures Base(0, e) == 0 && Base(1, e) == Pow2(e)
    decreases e
  {
    if e > 0 {
      BaseOfNone(e - 1);
    }
  }
}
