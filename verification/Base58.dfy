/** Base 58: byte strings as text and back, by repeated multiplication in a digit buffer. */
module Base58 {
  import opened Basics
  import opened Powers
  import opened Products

  // --- digits --------------------------------------------------------------------------------

  predicate Digits(b: nat, s: seq<nat>) { forall i :: 0 <= i < |s| ==> s[i] < b }

  /** The number that digits stand for, most significant first. */
  function Val(b: nat, s: seq<nat>): (v: int) { if s == [] then 0 else Val(b, s[..|s| - 1]) * b + s[|s| - 1] }

  lemma ValSnoc(b: nat, s: seq<nat>, d: nat)
    ensures Val(b, s + [d]) == Val(b, s) * b + d
  {
    assert (s + [d])[..|s|] == s;
  }

  lemma {:induction false} ValConcat(b: nat, s: seq<nat>, t: seq<nat>)
    ensures Val(b, s + t) == Val(b, s) * Pow(b, |t|) + Val(b, t)
    decreases |t|
  {
    hide Val;
    if t == [] {
      assert s + t == s;
      ValEmpty(b);
    } else {
      var last := |t| - 1;
      var front := t[..last];
      assert s + t == (s + front) + [t[last]] && t == front + [t[last]];
      ValSnoc(b, s + front, t[last]);
      ValSnoc(b, front, t[last]);
      ValConcat(b, s, front);
      var x, p, y := Val(b, s), Pow(b, last), Val(b, front);
      MulSum(x * p, y, b);
      MulAssoc(x, p, b);
      assert p * b == b * p;
    }
  }

  lemma ValEmpty(b: nat)
    ensures Val(b, []) == 0
  {
  }

  lemma ValOne(b: nat, d: nat)
    ensures Val(b, [d]) == d
  {
    ValSnoc(b, [], d);
    ValEmpty(b);
    assert [] + [d] == [d];
  }

  lemma {:induction false} ValBound(b: nat, s: seq<nat>)
    requires Digits(b, s) && b >= 1
    ensures 0 <= Val(b, s) < Pow(b, |s|)
    decreases |s|
  {
    if s != [] {
      var last := |s| - 1;
      ValBound(b, s[..last]);
      MulLess(Val(b, s[..last]), Pow(b, last), b);
      MulNonNegative(Val(b, s[..last]), b);
    }
  }

  /** No leading zero. */
  predicate Canonical(s: seq<nat>) { s != [] ==> s[0] != 0 }

  /** Without a leading zero, digits are at least the power of their length. */
  lemma CanonicalLower(b: nat, s: seq<nat>)
    requires Digits(b, s) && b >= 1 && s != [] && Canonical(s)
    ensures Val(b, s) >= Pow(b, |s| - 1)
  {
    hide Val, Pow;
    assert s == [s[0]] + s[1..];
    ValConcat(b, [s[0]], s[1..]);
    ValOne(b, s[0]);
    ValBound(b, s[1..]);
    var p := Pow(b, |s| - 1);
    assert s[0] * p >= 1 * p;
  }

  /** Digits without a leading zero are determined by their number. */
  lemma {:induction false} CanonicalUnique(b: nat, s: seq<nat>, t: seq<nat>)
    requires b >= 2 && Digits(b, s) && Digits(b, t) && Canonical(s) && Canonical(t) && Val(b, s) == Val(b, t)
    ensures s == t
    decreases |s| + |t|
  {
    if s == [] || t == [] {
      if s != [] {
        CanonicalLower(b, s);
      }
      if t != [] {
        CanonicalLower(b, t);
      }
    } else {
      var i, j := |s| - 1, |t| - 1;
      var x, y := Val(b, s[..i]), Val(b, t[..j]);
      LastDigit(x, s[i], y, t[j], b);
      CanonicalUnique(b, s[..i], t[..j]);
      assert s == s[..i] + [s[i]] && t == t[..j] + [t[j]];
    }
  }

  lemma LastDigit(x: int, d: nat, y: int, e: nat, b: nat)
    requires d < b && e < b && x * b + d == y * b + e
    ensures x == y && d == e
  {
    MulSum(x - y, y, b);
    var k := x - y;
    assert b * k == k * b == e - d;
    SmallMultiple(b, k);
  }

  // --- the buffers are large enough -------------------------------------------------------------

  lemma PowValues()
    ensures Pow(58, 1) == 58 && Pow(58, 2) == 3364 && Pow(58, 3) == 195112 && Pow(58, 4) == 11316496
    ensures Pow(58, 5) == 656356768 && Pow(58, 6) == 38068692544 && Pow(58, 7) == 2207984167552 && Pow(58, 8) == 128063081718016
    ensures Pow(256, 1) == 0x100 && Pow(256, 2) == 0x1_0000 && Pow(256, 3) == 0x100_0000 && Pow(256, 4) == 0x1_0000_0000
    ensures Pow(256, 8) == 0x1_0000_0000_0000_0000
  {
    assert Pow(58, 2) == 58 * Pow(58, 1) && Pow(58, 1) == 58 * Pow(58, 0);
    assert Pow(256, 2) == 256 * Pow(256, 1) && Pow(256, 1) == 256 * Pow(256, 0);
    PowAdds(58, 1, 2);
    PowAdds(58, 2, 2);
    PowAdds(58, 1, 4);
    PowAdds(58, 2, 4);
    PowAdds(58, 3, 4);
    PowAdds(58, 4, 4);
    PowAdds(256, 1, 2);
    PowAdds(256, 2, 2);
    PowAdds(256, 4, 4);
  }

  lemma PowBoundSum(a: nat, m1: nat, m2: nat, b: nat, n1: nat, n2: nat)
    requires Pow(a, m1) <= Pow(b, n1) && Pow(a, m2) <= Pow(b, n2)
    ensures Pow(a, m1 + m2) <= Pow(b, n1 + n2)
  {
    hide Pow;
    PowAdds(a, m1, m2);
    PowAdds(b, n1, n2);
    MulMono(Pow(a, m1), Pow(b, n1), Pow(a, m2));
    MulMono(Pow(a, m2), Pow(b, n2), Pow(b, n1));
  }

  lemma {:induction false} PowBoundTimes(a: nat, m: nat, b: nat, n: nat, q: nat)
    requires Pow(a, m) <= Pow(b, n)
    ensures Pow(a, m * q) <= Pow(b, n * q)
    decreases q
  {
    if q == 0 {
      assert Pow(a, 0) == 1 == Pow(b, 0);
    } else {
      PowBoundTimes(a, m, b, n, q - 1);
      assert m * q == m + m * (q - 1) && n * q == n + n * (q - 1);
      PowBoundSum(a, m, m * (q - 1), b, n, n * (q - 1));
    }
  }

  // Base 256 in base 58: eight digits need eleven.

  function Need58(r: nat): nat
    requires r < 8
  {
    [0, 2, 3, 5, 6, 7, 9, 10][r]
  }

  lemma Rest58(r: nat)
    requires r < 8
    ensures Pow(256, r) <= Pow(58, Need58(r))
  {
    PowValues();
    assert Pow(256, 0) == 1 == Pow(58, 0);
    hide Pow;
    PowAdds(256, 1, 4);
    PowAdds(256, 2, 4);
    PowAdds(256, 3, 4);
    PowAdds(58, 1, 8);
    PowAdds(58, 2, 8);
    PowAdds(58, 0, 1);
  }

  lemma EightToEleven()
    ensures Pow(256, 8) <= Pow(58, 11)
  {
    PowValues();
    hide Pow;
    PowAdds(58, 3, 8);
  }

  /** A buffer of n * 138 / 100 + 1 digits holds every number of n bytes. */
  lemma EncodeBufferFits(n: nat)
    ensures Pow(256, n) <= Pow(58, n * 138 / 100 + 1)
  {
    hide Pow, Need58;
    var q, r := n / 8, n % 8;
    EightToEleven();
    PowBoundTimes(256, 8, 58, 11, q);
    Rest58(r);
    PowBoundSum(256, 8 * q, r, 58, 11 * q, Need58(r));
    EncodeCount(q, r);
    PowGrows(58, 11 * q + Need58(r), n * 138 / 100 + 1);
  }

  lemma EncodeCount(q: nat, r: nat)
    requires r < 8
    ensures 11 * q + Need58(r) <= (8 * q + r) * 138 / 100 + 1
  {
  }

  // Base 58 in base 256: seventy-one digits need fifty-two.

  function Need256(r: nat): nat
    requires r < 15
  {
    [0, 1, 2, 3, 3, 4, 5, 6, 6, 7, 8, 9, 9, 10, 11][r]
  }

  lemma Rest256(r: nat)
    requires r < 15
    ensures Pow(58, r) <= Pow(256, Need256(r))
  {
    PowValues();
    hide Pow;
    PowAdds(58, 1, 8);
    PowAdds(58, 2, 8);
    PowAdds(58, 3, 8);
    PowAdds(58, 4, 8);
    PowAdds(58, 5, 8);
    PowAdds(58, 6, 8);
    PowAdds(58, 0, 1);
    PowAdds(256, 1, 4);
    PowAdds(256, 2, 4);
    PowAdds(256, 3, 4);
    PowAdds(256, 1, 8);
    PowAdds(256, 2, 8);
    PowAdds(256, 3, 8);
    PowAdds(256, 0, 1);
  }

  lemma FifteenToEleven()
    ensures Pow(58, 15) <= Pow(256, 11)
  {
    PowValues();
    hide Pow;
    PowAdds(58, 7, 8);
    PowAdds(256, 3, 8);
  }

  /** Squaring a bound, rounding the factor up. */
  lemma SquareBound(m: nat, c: nat, k: nat, c': nat)
    requires Pow(58, m) <= c * Pow(256, k) && c * c <= c' * 0x1_0000
    ensures Pow(58, 2 * m) <= c' * Pow(256, 2 * k + 2)
  {
    PowValues();
    hide Pow;
    var x, p := Pow(58, m), Pow(256, k);
    PowAdds(58, m, m);
    PowAdds(256, k, k);
    PowAdds(256, 2 * k, 2);
    MulMono(x, c * p, x);
    MulMono(x, c * p, c * p);
    assert x * x <= (c * p) * (c * p);
    assert (c * p) * (c * p) == (c * c) * (p * p);
    MulMono(c * c, c' * 0x1_0000, p * p);
    assert (c' * 0x1_0000) * (p * p) == c' * (0x1_0000 * (p * p));
  }

  lemma SeventyOneToFiftyTwo()
    ensures Pow(58, 71) <= Pow(256, 52)
  {
    PowValues();
    hide Pow;
    SquareBound(8, 29818, 4, 13567);
    SquareBound(16, 13567, 10, 2809);
    SquareBound(32, 2809, 22, 121);
    PowAdds(58, 64, 7);
    PowAdds(256, 46, 6);
    PowAdds(256, 2, 4);
    MulMono(Pow(58, 64), 121 * Pow(256, 46), Pow(58, 7));
    MulMono(121 * Pow(58, 7), Pow(256, 6), Pow(256, 46));
  }

  /** A buffer of n * 733 / 1000 + 1 bytes holds every number of n digits. */
  lemma DecodeBufferFits(n: nat)
    ensures Pow(58, n) <= Pow(256, n * 733 / 1000 + 1)
  {
    hide Pow, Need256;
    var q, r := n / 71, n % 71;
    var a, b := r / 15, r % 15;
    SeventyOneToFiftyTwo();
    PowBoundTimes(58, 71, 256, 52, q);
    FifteenToEleven();
    PowBoundTimes(58, 15, 256, 11, a);
    Rest256(b);
    PowBoundSum(58, 15 * a, b, 256, 11 * a, Need256(b));
    PowBoundSum(58, 71 * q, 15 * a + b, 256, 52 * q, 11 * a + Need256(b));
    DecodeCount(q, a, b);
    PowGrows(256, 52 * q + (11 * a + Need256(b)), n * 733 / 1000 + 1);
  }

  lemma DecodeCount(q: nat, a: nat, b: nat)
    requires b < 15 && a < 5
    ensures 52 * q + (11 * a + Need256(b)) <= (71 * q + (15 * a + b)) * 733 / 1000 + 1
  {
  }

  // --- numbers as digits ----------------------------------------------------------------------------

  /** The digits of a number, without leading zeros. */
  function ToDigits(b: nat, v: nat): (s: seq<nat>)
    requires b >= 2
  {
    if v == 0 then [] else ToDigits(b, v / b) + [v % b]
  }

  lemma {:induction false} ToDigitsRight(b: nat, v: nat)
    requires b >= 2
    ensures Digits(b, ToDigits(b, v)) && Canonical(ToDigits(b, v)) && Val(b, ToDigits(b, v)) == v
  {
    if v == 0 {
      ValEmpty(b);
    } else {
      hide Val;
      var q, r := SmallerQuotient(v, b);
      ToDigitsRight(b, q);
      assert ToDigits(b, v) == ToDigits(b, q) + [r];
      ValSnoc(b, ToDigits(b, q), r);
    }
  }

  lemma SmallerQuotient(v: nat, b: nat) returns (q: nat, r: nat)
    requires v > 0 && b >= 2
    ensures q == v / b && r == v % b && q < v && r < b && v == q * b + r
  {
    DivMod(v, b);
    q, r := v / b, v % b;
    MulMono(2, b, q);
    assert b * q == q * b;
  }

  /** How many leading entries equal x. */
  function Leading<T(==)>(s: seq<T>, x: T): (n: nat)
    ensures n <= |s| && (forall i :: 0 <= i < n ==> s[i] == x) && (n < |s| ==> s[n] != x)
  {
    if s != [] && s[0] == x then 1 + Leading(s[1..], x) else 0
  }

  function Repeat<T>(x: T, n: nat): (s: seq<T>)
    ensures |s| == n && forall i :: 0 <= i < n ==> s[i] == x
  {
    if n == 0 then [] else [x] + Repeat(x, n - 1)
  }

  /** Leading zeros do not change a number. */
  lemma {:induction false} ValSkipZeros(b: nat, s: seq<nat>, n: nat)
    requires n <= |s| && forall i :: 0 <= i < n ==> s[i] == 0
    ensures Val(b, s) == Val(b, s[n..])
    decreases n
  {
    hide Val;
    if n == 0 {
      assert s[0..] == s;
    } else {
      assert s == [0] + s[1..];
      ValConcat(b, [0], s[1..]);
      ValOne(b, 0);
      assert 0 * Pow(b, |s| - 1) == 0;
      ValSkipZeros(b, s[1..], n - 1);
      assert s[1..][n - 1..] == s[n..];
    }
  }

  /** Digits with their leading zeros skipped are the digits of their number. */
  lemma StripIsDigits(b: nat, s: seq<nat>)
    requires b >= 2 && Digits(b, s)
    ensures Val(b, s) >= 0 && ToDigits(b, Val(b, s)) == s[Leading(s, 0)..]
  {
    hide ToDigits, Val;
    var n := Leading(s, 0);
    ValSkipZeros(b, s, n);
    ValBound(b, s);
    ToDigitsRight(b, Val(b, s));
    CanonicalUnique(b, ToDigits(b, Val(b, s)), s[n..]);
  }

  lemma LeadingIs<T>(s: seq<T>, x: T, n: nat)
    requires n <= |s| && (forall i :: 0 <= i < n ==> s[i] == x) && (n < |s| ==> s[n] != x)
    ensures Leading(s, x) == n
  {
    hide Leading;
  }

  lemma SplitLeading<T>(s: seq<T>, x: T)
    ensures s == Repeat(x, Leading(s, x)) + s[Leading(s, x)..]
  {
    hide Leading, Repeat;
    var n := Leading(s, x);
    var front := s[..n];
    assert front == Repeat(x, n) by {
      assert |front| == n && forall i :: 0 <= i < n ==> front[i] == x;
    }
    assert s == front + s[n..];
  }

  // --- the alphabet -----------------------------------------------------------------------------------

  function Shifted(c: char, i: nat): char
    requires c as int + i < 128
  {
    (c as int + i) as char
  }

  /** The alphabet: digits, capitals and small letters in this order, without 0, I, O and l. */
  function Char(i: nat): char
    requires i < 58
  {
    if i < 9 then Shifted('1', i) else if i < 17 then Shifted('A', i - 9) else if i < 22 then Shifted('J', i - 17)
    else if i < 33 then Shifted('P', i - 22) else if i < 44 then Shifted('a', i - 33) else Shifted('m', i - 44)
  }

  /** The position of a character in the alphabet, or -1. */
  function IndexOf(c: char): int {
    if '1' <= c <= '9' then c as int - '1' as int else if 'A' <= c <= 'H' then c as int - 'A' as int + 9
    else if 'J' <= c <= 'N' then c as int - 'J' as int + 17 else if 'P' <= c <= 'Z' then c as int - 'P' as int + 22
    else if 'a' <= c <= 'k' then c as int - 'a' as int + 33 else if 'm' <= c <= 'z' then c as int - 'm' as int + 44
    else -1
  }

  lemma CharOfIndex(c: char)
    ensures IndexOf(c) != -1 ==> 0 <= IndexOf(c) < 58 && Char(IndexOf(c)) == c
  {
  }

  function Text(s: seq<nat>): (t: string)
    requires Digits(58, s)
    ensures |t| == |s| && forall i :: 0 <= i < |s| ==> t[i] == Char(s[i])
  {
    seq(|s|, i requires 0 <= i < |s| => Char(s[i]))
  }

  // --- what encoding and decoding give ----------------------------------------------------------------


  /** Leading zero bytes as ones, then the number of the bytes in base 58. */
  function Encoded(bytes: seq<Byte>): (t: string) {
    ValBound(256, bytes);
    ToDigitsRight(58, Val(256, bytes));
    Repeat('1', Leading(bytes, 0)) + Text(ToDigits(58, Val(256, bytes)))
  }

  predicate IsSpace(c: char) { c == ' ' || '\t' <= c <= '\r' }

  /** How many leading characters are white space. */
  function Spaces(s: string): (n: nat)
    ensures n <= |s| && (forall i :: 0 <= i < n ==> IsSpace(s[i])) && (n < |s| ==> !IsSpace(s[n]))
  {
    if s != [] && IsSpace(s[0]) then 1 + Spaces(s[1..]) else 0
  }

  /** How many leading characters are no white space. */
  function Word(s: string): (n: nat)
    ensures n <= |s| && (forall i :: 0 <= i < n ==> !IsSpace(s[i])) && (n < |s| ==> IsSpace(s[n]))
  {
    if s != [] && !IsSpace(s[0]) then 1 + Word(s[1..]) else 0
  }

  predicate Valid(s: string) { forall i :: 0 <= i < |s| ==> IndexOf(s[i]) != -1 }

  function Indices(s: string): (d: seq<nat>)
    requires Valid(s)
    ensures |d| == |s| && Digits(58, d) && forall i :: 0 <= i < |s| ==> d[i] == IndexOf(s[i])
  {
    seq(|s|, i requires 0 <= i < |s| => CharOfIndex(s[i]); IndexOf(s[i]))
  }

  function ZeroBytes(n: nat): seq<Byte> { Repeat(0, n) }

  function ToBytes(v: nat): (s: seq<Byte>)
    ensures s == ToDigits(256, v)
  {
    ToDigitsRight(256, v);
    ToDigits(256, v)
  }

  /** White space around, ones for leading zero bytes, then a number in base 58. */
  function Decoded(s: string): (r: Option<seq<Byte>>) {
    var t := s[Spaces(s)..];
    var rest := t[Leading(t, '1')..];
    var word := rest[..Word(rest)];
    var tail := rest[Word(rest)..];
    if !Valid(word) || Spaces(tail) < |tail| then None
    else
      ValBound(58, Indices(word));
      Some(ZeroBytes(Leading(t, '1')) + ToBytes(Val(58, Indices(word))))
  }

  predicate AllSpace(s: string) { forall i :: 0 <= i < |s| ==> IsSpace(s[i]) }
  predicate NoSpace(s: string) { forall i :: 0 <= i < |s| ==> !IsSpace(s[i]) }

  lemma SpacesThen(pre: string, s: string)
    requires AllSpace(pre) && (s != [] ==> !IsSpace(s[0]))
    ensures Spaces(pre + s) == |pre| && (pre + s)[|pre|..] == s
  {
    hide Spaces, IsSpace;
    var all := pre + s;
    assert |pre| < |all| ==> all[|pre|] == s[0];
  }

  lemma WordThen(s: string, post: string)
    requires NoSpace(s) && AllSpace(post)
    ensures Word(s + post) == |s| && (s + post)[..|s|] == s && (s + post)[|s|..] == post
  {
    hide Word, IsSpace;
    var all := s + post;
    assert |s| < |all| ==> all[|s|] == post[0];
  }

  lemma OnesThen(n: nat, rest: string)
    requires rest != [] ==> rest[0] != '1'
    ensures Leading(Repeat('1', n) + rest, '1') == n && (Repeat('1', n) + rest)[n..] == rest
  {
    hide Leading, Repeat;
    LeadingIs(Repeat('1', n) + rest, '1', n);
  }

  lemma CharsAreNoSpaces(d: nat)
    requires d < 58
    ensures !IsSpace(Char(d)) && IndexOf(Char(d)) == d && (Char(d) == '1' <==> d == 0)
  {
  }

  /** Text of digits: no white space, valid, and it reads back as the digits. */
  lemma TextReads(d: seq<nat>)
    requires Digits(58, d)
    ensures NoSpace(Text(d)) && Valid(Text(d)) && Indices(Text(d)) == d
    ensures Canonical(d) && d != [] ==> Text(d)[0] != '1'
  {
    hide Char, IndexOf, IsSpace;
    forall i | 0 <= i < |d|
      ensures !IsSpace(Text(d)[i]) && IndexOf(Text(d)[i]) == d[i]
    {
      CharsAreNoSpaces(d[i]);
    }
    if d != [] {
      CharsAreNoSpaces(d[0]);
    }
  }

  lemma {:induction false} SpacesAll(s: string)
    requires AllSpace(s)
    ensures Spaces(s) == |s|
  {
    hide IsSpace;
    if s != [] {
      SpacesAll(s[1..]);
    }
  }

  /** Where ones and digits start: not with white space, and the digits not with a one. */
  lemma VisibleStart(z: nat, digits: seq<nat>, post: string)
    requires Digits(58, digits) && Canonical(digits) && AllSpace(post)
    ensures z > 0 || digits != [] ==> Repeat('1', z) + (Text(digits) + post) != [] && !IsSpace((Repeat('1', z) + (Text(digits) + post))[0])
    ensures Text(digits) + post != [] ==> (Text(digits) + post)[0] != '1'
  {
    hide Repeat, Text;
    TextReads(digits);
  }

  lemma DecodeParts(s: string, pre: string, z: nat, digits: seq<nat>, post: string)
    requires AllSpace(pre) && AllSpace(post) && Digits(58, digits) && Canonical(digits) && (z > 0 || digits != [])
    requires s == pre + (Repeat('1', z) + (Text(digits) + post))
    ensures Val(58, digits) >= 0 && Decoded(s) == Some(ZeroBytes(z) + ToBytes(Val(58, digits)))
  {
    hide Val, ToDigits, Text, Leading, Repeat, Spaces, Word, Indices, AllSpace, NoSpace, IsSpace, Valid, ToBytes, ZeroBytes;
    ValBound(58, digits);
    TextReads(digits);
    VisibleStart(z, digits, post);
    SpacesThen(pre, Repeat('1', z) + (Text(digits) + post));
    OnesThen(z, Text(digits) + post);
    WordThen(Text(digits), post);
    SpacesAll(post);
  }

  lemma DecodeBlank(s: string)
    requires AllSpace(s)
    ensures Decoded(s) == Some([])
  {
    hide Val, ToDigits, Leading, Repeat, Spaces, Word, Indices, IsSpace;
    SpacesAll(s);
    var none: string := [];
    assert s[|s|..] == none;
    assert none[Leading(none, '1')..] == none && none[..Word(none)] == none && none[Word(none)..] == none;
    assert Indices(none) == [];
    ValEmpty(58);
    NoDigits();
    assert ZeroBytes(0) + ToBytes(0) == [];
  }

  /** The text of bytes, in whatever white space, decodes to the bytes. */
  lemma DecodeEncode(pre: string, bytes: seq<Byte>, post: string)
    requires AllSpace(pre) && AllSpace(post)
    ensures Decoded(pre + Encoded(bytes) + post) == Some(bytes)
  {
    hide Val, ToDigits, Text, Leading, Repeat, AllSpace, Decoded, Digits, Canonical, ToBytes, ZeroBytes;
    BytesParts(bytes);
    var v, z := Val(256, bytes), Leading(bytes, 0);
    ToDigitsRight(58, v);
    var digits := ToDigits(58, v);
    var s := pre + Encoded(bytes) + post;
    if z == 0 && digits == [] {
      ValEmpty(58);
      NoDigits();
      assert ZeroBytes(0) + ToBytes(0) == [] by {
        BlankBytes();
      }
      assert Text(digits) == [] && Repeat('1', 0) == [];
      assert s == pre + post;
      BothSpaces(pre, post);
      DecodeBlank(s);
    } else {
      Regroup(pre, Repeat('1', z), Text(digits), post);
      DecodeParts(s, pre, z, digits, post);
    }
  }

  lemma Regroup<T>(a: seq<T>, b: seq<T>, c: seq<T>, d: seq<T>)
    ensures a + (b + c) + d == a + (b + (c + d))
  {
  }

  /** Bytes are their leading zeros and the digits of their number. */
  lemma BytesParts(bytes: seq<Byte>)
    ensures Val(256, bytes) >= 0 && bytes == ZeroBytes(Leading(bytes, 0)) + ToBytes(Val(256, bytes))
  {
    hide Val, ToDigits, Leading, Repeat;
    StripIsDigits(256, bytes);
    SplitLeading(bytes, 0);
  }

  lemma NoDigits()
    ensures ToDigits(256, 0) == []
  {
  }

  lemma BlankBytes()
    ensures ZeroBytes(0) + ToBytes(0) == []
  {
  }

  lemma BothSpaces(a: string, b: string)
    requires AllSpace(a) && AllSpace(b)
    ensures AllSpace(a + b)
  {
  }

  /** What decodes is the text of the bytes in white space. */
  lemma EncodeDecode(s: string, bytes: seq<Byte>) returns (pre: string, post: string)
    requires Decoded(s) == Some(bytes)
    ensures AllSpace(pre) && AllSpace(post) && s == pre + Encoded(bytes) + post
  {
    hide Val, ToDigits, Text, Leading, Repeat, Spaces, Word, Indices, IsSpace, IndexOf, ToBytes, ZeroBytes, Encoded, AllSpace;
    var n := Spaces(s);
    var t := s[n..];
    var z := Leading(t, '1');
    var rest := t[z..];
    var k := Word(rest);
    var word := rest[..k];
    pre, post := s[..n], rest[k..];
    SpacesApart(s, post);
    ValBound(58, Indices(word));
    EncodeParts(z, word, bytes);
    SplitLeading(t, '1');
    Rejoin(s, n, t, Repeat('1', z), k);
  }

  lemma SpacesApart(s: string, tail: string)
    ensures AllSpace(s[..Spaces(s)]) && (Spaces(tail) == |tail| ==> AllSpace(tail))
  {
    hide Spaces, IsSpace;
  }

  lemma Rejoin(s: string, n: nat, t: string, ones: string, k: nat)
    requires n <= |s| && t == s[n..] && |ones| <= |t| && t == ones + t[|ones|..] && k <= |t| - |ones|
    ensures s == s[..n] + (ones + t[|ones|..][..k]) + t[|ones|..][k..]
  {
    var rest := t[|ones|..];
    assert rest == rest[..k] + rest[k..];
    assert s == s[..n] + t;
    Regroup(s[..n], ones, rest[..k], rest[k..]);
  }

  /** Encoding what ones and a word of digits were decoded to gives them back. */
  lemma EncodeParts(z: nat, word: string, bytes: seq<Byte>)
    requires Valid(word) && (word != [] ==> word[0] != '1')
    requires Val(58, Indices(word)) >= 0 && bytes == ZeroBytes(z) + ToBytes(Val(58, Indices(word)))
    ensures Encoded(bytes) == Repeat('1', z) + word
  {
    hide Val, ToDigits, Leading, Repeat;
    var d := Indices(word);
    var v := Val(58, d);
    WordReads(word);
    ToDigitsRight(256, v);
    LeadingIs(bytes, 0, z);
    ValSkipZeros(256, bytes, z);
    assert bytes[z..] == ToBytes(v);
    StripIsDigits(58, d);
    LeadingIs(d, 0, 0);
    assert d[0..] == d;
  }

  lemma WordReads(word: string)
    requires Valid(word) && (word != [] ==> word[0] != '1')
    ensures Canonical(Indices(word)) && Text(Indices(word)) == word
  {
    hide Char, Indices, IndexOf;
    var d := Indices(word);
    forall i | 0 <= i < |word|
      ensures Char(d[i]) == word[i]
    {
      CharOfIndex(word[i]);
    }
    assert Text(d) == word;
    if word != [] {
      CharsAreNoSpaces(d[0]);
    }
  }

  /** A text decodes to bytes exactly if it is their text with white space around. */
  lemma DecodesExactly(s: string, bytes: seq<Byte>)
    ensures Decoded(s) == Some(bytes) <==>
              exists pre, post :: AllSpace(pre) && AllSpace(post) && s == pre + Encoded(bytes) + post
  {
    hide Decoded, Encoded;
    if Decoded(s) == Some(bytes) {
      var pre, post := EncodeDecode(s, bytes);
    }
    if pre, post :| AllSpace(pre) && AllSpace(post) && s == pre + Encoded(bytes) + post {
      DecodeEncode(pre, bytes, post);
    }
  }

  // --- the loops -------------------------------------------------------------------------------------

  /** One digit of a product with a carry. */
  lemma DigitStep(b: nat, factor: nat, c: nat, x: nat, carry: nat, p: nat, done: int, old_: int)
    requires b >= 1 && done + carry * p == factor * old_ + c
    ensures var n := carry + factor * x;
            ((n % b) * p + done) + (n / b) * (b * p) == factor * (x * p + old_) + c
  {
    var n := carry + factor * x;
    DivMod(n, b);
    MulSum(b * (n / b), n % b, p);
    MulAssoc(n / b, b, p);
    assert (b * (n / b)) * p == (n / b) * (b * p);
    MulSum(carry, factor * x, p);
    MulAssoc(factor, x, p);
    assert factor * (x * p + old_) == factor * (x * p) + factor * old_;
  }

  /** Multiply the digits in a buffer by a factor and add, from the last digit to the first. */
  method MultiplyAdd(buf: array<nat>, b: nat, factor: nat, c: nat) returns (carry: nat)
    requires b >= 1 && Digits(b, buf[..])
    modifies buf
    ensures Digits(b, buf[..])
    ensures Val(b, buf[..]) + carry * Pow(b, buf.Length) == factor * old(Val(b, buf[..])) + c
  {
    hide Val, Pow, Running;
    ghost var before := buf[..];
    carry := c;
    var it := buf.Length;
    RunningStart(b, before, factor, c);
    while it > 0
      invariant 0 <= it <= buf.Length && Digits(b, buf[..]) && buf[..it] == before[..it]
      invariant Running(b, buf[..], before, it, factor, c, carry)
    {
      it := it - 1;
      assert buf[it] == before[..it + 1][it];
      ghost var was := buf[..];
      MulNonNegative(factor, buf[it]);
      var n: nat := carry + factor * buf[it];
      RunningStep(b, was, before, it, factor, c, carry, n);
      var digit: nat := n % b;
      buf[it] := digit;
      assert buf[..] == was[it := digit];
      carry := n / b;
    }
    RunningDone(b, buf[..], before, factor, c, carry);
  }

  lemma MulNonNegativeQuotient(n: nat, b: nat)
    requires b >= 1
    ensures n / b >= 0
  {
  }

  /** The digits from a place on are done. */
  ghost predicate Running(b: nat, now: seq<nat>, before: seq<nat>, it: nat, factor: nat, c: nat, carry: nat)
    requires it <= |now| == |before|
  {
    Val(b, now[it..]) + carry * Pow(b, |now| - it) == factor * Val(b, before[it..]) + c
  }

  lemma RunningStart(b: nat, s: seq<nat>, factor: nat, c: nat)
    ensures Running(b, s, s, |s|, factor, c, c)
  {
    ValEmpty(b);
    assert s[|s|..] == [];
    assert Pow(b, 0) == 1;
  }

  lemma RunningStep(b: nat, now: seq<nat>, before: seq<nat>, it: nat, factor: nat, c: nat, carry: nat, n: nat)
    requires b >= 1 && it < |now| == |before| && now[it] == before[it] && n == carry + factor * before[it]
    requires Running(b, now, before, it + 1, factor, c, carry)
    ensures 0 <= n % b < b && 0 <= n / b && Running(b, now[it := n % b], before, it, factor, c, n / b)
  {
    hide Val;
    DivMod(n, b);
    MulNonNegativeQuotient(n, b);
    var k := |now| - it - 1;
    var next := now[it := n % b];
    assert next[it..] == [n % b] + now[it + 1..];
    assert before[it..] == [before[it]] + before[it + 1..];
    ValConcat(b, [n % b], now[it + 1..]);
    ValConcat(b, [before[it]], before[it + 1..]);
    ValOne(b, n % b);
    ValOne(b, before[it]);
    assert Pow(b, |now| - it) == b * Pow(b, k);
    DigitStep(b, factor, c, before[it], carry, Pow(b, k), Val(b, now[it + 1..]), Val(b, before[it + 1..]));
  }

  lemma RunningDone(b: nat, now: seq<nat>, before: seq<nat>, factor: nat, c: nat, carry: nat)
    requires |now| == |before| && Running(b, now, before, 0, factor, c, carry)
    ensures Val(b, now) + carry * Pow(b, |now|) == factor * Val(b, before) + c
  {
    assert now[0..] == now && before[0..] == before;
  }

  /** A carry out of the buffer would mean a number too large for it. */
  lemma NoCarry(v: int, carry: nat, p: nat, total: int)
    requires v >= 0 && p >= 1 && v + carry * p == total < p
    ensures carry == 0
  {
    if carry > 0 {
      MulMono(1, carry, p);
    }
  }

  /** Take one more digit into a buffer of another base. The buffer is large enough, so no carry is left over. */
  method TakeDigit(buf: array<nat>, a: nat, b: nat, d: nat, ghost prefix: seq<nat>)
    requires a >= 1 && b >= 1 && Digits(b, buf[..]) && Digits(a, prefix) && d < a && Val(b, buf[..]) == Val(a, prefix)
    requires Pow(a, |prefix| + 1) <= Pow(b, buf.Length)
    modifies buf
    ensures Digits(b, buf[..]) && Val(b, buf[..]) == Val(a, prefix + [d])
  {
    hide Val, Pow;
    ValSnoc(a, prefix, d);
    ValBound(a, prefix + [d]);
    var carry := MultiplyAdd(buf, b, a, d);
    ValBound(b, buf[..]);
    assert a * Val(a, prefix) == Val(a, prefix) * a;
    NoCarry(Val(b, buf[..]), carry, Pow(b, buf.Length), Val(a, prefix + [d]));
    assert carry == 0;
    assert 0 * Pow(b, buf.Length) == 0;
  }

  /** Skip leading zeros. */
  method SkipZeros(s: seq<nat>) returns (it: nat)
    ensures it == Leading(s, 0)
  {
    it := 0;
    while it != |s| && s[it] == 0
      invariant it <= |s| && forall i :: 0 <= i < it ==> s[i] == 0
    {
      it := it + 1;
    }
    LeadingIs(s, 0, it);
  }

  /** The bytes of a number in base 58, in a buffer that always suffices. */
  method ToBase58(bytes: seq<Byte>) returns (digits: seq<nat>)
    ensures Digits(58, digits) && Val(256, bytes) >= 0 && digits == ToDigits(58, Val(256, bytes))
  {
    hide Val, Pow, ToDigits, Leading;
    var b58 := new nat[|bytes| * 138 / 100 + 1](_ => 0);
    ZeroDigits(58, b58[..]);
    EncodeBufferFits(|bytes|);
    ValEmpty(256);
    for k := 0 to |bytes|
      invariant Digits(58, b58[..]) && Val(58, b58[..]) == Val(256, bytes[..k])
    {
      PowGrows(256, k + 1, |bytes|);
      TakeDigit(b58, 256, 58, bytes[k], bytes[..k]);
      assert bytes[..k + 1] == bytes[..k] + [bytes[k]];
    }
    assert bytes[..|bytes|] == bytes;
    var it := SkipZeros(b58[..]);
    StripIsDigits(58, b58[..]);
    digits := b58[..][it..];
  }

  lemma {:induction false} ZeroDigits(b: nat, s: seq<nat>)
    requires b >= 1 && forall i :: 0 <= i < |s| ==> s[i] == 0
    ensures Digits(b, s) && Val(b, s) == 0
  {
    ValSkipZeros(b, s, |s|);
    assert s[|s|..] == [];
    ValEmpty(b);
  }

  /** Text for bytes. */
  method EncodeBase58(bytes: seq<Byte>) returns (str: string)
    ensures str == Encoded(bytes)
  {
    hide Val, Pow, ToDigits, Leading, Repeat;
    var zeroes := SkipZeros(bytes);
    var digits := ToBase58(bytes[zeroes..]);
    ValSkipZeros(256, bytes, zeroes);
    str := Repeat('1', zeroes);
    ghost var ones := str;
    for k := 0 to |digits|
      invariant |str| == |ones| + k && str[..|ones|] == ones
      invariant forall i :: 0 <= i < k ==> str[|ones| + i] == Char(digits[i])
    {
      str := str + [Char(digits[k])];
    }
    assert str[|ones|..] == Text(digits);
    assert str == ones + str[|ones|..];
  }

  /** Skip white space. */
  method SkipSpaces(s: string) returns (n: nat)
    ensures n == Spaces(s)
  {
    n := 0;
    while n < |s| && IsSpace(s[n])
      invariant n <= |s| && forall i :: 0 <= i < n ==> IsSpace(s[i])
    {
      n := n + 1;
    }
    SpacesIs(s, n);
  }

  lemma SpacesIs(s: string, n: nat)
    requires n <= |s| && (forall i :: 0 <= i < n ==> IsSpace(s[i])) && (n < |s| ==> !IsSpace(s[n]))
    ensures Spaces(s) == n
  {
    hide Spaces, IsSpace;
  }

  lemma WordIs(s: string, n: nat)
    requires n <= |s| && (forall i :: 0 <= i < n ==> !IsSpace(s[i])) && (n < |s| ==> IsSpace(s[n]))
    ensures Word(s) == n
  {
    hide Word, IsSpace;
  }

  /** Skip and count the ones. */
  method SkipOnes(s: string) returns (zeroes: nat)
    ensures zeroes == Leading(s, '1')
  {
    zeroes := 0;
    while zeroes < |s| && s[zeroes] == '1'
      invariant zeroes <= |s| && forall i :: 0 <= i < zeroes ==> s[i] == '1'
    {
      zeroes := zeroes + 1;
    }
    LeadingIs(s, '1', zeroes);
  }

  /** Read digits up to white space or the end into a byte buffer that always suffices; stop at a foreign character. */
  method ReadWord(rest: string) returns (ok: bool, n: nat, bytes: seq<nat>)
    ensures ok <==> Valid(rest[..Word(rest)])
    ensures ok ==> n == Word(rest) && Val(58, Indices(rest[..n])) >= 0 && bytes == ToDigits(256, Val(58, Indices(rest[..n])))
  {
    hide Val, Pow, ToDigits, Leading, Word, IndexOf, IsSpace, Indices;
    var b256 := new nat[|rest| * 733 / 1000 + 1](_ => 0);
    ZeroDigits(256, b256[..]);
    DecodeBufferFits(|rest|);
    n, ok, bytes := 0, true, [];
    assert rest[..0] == [];
    ReadNothing();
    while n < |rest| && !IsSpace(rest[n])
      invariant n <= |rest| && (forall i :: 0 <= i < n ==> !IsSpace(rest[i])) && Valid(rest[..n])
      invariant Digits(256, b256[..]) && Val(256, b256[..]) == Val(58, Indices(rest[..n]))
    {
      CharOfIndex(rest[n]);
      var ch := IndexOf(rest[n]);
      if ch == -1 {
        ForeignChar(rest, n);
        return false, n, [];
      }
      PowGrows(58, n + 1, |rest|);
      ReadOne(rest, n);
      TakeDigit(b256, 58, 256, ch, Indices(rest[..n]));
      n := n + 1;
    }
    WordIs(rest, n);
    var it := SkipZeros(b256[..]);
    StripIsDigits(256, b256[..]);
    bytes := b256[..][it..];
  }

  lemma ReadNothing()
    ensures Valid([]) && Indices([]) == [] && Val(58, Indices([])) == 0
  {
    ValEmpty(58);
    assert Indices([]) == [];
  }

  lemma ReadOne(s: string, n: nat)
    requires n < |s| && Valid(s[..n]) && IndexOf(s[n]) != -1
    ensures Valid(s[..n + 1]) && 0 <= IndexOf(s[n]) && Indices(s[..n + 1]) == Indices(s[..n]) + [IndexOf(s[n])]
  {
    hide IndexOf, Indices;
    CharOfIndex(s[n]);
    assert s[..n + 1] == s[..n] + [s[n]];
  }

  lemma ForeignChar(s: string, n: nat)
    requires n < |s| && IndexOf(s[n]) == -1 && forall i :: 0 <= i <= n ==> !IsSpace(s[i])
    ensures !Valid(s[..Word(s)])
  {
    hide Word, IsSpace, IndexOf;
    assert Word(s) > n;
    assert s[..Word(s)][n] == s[n];
  }

  /** Bytes from text. */
  method DecodeBase58(psz: string) returns (r: Option<seq<Byte>>)
    ensures r == Decoded(psz)
  {
    hide Val, Pow, ToDigits, Leading, Word, Spaces, IndexOf, IsSpace, Indices, Valid, Repeat;
    var skip := SkipSpaces(psz);
    var t := psz[skip..];
    var zeroes := SkipOnes(t);
    var rest := t[zeroes..];
    var ok, n, bytes := ReadWord(rest);
    if !ok {
      return None;
    }
    var tail := rest[n..];
    var trail := SkipSpaces(tail);
    if trail != |tail| {
      return None;
    }
    ToDigitsRight(256, Val(58, Indices(rest[..n])));
    var vch: seq<Byte> := ZeroBytes(zeroes);
    r := Some(vch + bytes);
  }
}
