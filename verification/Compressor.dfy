/** Compact forms of amounts, integers, scripts and outputs, as stored in the coin database. */
module Compressor {
  import opened Basics
  import opened Coins
  import opened Powers
  import opened Products

  type Bytes = seq<Byte>

  // --- amounts ------------------------------------------------------------------------------

  /** An amount without its trailing zeros, of which at most nine are counted. */
  predicate Stripped(m: nat, e: nat) { m > 0 && e <= 9 && (e < 9 ==> m % 10 != 0) }

  /** Mantissa and exponent in one number; below nine zeros the last digit is never zero. */
  function PackAmount(m: nat, e: nat): (x: nat)
    requires Stripped(m, e)
  {
    if e < 9 then 1 + (m / 10 * 9 + m % 10 - 1) * 10 + e else 1 + (m - 1) * 10 + 9
  }

  function UnpackMantissa(x: nat): (m: nat)
    requires x > 0
  {
    var y := (x - 1) / 10;
    if (x - 1) % 10 < 9 then y / 9 * 10 + y % 9 + 1 else y + 1
  }

  function UnpackExponent(x: nat): (e: nat)
    requires x > 0
  {
    (x - 1) % 10
  }

  /** Packing and unpacking are inverse to each other. */
  lemma PackUnpack(m: nat, e: nat)
    requires Stripped(m, e)
    ensures PackAmount(m, e) > 0 && UnpackMantissa(PackAmount(m, e)) == m && UnpackExponent(PackAmount(m, e)) == e
  {
    var x := PackAmount(m, e);
    if e < 9 {
      var y := m / 10 * 9 + m % 10 - 1;
      assert (x - 1) / 10 == y && (x - 1) % 10 == e;
      assert y / 9 == m / 10 && y % 9 == m % 10 - 1;
    } else {
      assert (x - 1) / 10 == m - 1 && (x - 1) % 10 == 9;
    }
  }

  lemma UnpackPack(x: nat)
    requires x > 0
    ensures Stripped(UnpackMantissa(x), UnpackExponent(x)) && PackAmount(UnpackMantissa(x), UnpackExponent(x)) == x
  {
    var y, e := (x - 1) / 10, (x - 1) % 10;
    if e < 9 {
      var m := y / 9 * 10 + y % 9 + 1;
      assert m / 10 == y / 9 && m % 10 == y % 9 + 1;
    }
  }

  /** Zeros stripped off an amount, starting with e already counted. */
  function Strip(n: nat, e: nat): (r: (nat, nat))
    requires n > 0 && e <= 9
    ensures r.0 > 0 && r.1 <= 9 && e <= r.1 && (r.1 < 9 ==> r.0 % 10 != 0)
    ensures n == r.0 * Pow(10, r.1 - e)
    decreases 9 - e
  {
    if n % 10 == 0 && e < 9 then
      var r := Strip(n / 10, e + 1);
      assert n == r.0 * Pow(10, r.1 - e) by {
        assert Pow(10, r.1 - e) == 10 * Pow(10, r.1 - e - 1);
        MulSwap(r.0, 10, Pow(10, r.1 - e - 1));
      }
      r
    else
      assert Pow(10, 0) == 1;
      (n, e)
  }

  lemma StripStep(n: nat, e: nat)
    requires n > 0 && e < 9 && n % 10 == 0
    ensures n / 10 > 0 && Strip(n, e) == Strip(n / 10, e + 1)
  {
  }

  lemma StripEnd(n: nat, e: nat)
    requires n > 0 && e <= 9 && (n % 10 != 0 || e == 9)
    ensures Strip(n, e) == (n, e)
  {
  }

  function Compressed(n: nat): (x: nat) { if n == 0 then 0 else PackAmount(Strip(n, 0).0, Strip(n, 0).1) }

  function Decompressed(x: nat): (n: int) { if x == 0 then 0 else UnpackMantissa(x) * Pow(10, UnpackExponent(x)) }

  /** Stripping what was stripped and padded again. */
  lemma {:induction false} StripUnique(m: nat, e: nat, d: nat)
    requires Stripped(m, e) && d <= e
    ensures m * Pow(10, e - d) > 0 && Strip(m * Pow(10, e - d), d) == (m, e)
    decreases e - d
  {
    if d == e {
      assert Pow(10, 0) == 1;
      hide Pow;
      StripNothing(m, e);
    } else {
      StripUnique(m, e, d + 1);
      var rest := m * Pow(10, e - d - 1);
      assert Pow(10, e - d) == 10 * Pow(10, e - d - 1);
      MulSwap(m, 10, Pow(10, e - d - 1));
      hide Pow;
      StripOne(rest, d);
    }
  }

  lemma StripNothing(m: nat, e: nat)
    requires Stripped(m, e)
    ensures Strip(m, e) == (m, e)
  {
  }

  lemma StripOne(n: nat, e: nat)
    requires n > 0 && e < 9
    ensures Strip(10 * n, e) == Strip(n, e + 1)
  {
    assert (10 * n) % 10 == 0 && (10 * n) / 10 == n;
  }

  /** Amount compression is a bijection. */
  lemma DecompressCompress(n: nat)
    ensures Decompressed(Compressed(n)) == n
  {
    hide PackAmount, UnpackMantissa, UnpackExponent, Strip;
    if n > 0 {
      PackUnpack(Strip(n, 0).0, Strip(n, 0).1);
    }
  }

  lemma CompressDecompress(x: nat)
    ensures Decompressed(x) >= 0 && Compressed(Decompressed(x)) == x
  {
    hide PackAmount, UnpackMantissa, UnpackExponent, Strip;
    if x > 0 {
      UnpackPack(x);
      StripUnique(UnpackMantissa(x), UnpackExponent(x), 0);
    }
  }

  const U64 := 0x1_0000_0000_0000_0000

  /** A compressed amount is less than ten times as large, so money never overflows 64 bits. */
  lemma CompressedBound(n: nat)
    ensures Compressed(n) <= 10 * n
    ensures n <= MAX_MONEY ==> 10 * n < U64
  {
    hide Strip, Pow;
    if n > 0 {
      var (m, e) := Strip(n, 0);
      PackedBound(m, e);
      MulMono(1, Pow(10, e), m);
    }
  }

  lemma PackedBound(m: nat, e: nat)
    requires Stripped(m, e)
    ensures PackAmount(m, e) <= 10 * m
  {
  }

  /** Compress an amount by dividing off its zeros. */
  method CompressAmount(amount: nat) returns (x: nat)
    ensures x == Compressed(amount)
  {
    if amount == 0 {
      return 0;
    }
    hide Strip;
    var n, e := amount, 0;
    while n % 10 == 0 && e < 9
      invariant n > 0 && e <= 9 && Strip(n, e) == Strip(amount, 0)
    {
      StripStep(n, e);
      n := n / 10;
      e := e + 1;
    }
    StripEnd(n, e);
    if e < 9 {
      var d := n % 10;
      n := n / 10;
      x := 1 + (n * 9 + d - 1) * 10 + e;
    } else {
      x := 1 + (n - 1) * 10 + 9;
    }
  }

  /** Decompress an amount by multiplying its zeros back on. */
  method DecompressAmount(compressed: nat) returns (n: int)
    ensures n == Decompressed(compressed)
  {
    if compressed == 0 {
      return 0;
    }
    var x := compressed - 1;
    var e := x % 10;
    x := x / 10;
    n := 0;
    if e < 9 {
      var d := x % 9 + 1;
      x := x / 9;
      n := x * 10 + d;
    } else {
      n := x + 1;
    }
    ghost var m, e0 := n, e;
    assert Pow(10, 0) == 1;
    while e > 0
      invariant 0 <= e <= e0 && n == m * Pow(10, e0 - e)
    {
      assert Pow(10, e0 - e + 1) == 10 * Pow(10, e0 - e);
      MulSwap(m, 10, Pow(10, e0 - e));
      n := n * 10;
      e := e - 1;
    }
  }

  // --- integers of variable length ------------------------------------------------------------------

  /** The bytes of an integer, each but the last with its highest bit set; every step takes one off, so that every
      integer has exactly one form. */
  function VarIntHead(n: nat): (b: Bytes) {
    if n <= 0x7f then [n + 0x80] else VarIntHead(n / 128 - 1) + [n % 128 + 0x80]
  }

  function VarInt(n: nat): (b: Bytes) {
    if n <= 0x7f then [n] else VarIntHead(n / 128 - 1) + [n % 128]
  }

  /** Read an integer; what was read so far is passed along. */
  function ReadVarInt(s: Bytes, n: nat): (r: Option<(nat, Bytes)>) {
    if s == [] then None
    else
      var m := n * 128 + s[0] % 128;
      if s[0] >= 0x80 then ReadVarInt(s[1..], m + 1) else Some((m, s[1..]))
  }

  /** Reading one byte. */
  lemma ReadByte(d: Byte, rest: Bytes, n: nat)
    ensures var m := n * 128 + d % 128;
            ReadVarInt([d] + rest, n) == if d >= 0x80 then ReadVarInt(rest, m + 1) else Some((m, rest))
  {
    assert ([d] + rest)[1..] == rest;
  }

  /** What the steps of writing take apart, the steps of reading put together. */
  lemma Digits(n: nat)
    requires n > 0x7f
    ensures n / 128 >= 1 && n / 128 - 1 < n && (n / 128) * 128 + n % 128 == n && (n % 128 + 0x80) % 128 == n % 128 < 128
  {
  }

  lemma {:induction false} ReadHead(n: nat, rest: Bytes)
    ensures ReadVarInt(VarIntHead(n) + rest, 0) == ReadVarInt(rest, n + 1)
  {
    hide ReadVarInt;
    if n <= 0x7f {
      ReadByte(n + 0x80, rest, 0);
    } else {
      Digits(n);
      var k, d := n / 128 - 1, n % 128 + 0x80;
      assert VarIntHead(n) + rest == VarIntHead(k) + ([d] + rest);
      ReadHead(k, [d] + rest);
      ReadByte(d, rest, k + 1);
    }
  }

  /** An integer reads back, and nothing after it is touched. */
  lemma ReadWriteVarInt(n: nat, rest: Bytes)
    ensures ReadVarInt(VarInt(n) + rest, 0) == Some((n, rest))
  {
    hide ReadVarInt, VarIntHead;
    if n <= 0x7f {
      ReadByte(n, rest, 0);
    } else {
      Digits(n);
      var k, d := n / 128 - 1, n % 128;
      assert VarInt(n) + rest == VarIntHead(k) + ([d] + rest);
      ReadHead(k, [d] + rest);
      ReadByte(d, rest, k + 1);
    }
  }

  /** A signed integer: a negative one counts as small, so that only its low seven bits are written. */
  function IntForm(n: int): (b: Bytes) { if n < 0 then [n % 128] else VarInt(n) }

  /** What is left of a signed integer. */
  function StoredInt(n: int): (r: nat)
    ensures r == n <==> n >= 0
  {
    if n < 0 then n % 128 else n
  }

  /** A signed integer reads back exactly if it is not negative, and otherwise as its low seven bits. */
  lemma ReadWriteInt(n: int, rest: Bytes)
    ensures ReadVarInt(IntForm(n) + rest, 0) == Some((StoredInt(n), rest))
    ensures ReadVarInt(IntForm(n) + rest, 0) == Some((n, rest)) <==> n >= 0
  {
    hide VarInt;
    ReadWriteVarInt(StoredInt(n), rest);
    if n < 0 {
      ShortForm(n % 128);
    }
  }

  lemma ShortForm(n: nat)
    requires n < 128
    ensures VarInt(n) == [n]
  {
  }

  /** Write an integer: the bytes are made from the last to the first. */
  method WriteVarInt(value: int) returns (out: Bytes)
    ensures out == IntForm(value)
  {
    hide StillToWrite;
    var n := value;
    out := [n % 128];
    LastByte(n);
    while n > 0x7f
      invariant StillToWrite(n) + out == IntForm(value)
    {
      ByteBefore(n, out);
      n := n / 128 - 1;
      out := [n % 128 + 0x80] + out;
    }
    NothingLeft(n, out);
  }

  /** The bytes in front of the one just written. */
  function StillToWrite(n: int): Bytes { if n <= 0x7f then [] else VarIntHead(n / 128 - 1) }

  lemma LastByte(n: int)
    ensures StillToWrite(n) + [n % 128] == IntForm(n)
  {
    hide VarIntHead;
  }

  lemma ByteBefore(n: int, out: Bytes)
    requires n > 0x7f
    ensures var m := n / 128 - 1; m >= 0 && StillToWrite(m) + ([m % 128 + 0x80] + out) == StillToWrite(n) + out
  {
    var m := n / 128 - 1;
    assert VarIntHead(m) == StillToWrite(m) + [m % 128 + 0x80];
  }

  lemma NothingLeft(n: int, out: Bytes)
    requires n <= 0x7f
    ensures StillToWrite(n) + out == out
  {
  }

  // --- scripts ------------------------------------------------------------------------------------------

  const OP_DUP: Byte := 0x76
  const OP_EQUAL: Byte := 0x87
  const OP_EQUALVERIFY: Byte := 0x88
  const OP_HASH160: Byte := 0xa9
  const OP_CHECKSIG: Byte := 0xac
  const SPECIAL_SCRIPTS := 6

  /** What is known about public keys: which uncompressed ones are on the curve, and how a compressed one expands. */
  datatype Keys = Keys(fullyValid: Bytes -> bool, decompress: Bytes -> Option<Bytes>)

  /** A valid uncompressed key comes back from its first coordinate and the parity of its second. */
  ghost predicate KeysRight(keys: Keys) {
    forall k: Bytes :: |k| == 65 && k[0] == 4 && keys.fullyValid(k) ==> keys.decompress([2 + k[64] % 2] + k[1..33]) == Some(k)
  }

  /** The short form of the common scripts. */
  function CompressScript(keys: Keys, s: Bytes): (r: Option<Bytes>) {
    if |s| == 25 && s[0] == OP_DUP && s[1] == OP_HASH160 && s[2] == 20 && s[23] == OP_EQUALVERIFY && s[24] == OP_CHECKSIG then
      Some([0] + s[3..23])
    else if |s| == 23 && s[0] == OP_HASH160 && s[1] == 20 && s[22] == OP_EQUAL then
      Some([1] + s[2..22])
    else if |s| == 35 && s[0] == 33 && s[34] == OP_CHECKSIG && (s[1] == 2 || s[1] == 3) then
      Some([s[1]] + s[2..34])
    else if |s| == 67 && s[0] == 65 && s[66] == OP_CHECKSIG && s[1] == 4 && keys.fullyValid(s[1..66]) then
      Some([4 + s[65] % 2] + s[2..34])
    else None
  }

  function SpecialSize(kind: nat): nat
    requires kind < SPECIAL_SCRIPTS
  {
    if kind <= 1 then 20 else 32
  }

  /** The script of a short form; an invalid key leaves the script empty. */
  function DecompressScript(keys: Keys, kind: Byte, data: Bytes): (s: Bytes)
    requires kind < SPECIAL_SCRIPTS && |data| == SpecialSize(kind)
  {
    if kind == 0 then [OP_DUP, OP_HASH160, 20] + data + [OP_EQUALVERIFY, OP_CHECKSIG]
    else if kind == 1 then [OP_HASH160, 20] + data + [OP_EQUAL]
    else if kind <= 3 then [33, kind] + data + [OP_CHECKSIG]
    else
      match keys.decompress([kind - 2] + data)
      case None => []
      case Some(k) => [65] + k + [OP_CHECKSIG]
  }

  function WriteScript(keys: Keys, s: Bytes): (r: Bytes) {
    match CompressScript(keys, s)
    case Some(c) => c
    case None => VarInt(|s| + SPECIAL_SCRIPTS) + s
  }

  function ReadScript(keys: Keys, stream: Bytes): (r: Option<(Bytes, Bytes)>) {
    match ReadVarInt(stream, 0)
    case None => None
    case Some((n, rest)) =>
      if n < SPECIAL_SCRIPTS then
        if |rest| < SpecialSize(n) then None
        else Some((DecompressScript(keys, n, rest[..SpecialSize(n)]), rest[SpecialSize(n)..]))
      else if |rest| < n - SPECIAL_SCRIPTS then None
      else Some((rest[..n - SPECIAL_SCRIPTS], rest[n - SPECIAL_SCRIPTS..]))
  }

  /** A short form expands to the script it came from. */
  lemma ShortFormExact(keys: Keys, s: Bytes)
    requires KeysRight(keys) && CompressScript(keys, s).Some?
    ensures var c := CompressScript(keys, s).value;
            && |c| > 0 && c[0] < SPECIAL_SCRIPTS && |c| == 1 + SpecialSize(c[0])
            && DecompressScript(keys, c[0], c[1..]) == s
  {
    var c := CompressScript(keys, s).value;
    if |s| == 25 {
      assert s == [s[0], s[1], s[2]] + s[3..23] + [s[23], s[24]];
    } else if |s| == 23 {
      assert s == [s[0], s[1]] + s[2..22] + [s[22]];
    } else if |s| == 35 {
      assert s == [s[0], s[1]] + s[2..34] + [s[34]];
    } else {
      var k := s[1..66];
      PartOfPart(s, 1, 66, 1, 33);
      assert c[0] - 2 == 2 + k[64] % 2;
      assert s == [s[0]] + k + [s[66]];
    }
  }

  /** A script reads back, and nothing after it is touched. */
  lemma ReadWriteScript(keys: Keys, s: Bytes, rest: Bytes)
    requires KeysRight(keys)
    ensures ReadScript(keys, WriteScript(keys, s) + rest) == Some((s, rest))
  {
    hide VarInt, ReadVarInt, CompressScript, DecompressScript, KeysRight;
    if CompressScript(keys, s).Some? {
      ShortFormExact(keys, s);
      var c := CompressScript(keys, s).value;
      var tail := c[1..] + rest;
      assert c + rest == [c[0]] + tail;
      ReadOneByte(c[0], tail);
      assert tail[..SpecialSize(c[0])] == c[1..] && tail[SpecialSize(c[0])..] == rest;
    } else {
      var n := |s| + SPECIAL_SCRIPTS;
      ReadWriteVarInt(n, s + rest);
      assert VarInt(n) + s + rest == VarInt(n) + (s + rest);
      assert (s + rest)[..|s|] == s && (s + rest)[|s|..] == rest;
    }
  }

  lemma ReadOneByte(b: Byte, rest: Bytes)
    requires b < 0x80
    ensures ReadVarInt([b] + rest, 0) == Some((b, rest))
  {
    assert ([b] + rest)[1..] == rest;
  }

  // --- outputs --------------------------------------------------------------------------------------------

  predicate IsBytes(s: seq<nat>) { forall i :: 0 <= i < |s| ==> s[i] < 256 }

  /** An output that can be stored: a value that is not negative, and a script of bytes. */
  predicate Storable(o: TxOut) { o.value >= 0 && IsBytes(o.script) }

  function WriteTxOut(keys: Keys, o: TxOut): (r: Bytes)
    requires Storable(o)
  {
    VarInt(Compressed(o.value)) + WriteScript(keys, o.script)
  }

  function ReadTxOut(keys: Keys, stream: Bytes): (r: Option<(TxOut, Bytes)>) {
    match ReadVarInt(stream, 0)
    case None => None
    case Some((x, rest)) =>
      match ReadScript(keys, rest)
      case None => None
      case Some((script, rest')) => Some((TxOut(Decompressed(x), script), rest'))
  }

  /** An output reads back, and nothing after it is touched. */
  lemma ReadWriteTxOut(keys: Keys, o: TxOut, rest: Bytes)
    requires KeysRight(keys) && Storable(o)
    ensures ReadTxOut(keys, WriteTxOut(keys, o) + rest) == Some((o, rest))
  {
    hide VarInt, ReadVarInt, Compressed, Decompressed, ReadScript, WriteScript, KeysRight;
    var x, script := Compressed(o.value), WriteScript(keys, o.script);
    assert VarInt(x) + script + rest == VarInt(x) + (script + rest);
    ReadWriteVarInt(x, script + rest);
    ReadWriteScript(keys, o.script, rest);
    DecompressCompress(o.value);
  }
}
