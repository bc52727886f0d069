/**
 The stored form of a coins record: version, a code word, a bit mask that ends itself, the unspent
 outputs and the height.
 */
module CoinsCodec {
  import opened Basics
  import opened Coins
  import opened Compressor
  import opened Powers
  import opened Products

  // --- the availability mask ------------------------------------------------------------------

  predicate Avail(vout: seq<TxOut>, i: nat) { i < |vout| && !vout[i].IsNull() }

  /** The availabilities that one byte of the mask stands for; the first two outputs are not in the mask. */
  function ByteBits(vout: seq<TxOut>, b: nat): (bits: seq<bool>)
    ensures |bits| == 8 && forall i :: 0 <= i < 8 ==> bits[i] == Avail(vout, 2 + b * 8 + i)
  {
    seq(8, i requires 0 <= i < 8 => Avail(vout, 2 + b * 8 + i))
  }

  predicate Used(vout: seq<TxOut>, b: nat) { exists i :: 0 <= i < 8 && ByteBits(vout, b)[i] }

  /** Bytes that have an output in them. */
  function ByteCount(vout: seq<TxOut>): (n: nat)
    ensures 2 + n * 8 >= |vout| && (forall b: nat :: 2 + b * 8 < |vout| <==> b < n)
  {
    if |vout| <= 2 then 0 else (|vout| + 5) / 8
  }

  /** Up to the last of the first k bytes that is used. */
  function LastUsed(vout: seq<TxOut>, k: nat): (n: nat) {
    if k == 0 then 0 else if Used(vout, k - 1) then k else LastUsed(vout, k - 1)
  }

  /** Used bytes from b up to n. */
  function UsedFrom(vout: seq<TxOut>, b: nat, n: nat): (c: nat)
    requires b <= n
    decreases n - b
  {
    if b == n then 0 else (if Used(vout, b) then 1 else 0) + UsedFrom(vout, b + 1, n)
  }

  lemma {:induction false} UsedSnoc(vout: seq<TxOut>, b: nat, n: nat)
    requires b <= n
    ensures UsedFrom(vout, b, n + 1) == UsedFrom(vout, b, n) + if Used(vout, n) then 1 else 0
    decreases n - b
  {
    if b < n {
      UsedSnoc(vout, b + 1, n);
    }
  }

  /** Count the bytes of the mask and those that are not zero. */
  method CalcMaskSize(vout: seq<TxOut>) returns (nBytes: nat, nNonzeroBytes: nat)
    ensures nBytes == LastUsed(vout, ByteCount(vout)) && nNonzeroBytes == UsedFrom(vout, 0, ByteCount(vout))
  {
    nBytes, nNonzeroBytes := 0, 0;
    var b := 0;
    while 2 + b * 8 < |vout|
      invariant b <= ByteCount(vout)
      invariant nBytes == LastUsed(vout, b) && nNonzeroBytes == UsedFrom(vout, 0, b)
    {
      var fZero := true;
      var i := 0;
      while i < 8 && 2 + b * 8 + i < |vout|
        invariant 0 <= i <= 8 && fZero == forall j :: 0 <= j < i ==> !ByteBits(vout, b)[j]
      {
        assert ByteBits(vout, b)[i] == !vout[2 + b * 8 + i].IsNull();
        if !vout[2 + b * 8 + i].IsNull() {
          fZero := false;
        }
        i := i + 1;
      }
      assert forall j :: i <= j < 8 ==> !ByteBits(vout, b)[j];
      UsedSnoc(vout, 0, b);
      if !fZero {
        nBytes := b + 1;
        nNonzeroBytes := nNonzeroBytes + 1;
      }
      b := b + 1;
    }
  }

  /** In a record without spent outputs at its end, the last byte of the mask is used. */
  lemma CleanMask(vout: seq<TxOut>)
    requires |vout| > 0 ==> !vout[|vout| - 1].IsNull()
    ensures ByteCount(vout) > 0 ==> Used(vout, ByteCount(vout) - 1)
    ensures LastUsed(vout, ByteCount(vout)) == ByteCount(vout)
  {
    var n := ByteCount(vout);
    if n > 0 {
      var i := |vout| - 1 - (2 + (n - 1) * 8);
      assert 2 + (n - 1) * 8 < |vout| && 0 <= i < 8;
      assert ByteBits(vout, n - 1)[i];
    }
  }

  // --- bytes of bits -----------------------------------------------------------------------------

  /** The byte with these bits, the first one lowest. */
  function ByteOf(bits: seq<bool>): (n: nat) { if bits == [] then 0 else (if bits[0] then 1 else 0) + 2 * ByteOf(bits[1..]) }

  /** The lowest k bits of a byte. */
  function BitsOf(n: nat, k: nat): (bits: seq<bool>)
    ensures |bits| == k
  {
    if k == 0 then [] else [n % 2 == 1] + BitsOf(n / 2, k - 1)
  }

  lemma {:induction false} BitsOfByte(bits: seq<bool>)
    ensures BitsOf(ByteOf(bits), |bits|) == bits
    ensures ByteOf(bits) == 0 <==> forall i :: 0 <= i < |bits| ==> !bits[i]
    decreases |bits|
  {
    if bits != [] {
      BitsOfByte(bits[1..]);
      assert bits == [bits[0]] + bits[1..];
      assert forall i :: 1 <= i < |bits| ==> bits[i] == bits[1..][i - 1];
      if forall i :: 0 <= i < |bits| ==> !bits[i] {
        assert forall i :: 0 <= i < |bits[1..]| ==> !bits[1..][i];
      }
      if ByteOf(bits) == 0 {
        assert ByteOf(bits[1..]) == 0;
      }
    }
  }

  lemma {:induction false} ByteBound(bits: seq<bool>)
    ensures ByteOf(bits) < Pow2(|bits|)
    decreases |bits|
  {
    if bits != [] {
      ByteBound(bits[1..]);
    }
  }

  function MaskByte(vout: seq<TxOut>, b: nat): Byte {
    ByteBound(ByteBits(vout, b));
    assert Pow2(8) == 256;
    ByteOf(ByteBits(vout, b))
  }

  /** A byte of the mask is zero exactly if it is not used, and reads back as its bits. */
  lemma MaskByteReads(vout: seq<TxOut>, b: nat)
    ensures MaskByte(vout, b) != 0 <==> Used(vout, b)
    ensures BitsOf(MaskByte(vout, b), 8) == ByteBits(vout, b)
  {
    hide ByteOf, BitsOf, ByteBits;
    BitsOfByte(ByteBits(vout, b));
  }

  /** Build one byte of the mask, bit by bit. */
  method BuildMaskByte(vout: seq<TxOut>, b: nat) returns (chAvail: nat)
    ensures chAvail == MaskByte(vout, b)
  {
    hide ByteOf, ByteBits;
    chAvail := 0;
    var i := 0;
    ghost var bits := ByteBits(vout, b);
    ByteNothing();
    while i < 8 && 2 + b * 8 + i < |vout|
      invariant 0 <= i <= 8 && chAvail == ByteOf(bits[..i])
    {
      ByteSnoc(bits[..i], bits[i]);
      assert bits[..i + 1] == bits[..i] + [bits[i]];
      if !vout[2 + b * 8 + i].IsNull() {
        chAvail := chAvail + Pow2(i);
      }
      i := i + 1;
    }
    ByteRest(bits, i);
  }

  lemma ByteNothing()
    ensures ByteOf([]) == 0
  {
  }

  lemma {:induction false} ByteSnoc(bits: seq<bool>, f: bool)
    ensures ByteOf(bits + [f]) == ByteOf(bits) + if f then Pow2(|bits|) else 0
    decreases |bits|
  {
    if bits == [] {
      assert [f][1..] == [];
      assert Pow2(0) == 1;
    } else {
      assert (bits + [f])[1..] == bits[1..] + [f];
      ByteSnoc(bits[1..], f);
    }
  }

  lemma {:induction false} ByteRest(bits: seq<bool>, i: nat)
    requires i <= |bits| && forall j :: i <= j < |bits| ==> !bits[j]
    ensures ByteOf(bits) == ByteOf(bits[..i])
    decreases |bits| - i
  {
    if i < |bits| {
      ByteSnoc(bits[..i], bits[i]);
      assert bits[..i + 1] == bits[..i] + [bits[i]];
      ByteRest(bits, i + 1);
    } else {
      assert bits[..i] == bits;
    }
  }

  // --- the mask as a whole ---------------------------------------------------------------------------

  function Mask(vout: seq<TxOut>, b: nat, n: nat): (r: Bytes)
    requires b <= n
    decreases n - b
  {
    if b == n then [] else [MaskByte(vout, b)] + Mask(vout, b + 1, n)
  }

  function MaskBits(vout: seq<TxOut>, b: nat, n: nat): (bits: seq<bool>)
    requires b <= n
    ensures |bits| == 8 * (n - b)
    decreases n - b
  {
    if b == n then [] else ByteBits(vout, b) + MaskBits(vout, b + 1, n)
  }

  /** Read mask bytes until the given number of them was not zero. */
  function ReadMask(s: Bytes, nMaskCode: nat): (r: Option<(seq<bool>, Bytes)>) {
    if nMaskCode == 0 then Some(([], s))
    else if s == [] then None
    else
      match ReadMask(s[1..], if s[0] != 0 then nMaskCode - 1 else nMaskCode)
      case None => None
      case Some((bits, rest)) => Some((BitsOf(s[0], 8) + bits, rest))
  }

  lemma {:induction false} SomeUsed(vout: seq<TxOut>, b: nat, n: nat)
    requires b < n && Used(vout, n - 1)
    ensures UsedFrom(vout, b, n) > 0
    decreases n - b
  {
    if b < n - 1 {
      SomeUsed(vout, b + 1, n);
    }
  }

  /** The mask ends itself: as its last byte is not zero, counting those bytes finds its end. */
  lemma {:induction false} MaskEndsItself(vout: seq<TxOut>, b: nat, n: nat, rest: Bytes)
    requires b <= n && (b < n ==> Used(vout, n - 1))
    ensures ReadMask(Mask(vout, b, n) + rest, UsedFrom(vout, b, n)) == Some((MaskBits(vout, b, n), rest))
    decreases n - b
  {
    hide MaskByte, BitsOf, ByteBits, Used;
    var s := Mask(vout, b, n) + rest;
    if b == n {
      assert s == rest;
    } else {
      SomeUsed(vout, b, n);
      MaskByteReads(vout, b);
      assert s[0] == MaskByte(vout, b) && s[1..] == Mask(vout, b + 1, n) + rest;
      MaskEndsItself(vout, b + 1, n, rest);
    }
  }

  lemma {:induction false} MaskBitAt(vout: seq<TxOut>, b: nat, n: nat, i: nat)
    requires b <= n && i < 8 * (n - b)
    ensures MaskBits(vout, b, n)[i] == Avail(vout, 2 + b * 8 + i)
    decreases n - b
  {
    if i >= 8 {
      MaskBitAt(vout, b + 1, n, i - 8);
    }
  }

  // --- the outputs -------------------------------------------------------------------------------------

  /** Unspent outputs can be stored, and spent ones are cleared. */
  predicate OutsStorable(vout: seq<TxOut>) {
    forall i :: 0 <= i < |vout| ==> if vout[i].IsNull() then vout[i] == NullTxOut else Storable(vout[i])
  }

  function WriteOuts(keys: Keys, vout: seq<TxOut>): (r: Bytes)
    requires OutsStorable(vout)
  {
    if vout == [] then []
    else (if vout[0].IsNull() then [] else WriteTxOut(keys, vout[0])) + WriteOuts(keys, vout[1..])
  }

  function ReadOuts(keys: Keys, avail: seq<bool>, s: Bytes): (r: Option<(seq<TxOut>, Bytes)>) {
    if avail == [] then Some(([], s))
    else if !avail[0] then
      match ReadOuts(keys, avail[1..], s)
      case None => None
      case Some((outs, rest)) => Some(([NullTxOut] + outs, rest))
    else
      match ReadTxOut(keys, s)
      case None => None
      case Some((o, s')) =>
        match ReadOuts(keys, avail[1..], s')
        case None => None
        case Some((outs, rest)) => Some(([o] + outs, rest))
  }

  function Nulls(n: nat): (s: seq<TxOut>)
    ensures |s| == n && forall i :: 0 <= i < n ==> s[i] == NullTxOut
  {
    seq(n, _ => NullTxOut)
  }

  /** The outputs read back, padded with spent ones to the size of the mask. */
  lemma {:induction false} ReadWriteOuts(keys: Keys, vout: seq<TxOut>, avail: seq<bool>, rest: Bytes)
    requires KeysRight(keys) && OutsStorable(vout) && |vout| <= |avail|
    requires forall i :: 0 <= i < |avail| ==> avail[i] == Avail(vout, i)
    ensures ReadOuts(keys, avail, WriteOuts(keys, vout) + rest) == Some((vout + Nulls(|avail| - |vout|), rest))
    decreases |avail|
  {
    hide KeysRight, ReadTxOut, WriteTxOut, Nulls, Storable;
    if avail == [] {
      assert vout == [] && vout + Nulls(0) == [];
      assert WriteOuts(keys, vout) + rest == rest;
    } else if vout == [] {
      assert WriteOuts(keys, []) + rest == rest;
      ReadWriteOuts(keys, [], avail[1..], rest);
      assert [] + Nulls(|avail|) == [NullTxOut] + ([] + Nulls(|avail| - 1));
    } else {
      var tail := vout[1..];
      assert forall i :: 0 <= i < |avail[1..]| ==> avail[1..][i] == avail[i + 1] && Avail(tail, i) == Avail(vout, i + 1);
      ReadWriteOuts(keys, tail, avail[1..], rest);
      assert vout + Nulls(|avail| - |vout|) == [vout[0]] + (tail + Nulls(|avail[1..]| - |tail|));
      if vout[0].IsNull() {
        assert WriteOuts(keys, vout) + rest == WriteOuts(keys, tail) + rest;
      } else {
        var first := WriteTxOut(keys, vout[0]);
        assert WriteOuts(keys, vout) + rest == first + (WriteOuts(keys, tail) + rest);
        ReadWriteTxOut(keys, vout[0], WriteOuts(keys, tail) + rest);
      }
    }
  }

  // --- the record --------------------------------------------------------------------------------------

  /** The code word: coinbase, the first two outputs, and how many mask bytes are not zero, less one if neither of the
      first two is unspent, as there must be one then. */
  function Code(coinBase: bool, first: bool, second: bool, nMaskCode: nat): nat
    requires first || second || nMaskCode > 0
  {
    8 * (nMaskCode - if first || second then 0 else 1) + (if coinBase then 1 else 0) + (if first then 2 else 0) + if second then 4 else 0
  }

  function CodeMask(code: nat): nat { code / 8 + if code / 2 % 4 != 0 then 0 else 1 }

  lemma CodeReads(coinBase: bool, first: bool, second: bool, nMaskCode: nat)
    requires first || second || nMaskCode > 0
    ensures var code := Code(coinBase, first, second, nMaskCode);
            && (code % 2 == 1) == coinBase && (code / 2 % 2 == 1) == first && (code / 4 % 2 == 1) == second
            && CodeMask(code) == nMaskCode
  {
    var k := nMaskCode - if first || second then 0 else 1;
    var low := (if coinBase then 1 else 0) + (if first then 2 else 0) + if second then 4 else 0;
    LowBits(k, low);
  }

  lemma LowBits(k: nat, low: nat)
    requires low < 8
    ensures (8 * k + low) / 8 == k && (8 * k + low) % 2 == low % 2 && (8 * k + low) / 2 % 2 == low / 2 % 2
    ensures (8 * k + low) / 4 % 2 == low / 4 && (8 * k + low) / 2 % 4 == low / 2
  {
    var x := 8 * k + low;
    RemainderUnique(low, k, 8, x);
    RemainderUnique(low % 2, 4 * k + low / 2, 2, x);
    RemainderUnique(low % 4, 2 * k + low / 4, 4, x);
    RemainderUnique(low / 2 % 2, 2 * k + low / 4, 2, 4 * k + low / 2);
    RemainderUnique(low / 4, k, 2, 2 * k + low / 4);
    RemainderUnique(low / 2, k, 4, 4 * k + low / 2);
  }

  /** A record that is stored: something is unspent, nothing spent at the end, a height. */
  predicate RecordStorable(c: Coins) {
    !c.IsPruned() && c.IsClean() && c.height >= 0 && OutsStorable(c.vout)
  }

  lemma SomethingUnspent(c: Coins)
    requires !c.IsPruned() && c.IsClean()
    ensures Avail(c.vout, 0) || Avail(c.vout, 1) || UsedFrom(c.vout, 0, ByteCount(c.vout)) > 0
  {
    CleanMask(c.vout);
    if ByteCount(c.vout) > 0 {
      SomeUsed(c.vout, 0, ByteCount(c.vout));
    }
  }

  function Serialize(keys: Keys, c: Coins): (r: Bytes)
    requires RecordStorable(c)
  {
    SomethingUnspent(c);
    var n := ByteCount(c.vout);
    IntForm(c.version)
    + VarInt(Code(c.coinBase, Avail(c.vout, 0), Avail(c.vout, 1), UsedFrom(c.vout, 0, n)))
    + Mask(c.vout, 0, LastUsed(c.vout, n))
    + WriteOuts(keys, c.vout)
    + VarInt(c.height)
  }

  /** What follows version and code word. */
  function UnserializeBody(keys: Keys, version: nat, code: nat, s: Bytes): (r: Option<(Coins, Bytes)>) {
    match ReadMask(s, CodeMask(code))
    case None => None
    case Some((mask, s1)) =>
      match ReadOuts(keys, [code / 2 % 2 == 1, code / 4 % 2 == 1] + mask, s1)
      case None => None
      case Some((vout, s2)) =>
        match ReadVarInt(s2, 0)
        case None => None
        case Some((height, rest)) => Some((Coins(code % 2 == 1, vout, height, version).Cleanup(), rest))
  }

  function Unserialize(keys: Keys, s: Bytes): (r: Option<(Coins, Bytes)>) {
    match ReadVarInt(s, 0)
    case None => None
    case Some((version, s1)) =>
      match ReadVarInt(s1, 0)
      case None => None
      case Some((code, s2)) => UnserializeBody(keys, version, code, s2)
  }

  lemma BodyReads(keys: Keys, c: Coins, version: nat, code: nat, rest: Bytes)
    requires KeysRight(keys) && RecordStorable(c)
    requires (code % 2 == 1) == c.coinBase && (code / 2 % 2 == 1) == Avail(c.vout, 0) && (code / 4 % 2 == 1) == Avail(c.vout, 1)
    requires CodeMask(code) == UsedFrom(c.vout, 0, ByteCount(c.vout))
    ensures UnserializeBody(keys, version, code,
              Mask(c.vout, 0, ByteCount(c.vout)) + (WriteOuts(keys, c.vout) + (VarInt(c.height) + rest)))
         == Some((c.(version := version), rest))
  {
    hide KeysRight, VarInt, ReadVarInt, CodeMask, Mask, ReadMask, MaskBits, WriteOuts, ReadOuts, UsedFrom, ByteCount, Used, OutsStorable, Avail, Nulls;
    hide Coins.Cleanup;
    CleanMask(c.vout);
    var n := ByteCount(c.vout);
    MaskEndsItself(c.vout, 0, n, WriteOuts(keys, c.vout) + (VarInt(c.height) + rest));
    AvailIs(c.vout, n);
    var avail := [Avail(c.vout, 0), Avail(c.vout, 1)] + MaskBits(c.vout, 0, n);
    ReadWriteOuts(keys, c.vout, avail, VarInt(c.height) + rest);
    ReadWriteVarInt(c.height, rest);
    CleanedUp(c, version, |avail| - |c.vout|);
  }

  /** Cleaning up takes the padding away. */
  lemma CleanedUp(c: Coins, version: nat, k: nat)
    requires c.IsClean()
    ensures Coins(c.coinBase, c.vout + Nulls(k), c.height, version).Cleanup() == c.(version := version)
  {
    TrimmedUnique(c.vout, Nulls(k));
  }

  /** What is left of a record when it is stored: a negative version is cut to its low seven bits. */
  function StoredCoins(c: Coins): (r: Coins) { c.(version := StoredInt(c.version)) }

  /** A stored record reads back exactly if its version is not negative; otherwise only the version is wrong. Nothing
      after it is touched. */
  lemma UnserializeSerialize(keys: Keys, c: Coins, rest: Bytes)
    requires KeysRight(keys) && RecordStorable(c)
    ensures Unserialize(keys, Serialize(keys, c) + rest) == Some((StoredCoins(c), rest))
    ensures Unserialize(keys, Serialize(keys, c) + rest) == Some((c, rest)) <==> c.version >= 0
  {
    hide KeysRight, VarInt, IntForm, ReadVarInt, Code, CodeMask, Mask, WriteOuts, LastUsed, UsedFrom, ByteCount, Used, OutsStorable, UnserializeBody;
    SomethingUnspent(c);
    CleanMask(c.vout);
    var n := ByteCount(c.vout);
    var first, second, nMaskCode := Avail(c.vout, 0), Avail(c.vout, 1), UsedFrom(c.vout, 0, n);
    var code := Code(c.coinBase, first, second, nMaskCode);
    var body := Mask(c.vout, 0, n) + (WriteOuts(keys, c.vout) + (VarInt(c.height) + rest));
    Regroup5(IntForm(c.version), VarInt(code), Mask(c.vout, 0, n), WriteOuts(keys, c.vout), VarInt(c.height), rest);
    ReadWriteInt(c.version, VarInt(code) + body);
    ReadWriteVarInt(code, body);
    CodeReads(c.coinBase, first, second, nMaskCode);
    BodyReads(keys, c, StoredInt(c.version), code, rest);
  }

  lemma AvailIs(vout: seq<TxOut>, n: nat)
    requires n == ByteCount(vout)
    ensures var avail := [Avail(vout, 0), Avail(vout, 1)] + MaskBits(vout, 0, n);
            |avail| >= |vout| && forall i :: 0 <= i < |avail| ==> avail[i] == Avail(vout, i)
  {
    var avail := [Avail(vout, 0), Avail(vout, 1)] + MaskBits(vout, 0, n);
    forall i | 0 <= i < |avail|
      ensures avail[i] == Avail(vout, i)
    {
      if i >= 2 {
        MaskBitAt(vout, 0, n, i - 2);
      }
    }
  }

  lemma Regroup5(a: Bytes, b: Bytes, c: Bytes, d: Bytes, e: Bytes, rest: Bytes)
    ensures a + b + c + d + e + rest == a + (b + (c + (d + (e + rest))))
  {
  }
}
