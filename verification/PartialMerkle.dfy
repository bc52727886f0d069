/**
 Partial Merkle trees: a depth-first encoding of the part of a Merkle tree that proves which
 transactions of a block match a filter.

 The functions below say what the encoder and the decoder compute; the class at the end does it
 by appending to vectors and advancing counters. The hash of a pair is an arbitrary function.
 */
module PartialMerkle {
  import opened Basics
  import opened Powers
  import opened Products

  type Hash = nat

  /** The hash a failed extraction returns. */
  const NO_HASH: Hash := 0

  type PairHash = (Hash, Hash) -> Hash

  ghost predicate Injective(f: PairHash) {
    forall a, b, c, d :: f(a, b) == f(c, d) ==> a == c && b == d
  }

  // --- the shape of the tree ----------------------------------------------------------------

  /** The number of nodes at a height. */
  function Width(n: nat, h: nat): nat { (n + Pow2(h) - 1) / Pow2(h) }

  function Min(a: int, b: int): int { if a < b then a else b }

  /** The leaves below a node: from First up to Last. */
  function First(h: nat, pos: nat): nat { pos * Pow2(h) }
  function Last(n: nat, h: nat, pos: nat): int { Min((pos + 1) * Pow2(h), n) }

  predicate IsNode(n: nat, h: nat, pos: nat) { First(h, pos) < n }

  lemma DivBounds(a: nat, b: nat)
    requires b > 0
    ensures b * (a / b) <= a < b * (a / b) + b
  {
  }

  /** A node exists exactly if its position is below the width of its level. */
  lemma NodeIffBelowWidth(n: nat, h: nat, pos: nat)
    ensures IsNode(n, h, pos) <==> pos < Width(n, h)
  {
    hide Pow2;
    DivBounds(n + Pow2(h) - 1, Pow2(h));
    RoundedUp(n, Pow2(h), Width(n, h), pos);
  }

  lemma RoundedUp(n: nat, p: nat, w: nat, pos: nat)
    requires p > 0 && p * w <= n + p - 1 < p * w + p
    ensures pos * p < n <==> pos < w
  {
    if pos < w {
      MulLess(pos, w, p);
    } else {
      MulMono(w, pos, p);
    }
  }

  /** The left child of a node exists, the leaves of the children are those of the node. */
  lemma Children(n: nat, h: nat, pos: nat)
    requires h > 0 && IsNode(n, h, pos)
    ensures IsNode(n, h - 1, 2 * pos) && First(h - 1, 2 * pos) == First(h, pos)
    ensures IsNode(n, h - 1, 2 * pos + 1) ==> (
              && Last(n, h - 1, 2 * pos) == First(h - 1, 2 * pos + 1)
              && Last(n, h - 1, 2 * pos + 1) == Last(n, h, pos))
    ensures !IsNode(n, h - 1, 2 * pos + 1) ==> Last(n, h - 1, 2 * pos) == Last(n, h, pos)
  {
    var p := Pow2(h - 1);
    assert Pow2(h) == 2 * p;
    assert 2 * pos * p == pos * (2 * p);
    assert (2 * pos + 1) * p == pos * (2 * p) + p;
    assert (2 * pos + 2) * p == (pos + 1) * (2 * p);
  }

  lemma WidthHalves(n: nat, h: nat)
    requires Width(n, h) > 1
    ensures Width(n, h + 1) < Width(n, h)
  {
    var p, w := Pow2(h), Width(n, h);
    DivBounds(n + p - 1, p);
    DivBounds(n + 2 * p - 1, 2 * p);
    assert Width(n, h + 1) == (n + 2 * p - 1) / (2 * p);
    Halving(n, p, w, Width(n, h + 1));
  }

  lemma Halving(n: nat, p: nat, w: nat, v: nat)
    requires p >= 1 && w >= 2 && n <= p * w && 2 * p * v <= n + 2 * p - 1
    ensures v < w
  {
    assert v >= w ==> 2 * p * v >= 2 * p * w;
    assert p * w >= p * 2;
  }

  /** The first height, from a given one, with a single node. */
  function TopFrom(n: nat, h: nat): (top: nat)
    ensures top >= h && Width(n, top) <= 1 && forall k :: h <= k < top ==> Width(n, k) > 1
    decreases Width(n, h)
  {
    if Width(n, h) <= 1 then h else
      WidthHalves(n, h);
      TopFrom(n, h + 1)
  }

  /** The height of the tree. */
  function Top(n: nat): nat { TopFrom(n, 0) }

  /** The root covers everything. */
  lemma RootCovers(n: nat)
    requires n > 0
    ensures IsNode(n, Top(n), 0) && First(Top(n), 0) == 0 && Last(n, Top(n), 0) == n
  {
    DivBounds(n + Pow2(Top(n)) - 1, Pow2(Top(n)));
  }

  // --- the full tree -------------------------------------------------------------------------

  /** The hash of a node; without a right child the left hash counts twice. */
  function NodeHash(f: PairHash, txids: seq<Hash>, h: nat, pos: nat): Hash
    requires IsNode(|txids|, h, pos)
    decreases h
  {
    if h == 0 then txids[pos]
    else
      Children(|txids|, h, pos);
      var left := NodeHash(f, txids, h - 1, 2 * pos);
      f(left, if IsNode(|txids|, h - 1, 2 * pos + 1) then NodeHash(f, txids, h - 1, 2 * pos + 1) else left)
  }

  /** Equal nodes of one level start with the same leaf. */
  lemma {:induction false} SameHashSameStart(f: PairHash, txids: seq<Hash>, h: nat, p: nat, q: nat)
    requires Injective(f) && IsNode(|txids|, h, p) && IsNode(|txids|, h, q)
    requires NodeHash(f, txids, h, p) == NodeHash(f, txids, h, q)
    ensures txids[First(h, p)] == txids[First(h, q)]
    decreases h
  {
    if h == 0 {
      assert First(0, p) == p && First(0, q) == q;
    } else {
      Children(|txids|, h, p);
      Children(|txids|, h, q);
      SameHashSameStart(f, txids, h - 1, 2 * p, 2 * q);
    }
  }

  /** With distinct transactions, siblings never have the same hash. */
  lemma SiblingsDiffer(f: PairHash, txids: seq<Hash>, h: nat, pos: nat)
    requires Injective(f) && Distinct(txids) && IsNode(|txids|, h, pos) && IsNode(|txids|, h, pos + 1)
    ensures NodeHash(f, txids, h, pos) != NodeHash(f, txids, h, pos + 1)
  {
    assert First(h, pos) + Pow2(h) == First(h, pos + 1);
    if NodeHash(f, txids, h, pos) == NodeHash(f, txids, h, pos + 1) {
      SameHashSameStart(f, txids, h, pos, pos + 1);
      assert false;
    }
  }

  // --- encoding ----------------------------------------------------------------------------------

  datatype Code = Code(bits: seq<bool>, hashes: seq<Hash>)

  /** Whether a transaction in a range is to be matched. */
  predicate AnyMatch(mask: seq<bool>, lo: nat, hi: int)
    requires hi <= |mask|
  {
    exists p :: lo <= p < hi && mask[p]
  }

  /** What the encoder appends for a node. */
  function Encode(f: PairHash, txids: seq<Hash>, mask: seq<bool>, h: nat, pos: nat): (r: Code)
    requires |mask| == |txids| && IsNode(|txids|, h, pos)
    decreases h
  {
    var any := AnyMatch(mask, First(h, pos), Last(|txids|, h, pos));
    if h == 0 || !any then Code([any], [NodeHash(f, txids, h, pos)])
    else
      Children(|txids|, h, pos);
      var left := Encode(f, txids, mask, h - 1, 2 * pos);
      var right := if IsNode(|txids|, h - 1, 2 * pos + 1) then Encode(f, txids, mask, h - 1, 2 * pos + 1) else Code([], []);
      Code([any] + left.bits + right.bits, left.hashes + right.hashes)
  }

  /** The selected transactions of a range, in order. */
  function Masked(txids: seq<Hash>, mask: seq<bool>, lo: nat, hi: int): (r: seq<Hash>)
    requires |mask| == |txids| && hi <= |txids|
    decreases hi - lo
  {
    if lo >= hi then [] else Masked(txids, mask, lo, hi - 1) + if mask[hi - 1] then [txids[hi - 1]] else []
  }

  lemma {:induction false} MaskedSplit(txids: seq<Hash>, mask: seq<bool>, lo: nat, mid: nat, hi: int)
    requires |mask| == |txids| && lo <= mid <= hi <= |txids|
    ensures Masked(txids, mask, lo, hi) == Masked(txids, mask, lo, mid) + Masked(txids, mask, mid, hi)
    decreases hi - mid
  {
    if mid < hi {
      MaskedSplit(txids, mask, lo, mid, hi - 1);
    }
  }

  lemma {:induction false} MaskedNone(txids: seq<Hash>, mask: seq<bool>, lo: nat, hi: int)
    requires |mask| == |txids| && hi <= |txids|
    ensures Masked(txids, mask, lo, hi) == [] <==> !AnyMatch(mask, lo, hi)
    decreases hi - lo
  {
    if lo < hi {
      MaskedNone(txids, mask, lo, hi - 1);
      assert mask[hi - 1] ==> AnyMatch(mask, lo, hi);
    }
  }

  // --- decoding ----------------------------------------------------------------------------------

  /** How far the decoder has come, and what it found. */
  datatype Cursor = Cursor(bits: nat, hashes: nat, matches: seq<Hash>, bad: bool)

  /** What the decoder does at a node of a tree over n transactions. */
  function Decode(f: PairHash, n: nat, code: Code, h: nat, pos: nat, c: Cursor): (r: (Hash, Cursor))
    decreases h
  {
    if c.bits >= |code.bits| then (NO_HASH, c.(bad := true))
    else
      var flag := code.bits[c.bits];
      var c1 := c.(bits := c.bits + 1);
      if h == 0 || !flag then
        if c1.hashes >= |code.hashes| then (NO_HASH, c1.(bad := true))
        else
          var hash := code.hashes[c1.hashes];
          (hash, c1.(hashes := c1.hashes + 1, matches := if h == 0 && flag then c1.matches + [hash] else c1.matches))
      else
        var (left, c2) := Decode(f, n, code, h - 1, 2 * pos, c1);
        if IsNode(n, h - 1, 2 * pos + 1) then
          var (right, c3) := Decode(f, n, code, h - 1, 2 * pos + 1, c2);
          (f(left, right), c3.(bad := c3.bad || right == left))
        else (f(left, left), c2)
  }

  /** The code for a node stands at a place of a longer code. */
  predicate StandsAt(part: Code, code: Code, bits: nat, hashes: nat) {
    && bits + |part.bits| <= |code.bits| && code.bits[bits..bits + |part.bits|] == part.bits
    && hashes + |part.hashes| <= |code.hashes| && code.hashes[hashes..hashes + |part.hashes|] == part.hashes
  }

  lemma StandsParts(part: Code, code: Code, bits: nat, hashes: nat, flag: bool, left: Code, right: Code)
    requires StandsAt(part, code, bits, hashes)
    requires part == Code([flag] + left.bits + right.bits, left.hashes + right.hashes)
    ensures bits < |code.bits| && code.bits[bits] == flag
    ensures StandsAt(left, code, bits + 1, hashes)
    ensures StandsAt(right, code, bits + 1 + |left.bits|, hashes + |left.hashes|)
  {
    assert code.bits[bits..bits + |part.bits|][0] == flag;
    ThreePartsAt(code.bits, bits, [flag], left.bits, right.bits);
    assert [] + left.hashes + right.hashes == left.hashes + right.hashes;
    ThreePartsAt(code.hashes, hashes, [], left.hashes, right.hashes);
  }

  lemma ThreePartsAt<T>(s: seq<T>, at: nat, a: seq<T>, b: seq<T>, c: seq<T>)
    requires at + |a| + |b| + |c| <= |s| && s[at..at + |a| + |b| + |c|] == a + b + c
    ensures s[at + |a|..at + |a| + |b|] == b && s[at + |a| + |b|..at + |a| + |b| + |c|] == c
  {
    var n := |a| + |b| + |c|;
    ThreeParts(a, b, c);
    PartOfPart(s, at, at + n, |a|, |a| + |b|);
    PartOfPart(s, at, at + n, |a| + |b|, n);
  }

  lemma ThreeParts<T>(a: seq<T>, b: seq<T>, c: seq<T>)
    ensures (a + b + c)[|a|..|a| + |b|] == b && (a + b + c)[|a| + |b|..|a| + |b| + |c|] == c
  {
  }

  /** The place after the code of a node. */
  ghost function After(c: Cursor, part: Code, found: seq<Hash>): Cursor {
    Cursor(c.bits + |part.bits|, c.hashes + |part.hashes|, c.matches + found, c.bad)
  }

  /** What decoding the code of a node is to give: its hash and its selected transactions, in order. */
  ghost predicate DecodesTo(f: PairHash, txids: seq<Hash>, mask: seq<bool>, code: Code, h: nat, pos: nat, c: Cursor)
    requires |mask| == |txids| && IsNode(|txids|, h, pos)
  {
    Decode(f, |txids|, code, h, pos, c) == (NodeHash(f, txids, h, pos),
      After(c, Encode(f, txids, mask, h, pos), Masked(txids, mask, First(h, pos), Last(|txids|, h, pos))))
  }

  // One level of the three recursions.

  lemma HashInner(f: PairHash, txids: seq<Hash>, h: nat, pos: nat)
    requires h > 0 && IsNode(|txids|, h, pos)
    ensures IsNode(|txids|, h - 1, 2 * pos)
    ensures NodeHash(f, txids, h, pos) == f(NodeHash(f, txids, h - 1, 2 * pos),
              if IsNode(|txids|, h - 1, 2 * pos + 1) then NodeHash(f, txids, h - 1, 2 * pos + 1) else NodeHash(f, txids, h - 1, 2 * pos))
  {
    Children(|txids|, h, pos);
  }

  lemma EncodeInner(f: PairHash, txids: seq<Hash>, mask: seq<bool>, h: nat, pos: nat)
    requires |mask| == |txids| && h > 0 && IsNode(|txids|, h, pos) && AnyMatch(mask, First(h, pos), Last(|txids|, h, pos))
    ensures IsNode(|txids|, h - 1, 2 * pos)
    ensures var left := Encode(f, txids, mask, h - 1, 2 * pos);
            var right := if IsNode(|txids|, h - 1, 2 * pos + 1) then Encode(f, txids, mask, h - 1, 2 * pos + 1) else Code([], []);
            Encode(f, txids, mask, h, pos) == Code([true] + left.bits + right.bits, left.hashes + right.hashes)
  {
    Children(|txids|, h, pos);
  }

  lemma EncodeStop(f: PairHash, txids: seq<Hash>, mask: seq<bool>, h: nat, pos: nat)
    requires |mask| == |txids| && IsNode(|txids|, h, pos)
    requires h == 0 || !AnyMatch(mask, First(h, pos), Last(|txids|, h, pos))
    ensures Encode(f, txids, mask, h, pos) == Code([AnyMatch(mask, First(h, pos), Last(|txids|, h, pos))], [NodeHash(f, txids, h, pos)])
  {
  }

  lemma DecodeInner(f: PairHash, n: nat, code: Code, h: nat, pos: nat, c: Cursor)
    requires h > 0 && c.bits < |code.bits| && code.bits[c.bits]
    ensures var (left, c2) := Decode(f, n, code, h - 1, 2 * pos, c.(bits := c.bits + 1));
            Decode(f, n, code, h, pos, c) ==
              if IsNode(n, h - 1, 2 * pos + 1) then
                var (right, c3) := Decode(f, n, code, h - 1, 2 * pos + 1, c2);
                (f(left, right), c3.(bad := c3.bad || right == left))
              else (f(left, left), c2)
  {
  }

  lemma DecodeStop(f: PairHash, n: nat, code: Code, h: nat, pos: nat, c: Cursor)
    requires c.bits < |code.bits| && (h == 0 || !code.bits[c.bits]) && c.hashes < |code.hashes|
    ensures Decode(f, n, code, h, pos, c) == (code.hashes[c.hashes],
              Cursor(c.bits + 1, c.hashes + 1, c.matches + (if code.bits[c.bits] then [code.hashes[c.hashes]] else []), c.bad))
  {
    assert c.matches + [] == c.matches;
  }

  lemma DecodeLeaf(f: PairHash, txids: seq<Hash>, mask: seq<bool>, code: Code, h: nat, pos: nat, c: Cursor)
    requires |mask| == |txids| && IsNode(|txids|, h, pos) && StandsAt(Encode(f, txids, mask, h, pos), code, c.bits, c.hashes)
    requires h == 0 || !AnyMatch(mask, First(h, pos), Last(|txids|, h, pos))
    ensures DecodesTo(f, txids, mask, code, h, pos, c)
  {
    hide StandsAt, Masked, AnyMatch, IsNode, First, Last, NodeHash, Decode;
    var lo, hi := First(h, pos), Last(|txids|, h, pos);
    NodeOrder(|txids|, h, pos);
    MaskedNone(txids, mask, lo, hi);
    LeafStands(Encode(f, txids, mask, h, pos), code, c, AnyMatch(mask, lo, hi), NodeHash(f, txids, h, pos));
    DecodeStop(f, |txids|, code, h, pos, c);
    if h == 0 {
      LeafMasked(f, txids, mask, pos);
    }
  }

  lemma AfterBoth(c: Cursor, left: Code, right: Code, a: seq<Hash>, b: seq<Hash>)
    ensures After(After(c.(bits := c.bits + 1), left, a), right, b)
         == After(c, Code([true] + left.bits + right.bits, left.hashes + right.hashes), a + b)
  {
    assert (c.matches + a) + b == c.matches + (a + b);
  }

  lemma DecodeBoth(f: PairHash, txids: seq<Hash>, mask: seq<bool>, code: Code, h: nat, pos: nat, c: Cursor)
    requires Injective(f) && Distinct(txids) && |mask| == |txids| && h > 0 && IsNode(|txids|, h, pos)
    requires AnyMatch(mask, First(h, pos), Last(|txids|, h, pos)) && c.bits < |code.bits| && code.bits[c.bits]
    requires IsNode(|txids|, h - 1, 2 * pos) && IsNode(|txids|, h - 1, 2 * pos + 1)
    requires DecodesTo(f, txids, mask, code, h - 1, 2 * pos, c.(bits := c.bits + 1))
    requires DecodesTo(f, txids, mask, code, h - 1, 2 * pos + 1, Decode(f, |txids|, code, h - 1, 2 * pos, c.(bits := c.bits + 1)).1)
    ensures DecodesTo(f, txids, mask, code, h, pos, c)
  {
    hide Injective, Distinct, Masked, AnyMatch, IsNode, First, Last, NodeHash, Decode, Encode;
    var n := |txids|;
    var lo, mid, hi := First(h, pos), First(h - 1, 2 * pos + 1), Last(n, h, pos);
    Children(n, h, pos);
    NodeOrder(n, h, pos);
    NodeOrder(n, h - 1, 2 * pos + 1);
    MaskedSplit(txids, mask, lo, mid, hi);
    SiblingsDiffer(f, txids, h - 1, 2 * pos);
    DecodeInner(f, n, code, h, pos, c);
    EncodeInner(f, txids, mask, h, pos);
    HashInner(f, txids, h, pos);
    AfterBoth(c, Encode(f, txids, mask, h - 1, 2 * pos), Encode(f, txids, mask, h - 1, 2 * pos + 1),
              Masked(txids, mask, lo, mid), Masked(txids, mask, mid, hi));
  }

  lemma DecodeOnly(f: PairHash, txids: seq<Hash>, mask: seq<bool>, code: Code, h: nat, pos: nat, c: Cursor)
    requires |mask| == |txids| && h > 0 && IsNode(|txids|, h, pos)
    requires AnyMatch(mask, First(h, pos), Last(|txids|, h, pos)) && c.bits < |code.bits| && code.bits[c.bits]
    requires IsNode(|txids|, h - 1, 2 * pos) && !IsNode(|txids|, h - 1, 2 * pos + 1)
    requires DecodesTo(f, txids, mask, code, h - 1, 2 * pos, c.(bits := c.bits + 1))
    ensures DecodesTo(f, txids, mask, code, h, pos, c)
  {
    hide Masked, AnyMatch, IsNode, First, Last, NodeHash, Decode, Encode;
    Children(|txids|, h, pos);
    DecodeInner(f, |txids|, code, h, pos, c);
    EncodeInner(f, txids, mask, h, pos);
    HashInner(f, txids, h, pos);
  }

  /** Decoding the code of a node, wherever it stands, gives its hash and its selected transactions. */
  lemma {:induction false} DecodeEncode(f: PairHash, txids: seq<Hash>, mask: seq<bool>, code: Code, h: nat, pos: nat, c: Cursor)
    requires Injective(f) && Distinct(txids) && |mask| == |txids| && IsNode(|txids|, h, pos)
    requires StandsAt(Encode(f, txids, mask, h, pos), code, c.bits, c.hashes)
    ensures DecodesTo(f, txids, mask, code, h, pos, c)
    decreases h
  {
    hide StandsAt, Injective, Distinct, Masked, AnyMatch, IsNode, First, Last, NodeHash, Decode, Encode;
    var n, part := |txids|, Encode(f, txids, mask, h, pos);
    NodeOrder(n, h, pos);
    if h == 0 || !AnyMatch(mask, First(h, pos), Last(n, h, pos)) {
      DecodeLeaf(f, txids, mask, code, h, pos, c);
    } else {
      EncodeInner(f, txids, mask, h, pos);
      var left := Encode(f, txids, mask, h - 1, 2 * pos);
      var c1 := c.(bits := c.bits + 1);
      if IsNode(n, h - 1, 2 * pos + 1) {
        StandsParts(part, code, c.bits, c.hashes, true, left, Encode(f, txids, mask, h - 1, 2 * pos + 1));
        DecodeEncode(f, txids, mask, code, h - 1, 2 * pos, c1);
        DecodeEncode(f, txids, mask, code, h - 1, 2 * pos + 1, Decode(f, n, code, h - 1, 2 * pos, c1).1);
        DecodeBoth(f, txids, mask, code, h, pos, c);
      } else {
        StandsParts(part, code, c.bits, c.hashes, true, left, Code([], []));
        DecodeEncode(f, txids, mask, code, h - 1, 2 * pos, c1);
        DecodeOnly(f, txids, mask, code, h, pos, c);
      }
    }
  }

  lemma NodeOrder(n: nat, h: nat, pos: nat)
    requires IsNode(n, h, pos)
    ensures First(h, pos) < Last(n, h, pos) <= n
    ensures pos > 0 ==> First(h, pos - 1) < First(h, pos)
  {
    assert (pos + 1) * Pow2(h) == pos * Pow2(h) + Pow2(h);
    if pos > 0 {
      assert (pos - 1) * Pow2(h) == pos * Pow2(h) - Pow2(h);
    }
  }

  lemma LeafStands(part: Code, code: Code, c: Cursor, flag: bool, hash: Hash)
    requires StandsAt(part, code, c.bits, c.hashes) && part == Code([flag], [hash])
    ensures c.bits < |code.bits| && code.bits[c.bits] == flag && c.hashes < |code.hashes| && code.hashes[c.hashes] == hash
  {
    assert code.bits[c.bits..c.bits + 1][0] == flag;
    assert code.hashes[c.hashes..c.hashes + 1][0] == hash;
  }

  lemma LeafMasked(f: PairHash, txids: seq<Hash>, mask: seq<bool>, pos: nat)
    requires |mask| == |txids| && IsNode(|txids|, 0, pos)
    ensures pos < |txids| && First(0, pos) == pos && Last(|txids|, 0, pos) == pos + 1
    ensures AnyMatch(mask, pos, pos + 1) == mask[pos]
    ensures Masked(txids, mask, pos, pos + 1) == if mask[pos] then [txids[pos]] else []
    ensures NodeHash(f, txids, 0, pos) == txids[pos]
  {
    assert Masked(txids, mask, pos, pos) == [];
  }

  // --- soundness -----------------------------------------------------------------------------------

  /** Increasing positions within a range. */
  predicate Ordered(idx: seq<nat>, lo: nat, hi: int) {
    (forall k :: 0 <= k < |idx| ==> lo <= idx[k] < hi) && forall j, k :: 0 <= j < k < |idx| ==> idx[j] < idx[k]
  }

  function Picked(txids: seq<Hash>, idx: seq<nat>): (r: seq<Hash>)
    requires Ordered(idx, 0, |txids|)
  {
    seq(|idx|, k requires 0 <= k < |idx| => txids[idx[k]])
  }

  /** The matches are transactions of the list, in their order. */
  ghost predicate OrderedSublist(matches: seq<Hash>, txids: seq<Hash>) {
    exists idx :: Ordered(idx, 0, |txids|) && matches == Picked(txids, idx)
  }

  /** Once bad, always bad. */
  lemma {:induction false} BadStays(f: PairHash, n: nat, code: Code, h: nat, pos: nat, c: Cursor)
    requires c.bad
    ensures Decode(f, n, code, h, pos, c).1.bad
    decreases h
  {
    if h > 0 && c.bits < |code.bits| && code.bits[c.bits] {
      var c1 := c.(bits := c.bits + 1);
      BadStays(f, n, code, h - 1, 2 * pos, c1);
      BadStays(f, n, code, h - 1, 2 * pos + 1, Decode(f, n, code, h - 1, 2 * pos, c1).1);
    }
  }

  lemma PickedConcat(txids: seq<Hash>, a: seq<nat>, b: seq<nat>, lo: nat, mid: nat, hi: nat)
    requires Ordered(a, lo, mid) && Ordered(b, mid, hi) && lo <= mid <= hi <= |txids|
    ensures Ordered(a + b, lo, hi) && Picked(txids, a + b) == Picked(txids, a) + Picked(txids, b)
  {
  }

  /** Whatever the bits and hashes: if decoding a node succeeds with the node's true hash, what it found are
      transactions below that node, in order. */
  lemma {:induction false} DecodeSound(f: PairHash, txids: seq<Hash>, code: Code, h: nat, pos: nat, c: Cursor) returns (idx: seq<nat>)
    requires Injective(f) && IsNode(|txids|, h, pos)
    requires Decode(f, |txids|, code, h, pos, c).0 == NodeHash(f, txids, h, pos) && !Decode(f, |txids|, code, h, pos, c).1.bad
    ensures Ordered(idx, First(h, pos), Last(|txids|, h, pos)) && Last(|txids|, h, pos) <= |txids|
    ensures Decode(f, |txids|, code, h, pos, c).1.matches == c.matches + Picked(txids, idx)
    decreases h
  {
    hide First, Last, IsNode, Decode, NodeHash;
    var n := |txids|;
    NodeOrder(n, h, pos);
    if c.bits >= |code.bits| || ((h == 0 || !code.bits[c.bits]) && c.hashes >= |code.hashes|) {
      DecodeRunsOut(f, n, code, h, pos, c);
      assert false;
    } else if h == 0 || !code.bits[c.bits] {
      DecodeStop(f, n, code, h, pos, c);
      if code.bits[c.bits] {
        LeafAt(f, txids, pos);
        idx := [pos];
      } else {
        idx := [];
      }
    } else {
      idx := DecodeSoundInner(f, txids, code, h, pos, c);
    }
  }

  lemma Inject(f: PairHash, a: Hash, b: Hash, c: Hash, d: Hash)
    requires Injective(f) && f(a, b) == f(c, d)
    ensures a == c && b == d
  {
  }

  lemma DecodeRunsOut(f: PairHash, n: nat, code: Code, h: nat, pos: nat, c: Cursor)
    requires c.bits >= |code.bits| || ((h == 0 || !code.bits[c.bits]) && c.hashes >= |code.hashes|)
    ensures Decode(f, n, code, h, pos, c).1.bad
  {
  }

  lemma LeafAt(f: PairHash, txids: seq<Hash>, pos: nat)
    requires IsNode(|txids|, 0, pos)
    ensures pos < |txids| && First(0, pos) == pos && Last(|txids|, 0, pos) == pos + 1 && NodeHash(f, txids, 0, pos) == txids[pos]
  {
  }

  lemma {:induction false} DecodeSoundInner(f: PairHash, txids: seq<Hash>, code: Code, h: nat, pos: nat, c: Cursor) returns (idx: seq<nat>)
    requires Injective(f) && h > 0 && IsNode(|txids|, h, pos) && c.bits < |code.bits| && code.bits[c.bits]
    requires Decode(f, |txids|, code, h, pos, c).0 == NodeHash(f, txids, h, pos) && !Decode(f, |txids|, code, h, pos, c).1.bad
    ensures Ordered(idx, First(h, pos), Last(|txids|, h, pos)) && Last(|txids|, h, pos) <= |txids|
    ensures Decode(f, |txids|, code, h, pos, c).1.matches == c.matches + Picked(txids, idx)
    decreases h, 0
  {
    hide First, Last, IsNode, Decode, NodeHash, Picked, Injective;
    var n := |txids|;
    Children(n, h, pos);
    NodeOrder(n, h, pos);
    HashInner(f, txids, h, pos);
    DecodeInner(f, n, code, h, pos, c);
    var c1 := c.(bits := c.bits + 1);
    var c2 := Decode(f, n, code, h - 1, 2 * pos, c1).1;
    if IsNode(n, h - 1, 2 * pos + 1) {
      if c2.bad {
        BadStays(f, n, code, h - 1, 2 * pos + 1, c2);
      }
      Inject(f, Decode(f, n, code, h - 1, 2 * pos, c1).0, Decode(f, n, code, h - 1, 2 * pos + 1, c2).0,
             NodeHash(f, txids, h - 1, 2 * pos), NodeHash(f, txids, h - 1, 2 * pos + 1));
      var a := DecodeSound(f, txids, code, h - 1, 2 * pos, c1);
      var b := DecodeSound(f, txids, code, h - 1, 2 * pos + 1, c2);
      NodeOrder(n, h - 1, 2 * pos + 1);
      PickedConcat(txids, a, b, First(h, pos), First(h - 1, 2 * pos + 1), Last(n, h, pos));
      idx := a + b;
      assert c.matches + Picked(txids, a) + Picked(txids, b) == c.matches + (Picked(txids, a) + Picked(txids, b));
    } else {
      var left, node := Decode(f, n, code, h - 1, 2 * pos, c1).0, NodeHash(f, txids, h - 1, 2 * pos);
      Inject(f, left, left, node, node);
      idx := DecodeSound(f, txids, code, h - 1, 2 * pos, c1);
    }
  }

  // --- size ------------------------------------------------------------------------------------------

  /** At most one hash for every transaction below the node, and at most one plus one for every level above
      every match; at least one flag for every hash. */
  lemma {:induction false} CodeSize(f: PairHash, txids: seq<Hash>, mask: seq<bool>, h: nat, pos: nat)
    requires |mask| == |txids| && IsNode(|txids|, h, pos)
    ensures var part := Encode(f, txids, mask, h, pos);
            var lo, hi := First(h, pos), Last(|txids|, h, pos);
            && 1 <= |part.hashes| <= hi - lo && hi <= |txids| && |part.hashes| <= |part.bits|
            && |part.hashes| <= 1 + |Masked(txids, mask, lo, hi)| * h
    decreases h
  {
    hide First, Last, IsNode, Masked, AnyMatch, NodeHash;
    var n := |txids|;
    var lo, hi := First(h, pos), Last(n, h, pos);
    NodeOrder(n, h, pos);
    MaskedNone(txids, mask, lo, hi);
    if h > 0 && AnyMatch(mask, lo, hi) {
      EncodeInner(f, txids, mask, h, pos);
      Children(n, h, pos);
      CodeSize(f, txids, mask, h - 1, 2 * pos);
      if IsNode(n, h - 1, 2 * pos + 1) {
        CodeSize(f, txids, mask, h - 1, 2 * pos + 1);
        var mid := First(h - 1, 2 * pos + 1);
        NodeOrder(n, h - 1, 2 * pos + 1);
        MaskedSplit(txids, mask, lo, mid, hi);
        Distribute(|Masked(txids, mask, lo, mid)|, |Masked(txids, mask, mid, hi)|, h);
      } else {
        Distribute(|Masked(txids, mask, lo, hi)|, 0, h);
      }
    }
  }

  lemma Distribute(a: nat, b: nat, h: nat)
    requires h > 0 && a + b > 0
    ensures a * (h - 1) + b * (h - 1) + 1 <= (a + b) * h
  {
    assert a * (h - 1) + b * (h - 1) == (a + b) * h - (a + b);
  }

  // --- flag bits as bytes --------------------------------------------------------------------------------

  type Octet = bv8

  function Mask(k: nat): Octet
    requires k < 8
  {
    if k == 0 then 1 else if k == 1 then 2 else if k == 2 then 4 else if k == 3 then 8
    else if k == 4 then 16 else if k == 5 then 32 else if k == 6 then 64 else 128
  }

  predicate Bit(b: Octet, k: nat)
    requires k < 8
  {
    b & Mask(k) != 0
  }

  /** Setting a bit of a byte sets that bit only. */
  lemma BitSet(b: Octet, k: nat, j: nat)
    requires k < 8 && j < 8
    ensures Bit(b | Mask(k), j) <==> j == k || Bit(b, j)
  {
  }

  /** The bytes hold the bits, least significant first, and nothing else. */
  predicate Packed(bits: seq<bool>, bytes: seq<Octet>) {
    && |bytes| == (|bits| + 7) / 8
    && forall p :: 0 <= p < 8 * |bytes| ==> Bit(bytes[p / 8], p % 8) == (p < |bits| && bits[p])
  }

  method Pack(bits: seq<bool>) returns (bytes: seq<Octet>)
    ensures Packed(bits, bytes)
  {
    bytes := seq((|bits| + 7) / 8, _ => 0);
    for p := 0 to |bits|
      invariant |bytes| == (|bits| + 7) / 8
      invariant forall q :: 0 <= q < 8 * |bytes| ==> Bit(bytes[q / 8], q % 8) == (q < p && bits[q])
    {
      ghost var before := bytes;
      if bits[p] {
        bytes := bytes[p / 8 := bytes[p / 8] | Mask(p % 8)];
      }
      forall q | 0 <= q < 8 * |bytes|
        ensures Bit(bytes[q / 8], q % 8) == (q < p + 1 && bits[q])
      {
        BitSet(before[p / 8], p % 8, q % 8);
        assert q / 8 == p / 8 && q % 8 == p % 8 <==> q == p;
      }
    }
  }

  method Unpack(bytes: seq<Octet>) returns (bits: seq<bool>)
    ensures |bits| == 8 * |bytes| && forall p :: 0 <= p < |bits| ==> bits[p] == Bit(bytes[p / 8], p % 8)
  {
    bits := seq(8 * |bytes|, _ => false);
    for p := 0 to |bits|
      invariant |bits| == 8 * |bytes| && forall q :: 0 <= q < p ==> bits[q] == Bit(bytes[q / 8], q % 8)
    {
      bits := bits[p := Bit(bytes[p / 8], p % 8)];
    }
  }

  // --- the whole tree ------------------------------------------------------------------------------------

  function Root(f: PairHash, txids: seq<Hash>): Hash
    requires txids != []
  {
    RootCovers(|txids|);
    NodeHash(f, txids, Top(|txids|), 0)
  }

  function EncodeAll(f: PairHash, txids: seq<Hash>, mask: seq<bool>): Code
    requires txids != [] && |mask| == |txids|
  {
    RootCovers(|txids|);
    Encode(f, txids, mask, Top(|txids|), 0)
  }

  /** The checks before the traversal. */
  predicate Plausible(n: nat, code: Code, nMaxBlockSize: nat) {
    n != 0 && n <= nMaxBlockSize / 60 && |code.hashes| <= n && |code.bits| >= |code.hashes|
  }

  /** The checks after the traversal: nothing bad, all bits but the padding used, all hashes used. */
  predicate Consumed(code: Code, c: Cursor) {
    !c.bad && (c.bits + 7) / 8 == (|code.bits| + 7) / 8 && c.hashes == |code.hashes|
  }

  /** The root and the matches that extraction reports. */
  function Extract(f: PairHash, n: nat, code: Code, nMaxBlockSize: nat, bad: bool): (r: (Hash, seq<Hash>)) {
    if !Plausible(n, code, nMaxBlockSize) then (NO_HASH, [])
    else
      var (root, c) := Decode(f, n, code, Top(n), 0, Cursor(0, 0, [], bad));
      (if Consumed(code, c) then root else NO_HASH, c.matches)
  }

  /** A code after packing its bits into bytes and unpacking them again: padded with unset bits. */
  ghost predicate Padded(code: Code, padded: Code) {
    && padded.hashes == code.hashes && |padded.bits| == 8 * ((|code.bits| + 7) / 8)
    && padded.bits[..|code.bits|] == code.bits && forall p :: |code.bits| <= p < |padded.bits| ==> !padded.bits[p]
  }

  /** Packing the flag bits into bytes and back only adds padding. */
  method SendBits(code: Code) returns (padded: Code)
    ensures Padded(code, padded)
  {
    var bytes := Pack(code.bits);
    var bits := Unpack(bytes);
    padded := Code(bits, code.hashes);
    assert |code.bits| <= |bits|;
    assert forall p :: 0 <= p < |bits| ==> bits[p] == (p < |code.bits| && code.bits[p]);
  }

  /** Completeness: for distinct transactions within the size limit and any selection, what is encoded, packed,
      unpacked and extracted is the root with exactly the selected transactions in order. */
  lemma ExtractComplete(f: PairHash, txids: seq<Hash>, mask: seq<bool>, padded: Code, nMaxBlockSize: nat)
    requires Injective(f) && Distinct(txids) && txids != [] && |mask| == |txids| && |txids| <= nMaxBlockSize / 60
    requires Padded(EncodeAll(f, txids, mask), padded)
    ensures Extract(f, |txids|, padded, nMaxBlockSize, false) == (Root(f, txids), Masked(txids, mask, 0, |txids|))
  {
    hide Injective, Distinct, NodeHash, Encode, Decode, Masked, Top;
    var n, part := |txids|, EncodeAll(f, txids, mask);
    RootCovers(n);
    CodeSize(f, txids, mask, Top(n), 0);
    assert padded.bits[0..0 + |part.bits|] == part.bits && padded.hashes[0..0 + |part.hashes|] == part.hashes;
    assert StandsAt(part, padded, 0, 0);
    var c := Cursor(0, 0, [], false);
    DecodeEncode(f, txids, mask, padded, Top(n), 0, c);
    assert [] + Masked(txids, mask, 0, n) == Masked(txids, mask, 0, n);
  }

  /** The size of an encoding: at most as many hashes as transactions, and at most one plus the height for every
      selected transaction. */
  lemma EncodingSize(f: PairHash, txids: seq<Hash>, mask: seq<bool>)
    requires txids != [] && |mask| == |txids|
    ensures var hashes := |EncodeAll(f, txids, mask).hashes|;
            hashes <= |txids| && hashes <= 1 + |Masked(txids, mask, 0, |txids|)| * Top(|txids|)
  {
    hide NodeHash, Encode, Masked, Top;
    RootCovers(|txids|);
    CodeSize(f, txids, mask, Top(|txids|), 0);
  }

  /** Soundness: whatever the bits and hashes, if extraction reports the true root of a list of transactions, the
      matches are transactions of that list in order. */
  lemma ExtractSound(f: PairHash, txids: seq<Hash>, code: Code, nMaxBlockSize: nat, bad: bool)
    requires Injective(f) && txids != [] && Root(f, txids) != NO_HASH
    requires Extract(f, |txids|, code, nMaxBlockSize, bad).0 == Root(f, txids)
    ensures OrderedSublist(Extract(f, |txids|, code, nMaxBlockSize, bad).1, txids)
  {
    hide Injective, NodeHash, Decode, Top, Ordered, Picked;
    var n := |txids|;
    RootCovers(n);
    var c := Cursor(0, 0, [], bad);
    var idx := DecodeSound(f, txids, code, Top(n), 0, c);
    assert [] + Picked(txids, idx) == Picked(txids, idx);
  }

  // --- exactly when extraction can be trusted -------------------------------------------------------------

  /** Extraction that reports the root of a list never reports anything but a sublist of it, whatever was received. A
      received stream of flags fills whole bytes. */
  ghost predicate Trustworthy(f: PairHash, txids: seq<Hash>, nMaxBlockSize: nat)
    requires txids != []
  {
    forall code: Code :: |code.bits| % 8 == 0 && Extract(f, |txids|, code, nMaxBlockSize, false).0 == Root(f, txids)
                         ==> OrderedSublist(Extract(f, |txids|, code, nMaxBlockSize, false).1, txids)
  }

  lemma {:induction false} MatchesGrow(f: PairHash, n: nat, code: Code, h: nat, pos: nat, c: Cursor)
    ensures c.matches <= Decode(f, n, code, h, pos, c).1.matches
    decreases h
  {
    if h > 0 && c.bits < |code.bits| && code.bits[c.bits] {
      var c1 := c.(bits := c.bits + 1);
      MatchesGrow(f, n, code, h - 1, 2 * pos, c1);
      MatchesGrow(f, n, code, h - 1, 2 * pos + 1, Decode(f, n, code, h - 1, 2 * pos, c1).1);
    }
  }

  /** A code of whole bytes that claims a match at the first leaf and then breaks off. */
  function Forged(x: Hash, h: nat): (code: Code)
    ensures |code.bits| > h + 8 && |code.bits| % 8 == 0
  {
    Code(seq(8 * (h / 8 + 2), _ => true), [x])
  }

  lemma {:induction false} ForgedDecodes(f: PairHash, n: nat, x: Hash, top: nat, h: nat)
    requires n >= 2 && 1 <= h <= top
    ensures var r := Decode(f, n, Forged(x, top), h, 0, Cursor(top - h, 0, [], false)).1;
            r.bad && [x] <= r.matches
    decreases h
  {
    var code, c := Forged(x, top), Cursor(top - h, 0, [], false);
    var c1 := c.(bits := c.bits + 1);
    DecodeInner(f, n, code, h, 0, c);
    var c2 := Decode(f, n, code, h - 1, 0, c1).1;
    if h == 1 {
      DecodeStop(f, n, code, 0, 0, c1);
      assert [] + [x] == [x];
      assert IsNode(n, 0, 1);
      DecodeRunsOut(f, n, code, 0, 1, c2);
    } else {
      ForgedDecodes(f, n, x, top, h - 1);
      BadStays(f, n, code, h - 1, 1, c2);
    }
    MatchesGrow(f, n, code, h - 1, 1, c2);
  }

  lemma TopOfOne()
    ensures Top(1) == 0
  {
    assert Pow2(0) == 1 && Width(1, 0) == 1;
  }

  lemma TopOfMore(n: nat)
    requires n >= 2
    ensures Top(n) >= 1
  {
    assert Pow2(0) == 1 && Width(n, 0) == n;
  }

  lemma ForgedExtracts(f: PairHash, n: nat, x: Hash, nMaxBlockSize: nat)
    requires 1 <= n <= nMaxBlockSize / 60
    ensures var r := Extract(f, n, Forged(x, Top(n)), nMaxBlockSize, false);
            r.0 == NO_HASH && [x] <= r.1
  {
    hide Width;
    var code, c := Forged(x, Top(n)), Cursor(0, 0, [], false);
    if n == 1 {
      TopOfOne();
      DecodeStop(f, n, code, 0, 0, c);
      assert [] + [x] == [x];
    } else {
      TopOfMore(n);
      ForgedDecodes(f, n, x, Top(n), Top(n));
    }
  }

  /** A hash that is not in the list. */
  lemma {:induction false} Outsider(txids: seq<Hash>) returns (x: Hash)
    ensures forall i :: 0 <= i < |txids| ==> txids[i] < x
    decreases |txids|
  {
    x := 0;
    if txids != [] {
      var last := |txids| - 1;
      var y := Outsider(txids[..last]);
      assert forall i :: 0 <= i < last ==> txids[..last][i] == txids[i];
      x := if txids[last] < y then y else txids[last] + 1;
    }
  }

  lemma NotSublist(matches: seq<Hash>, txids: seq<Hash>, x: Hash)
    requires [x] <= matches && forall i :: 0 <= i < |txids| ==> txids[i] != x
    ensures !OrderedSublist(matches, txids)
  {
    forall idx | Ordered(idx, 0, |txids|)
      ensures matches != Picked(txids, idx)
    {
      if |idx| > 0 {
        assert Picked(txids, idx)[0] == txids[idx[0]];
      }
    }
  }

  /** A failed extraction reports the hash zero and keeps what it has found so far. So extraction can be trusted
      exactly for lists whose root is not zero. */
  lemma TrustworthyIff(f: PairHash, txids: seq<Hash>, nMaxBlockSize: nat)
    requires Injective(f) && txids != [] && |txids| <= nMaxBlockSize / 60
    ensures Trustworthy(f, txids, nMaxBlockSize) <==> Root(f, txids) != NO_HASH
  {
    hide Injective, Extract, Root, OrderedSublist;
    if Root(f, txids) == NO_HASH {
      var x := Outsider(txids);
      ForgedExtracts(f, |txids|, x, nMaxBlockSize);
      NotSublist(Extract(f, |txids|, Forged(x, Top(|txids|)), nMaxBlockSize, false).1, txids, x);
    } else {
      forall code: Code | Extract(f, |txids|, code, nMaxBlockSize, false).0 == Root(f, txids)
        ensures OrderedSublist(Extract(f, |txids|, code, nMaxBlockSize, false).1, txids)
      {
        ExtractSound(f, txids, code, nMaxBlockSize, false);
      }
    }
  }

  // --- the object ------------------------------------------------------------------------------------------

  /** The partial tree as the node keeps it: vectors that are appended to and a flag that is raised. */
  class CPartialMerkleTree {
    const f: PairHash
    var nTransactions: nat
    var vBits: seq<bool>
    var vHash: seq<Hash>
    var fBad: bool

    function Contents(): Code
      reads this
    {
      Code(vBits, vHash)
    }

    function CalcTreeWidth(height: nat): nat
      reads this
    {
      Width(nTransactions, height)
    }

    /** An empty tree counts as bad. */
    constructor Empty(f: PairHash)
      ensures this.f == f && nTransactions == 0 && fBad && Contents() == Code([], [])
    {
      this.f := f;
      nTransactions, vBits, vHash, fBad := 0, [], [], true;
    }

    /** Encode a list of transactions with a selection. */
    constructor (f: PairHash, vTxid: seq<Hash>, vMatch: seq<bool>)
      requires vTxid != [] && |vMatch| == |vTxid|
      ensures this.f == f && nTransactions == |vTxid| && !fBad && Contents() == EncodeAll(f, vTxid, vMatch)
    {
      this.f := f;
      nTransactions, vBits, vHash, fBad := |vTxid|, [], [], false;
      new;
      var nHeight := CalcHeight();
      RootCovers(|vTxid|);
      TraverseAndBuild(nHeight, 0, vTxid, vMatch);
      assert [] + EncodeAll(f, vTxid, vMatch).bits == EncodeAll(f, vTxid, vMatch).bits;
      assert [] + EncodeAll(f, vTxid, vMatch).hashes == EncodeAll(f, vTxid, vMatch).hashes;
    }

    /** A tree received from elsewhere. */
    constructor Received(f: PairHash, nTransactions: nat, vHash: seq<Hash>, vBytes: seq<Octet>)
      ensures this.f == f && this.nTransactions == nTransactions && this.vHash == vHash && !fBad
      ensures |vBits| == 8 * |vBytes| && forall p :: 0 <= p < |vBits| ==> vBits[p] == Bit(vBytes[p / 8], p % 8)
    {
      this.f := f;
      this.nTransactions, this.vHash, this.fBad := nTransactions, vHash, false;
      vBits := [];
      new;
      vBits := Unpack(vBytes);
    }

    method CalcHeight() returns (nHeight: nat)
      ensures nHeight == Top(nTransactions)
    {
      nHeight := 0;
      while CalcTreeWidth(nHeight) > 1
        invariant TopFrom(nTransactions, nHeight) == Top(nTransactions)
        decreases Width(nTransactions, nHeight)
      {
        WidthHalves(nTransactions, nHeight);
        nHeight := nHeight + 1;
      }
    }

    /** Whether a node has a selected transaction below it. */
    method ParentOfMatch(height: nat, pos: nat, vMatch: seq<bool>) returns (any: bool)
      requires |vMatch| == nTransactions && IsNode(nTransactions, height, pos)
      ensures Last(nTransactions, height, pos) <= |vMatch|
      ensures any == AnyMatch(vMatch, First(height, pos), Last(nTransactions, height, pos))
    {
      NodeOrder(nTransactions, height, pos);
      any := false;
      var p := pos * Pow2(height);
      while p < (pos + 1) * Pow2(height) && p < nTransactions
        invariant First(height, pos) <= p <= Last(nTransactions, height, pos)
        invariant any == AnyMatch(vMatch, First(height, pos), p)
      {
        any := any || vMatch[p];
        p := p + 1;
      }
    }

    /** Append the code of a node. */
    method TraverseAndBuild(height: nat, pos: nat, vTxid: seq<Hash>, vMatch: seq<bool>)
      requires |vTxid| == |vMatch| == nTransactions && IsNode(nTransactions, height, pos)
      modifies this`vBits, this`vHash
      ensures vBits == old(vBits) + Encode(f, vTxid, vMatch, height, pos).bits
      ensures vHash == old(vHash) + Encode(f, vTxid, vMatch, height, pos).hashes
      decreases height
    {
      hide AnyMatch, NodeHash, IsNode, First, Last, Encode;
      var fParentOfMatch := ParentOfMatch(height, pos, vMatch);
      vBits := vBits + [fParentOfMatch];
      if height == 0 || !fParentOfMatch {
        EncodeStop(f, vTxid, vMatch, height, pos);
        vHash := vHash + [NodeHash(f, vTxid, height, pos)];
      } else {
        EncodeInner(f, vTxid, vMatch, height, pos);
        TraverseAndBuild(height - 1, 2 * pos, vTxid, vMatch);
        NodeIffBelowWidth(nTransactions, height - 1, 2 * pos + 1);
        if 2 * pos + 1 < CalcTreeWidth(height - 1) {
          TraverseAndBuild(height - 1, 2 * pos + 1, vTxid, vMatch);
        }
      }
    }

    /** Consume the code of a node. */
    method TraverseAndExtract(height: nat, pos: nat, bits: nat, hashes: nat, matches: seq<Hash>)
      returns (hash: Hash, nBitsUsed: nat, nHashUsed: nat, vMatch: seq<Hash>)
      modifies this`fBad
      ensures (hash, Cursor(nBitsUsed, nHashUsed, vMatch, fBad))
           == Decode(f, nTransactions, Contents(), height, pos, Cursor(bits, hashes, matches, old(fBad)))
      decreases height
    {
      hide IsNode;
      hash, nBitsUsed, nHashUsed, vMatch := NO_HASH, bits, hashes, matches;
      if nBitsUsed >= |vBits| {
        fBad := true;
        return;
      }
      var fParentOfMatch := vBits[nBitsUsed];
      nBitsUsed := nBitsUsed + 1;
      if height == 0 || !fParentOfMatch {
        if nHashUsed >= |vHash| {
          fBad := true;
          return;
        }
        hash := vHash[nHashUsed];
        nHashUsed := nHashUsed + 1;
        if height == 0 && fParentOfMatch {
          vMatch := vMatch + [hash];
        }
      } else {
        var left, right;
        left, nBitsUsed, nHashUsed, vMatch := TraverseAndExtract(height - 1, 2 * pos, nBitsUsed, nHashUsed, vMatch);
        NodeIffBelowWidth(nTransactions, height - 1, 2 * pos + 1);
        if 2 * pos + 1 < CalcTreeWidth(height - 1) {
          right, nBitsUsed, nHashUsed, vMatch := TraverseAndExtract(height - 1, 2 * pos + 1, nBitsUsed, nHashUsed, vMatch);
          if right == left {
            fBad := true;
          }
        } else {
          right := left;
        }
        hash := f(left, right);
      }
    }

    /** Report the root, or zero after any failure, and the matches. */
    method ExtractMatches(nMaxBlockSize: nat) returns (root: Hash, vMatch: seq<Hash>)
      modifies this`fBad
      ensures (root, vMatch) == Extract(f, nTransactions, Contents(), nMaxBlockSize, old(fBad))
    {
      hide Decode, Top;
      vMatch := [];
      if nTransactions == 0 || nTransactions > nMaxBlockSize / 60 || |vHash| > nTransactions || |vBits| < |vHash| {
        return NO_HASH, [];
      }
      var nHeight := CalcHeight();
      var nBitsUsed, nHashUsed;
      root, nBitsUsed, nHashUsed, vMatch := TraverseAndExtract(nHeight, 0, 0, 0, vMatch);
      if fBad || (nBitsUsed + 7) / 8 != (|vBits| + 7) / 8 || nHashUsed != |vHash| {
        root := NO_HASH;
      }
    }
  }
}
