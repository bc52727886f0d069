/** What several modules need. */
module Basics {
  datatype Option<+T> = None | Some(value: T)

  type Byte = x: nat | x < 256

  type BlockHash = nat  // zero plays the null hash

  /** No entry occurs twice. */
  predicate Distinct<T(==)>(s: seq<T>) { forall i, j :: 0 <= i < j < |s| ==> s[i] != s[j] }

  /** A list with the entry at one place left out. */
  function Without<T>(s: seq<T>, k: nat): seq<T>
    requires k < |s|
  {
    s[..k] + s[k + 1..]
  }

  /** A part of a part is a part. */
  lemma PartOfPart<T>(s: seq<T>, a: nat, b: nat, c: nat, d: nat)
    requires a <= b <= |s| && c <= d <= b - a
    ensures s[a..b][c..d] == s[a + c..a + d]
  {
    var p, q := s[a..b][c..d], s[a + c..a + d];
    forall j | 0 <= j < d - c
      ensures p[j] == q[j]
    {
      assert p[j] == s[a..b][c + j] == s[a + (c + j)];
    }
  }
}
