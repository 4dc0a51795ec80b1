/**
 * Path encoding of mapconv.go: a map key k extends a path with ["k"], the
 * element at 0-based index i of an array or slice with [i+1].
 */
module Paths {
  import opened Format

  /** mapconv.go:50; the key is inserted as is, without escaping. */
  function KeyPath(prefix: string, key: string): (r: string)
    ensures |r| == |prefix| + |key| + 4
  {
    prefix + "[\"" + key + "\"]"
  }

  /** mapconv.go:59; strconv.Itoa(i+1) between brackets. */
  function IndexPath(prefix: string, i: nat): (r: string)
    ensures |r| >= |prefix| + 3
  {
    prefix + "[" + FormatNat(i + 1) + "]"
  }

  /** Both kinds of step keep the parent path as a prefix and go on with a '['. */
  lemma PathsExtend(prefix: string, key: string, i: nat)
    ensures prefix + "[" <= KeyPath(prefix, key)
    ensures prefix + "[" <= IndexPath(prefix, i)
  {
  }

  /** Within one level, distinct keys give distinct paths. */
  lemma KeyPathInjective(prefix: string, a: string, b: string)
    ensures KeyPath(prefix, a) == KeyPath(prefix, b) ==> a == b
  {
    if KeyPath(prefix, a) == KeyPath(prefix, b) {
      var n := |prefix| + 2;
      assert |a| == |b|;
      assert a == KeyPath(prefix, a)[n..n + |a|];
      assert b == KeyPath(prefix, b)[n..n + |b|];
    }
  }

  /** Within one level, distinct indices give distinct paths. */
  lemma IndexPathInjective(prefix: string, i: nat, j: nat)
    ensures IndexPath(prefix, i) == IndexPath(prefix, j) ==> i == j
  {
    if IndexPath(prefix, i) == IndexPath(prefix, j) {
      var di, dj := FormatNat(i + 1), FormatNat(j + 1);
      var n := |prefix| + 1;
      assert |di| == |dj|;
      assert di == IndexPath(prefix, i)[n..n + |di|];
      assert dj == IndexPath(prefix, j)[n..n + |dj|];
      FormatNatInjective(i + 1, j + 1);
    }
  }

  /** A key step and an index step from the same prefix never meet: '"' is not a digit. */
  lemma KeyIndexDistinct(prefix: string, key: string, i: nat)
    ensures KeyPath(prefix, key) != IndexPath(prefix, i)
  {
    var n := |prefix| + 1;
    assert KeyPath(prefix, key)[n] == '"';
    assert IndexPath(prefix, i)[n] == FormatNat(i + 1)[0];
  }
}
