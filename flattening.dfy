/**
 * The pure specification of ToMap: what it returns for a value and a prefix,
 * written as functions that follow mapconv.go branch for branch, and an
 * order-free reference description of the same result (the leaves a value has
 * and the failures it holds) that the lemmas in module FlattenProperties relate it to.
 */
module Flattening {
  import opened Wrappers
  import opened Format
  import opened Values
  import opened Paths

  /** What one call returns: the map m and the error err. */
  datatype Flat = Flat(entries: map<string, string>, err: Option<Error>)

  /** Second component of the termination measure: a container's own call ranks below its value's. */
  function Rank(v: Value): nat
  {
    if IsContainer(v) then 2 else 4
  }

  /** ToMap(value, prefix), mapconv.go:12-71. */
  function Flatten(v: Value, prefix: string): (r: Flat)
    ensures r.err.Some? ==> prefix <= r.err.value.path
    decreases v, Rank(v), 0
  {
    match v
    case Nil => Flat(map[prefix := "null"], None)
    case Seq(es) => FlattenElems(es, prefix, |es|)
    case Map(es) => FlattenEntries(es, prefix, |es|)
    case _ => SubValue(prefix, v)
  }

  /**
   * The first n passes of the loop over an array or slice (mapconv.go:58-65):
   * each pass merges its element's entries into m and overwrites err.
   */
  function FlattenElems(es: seq<Value>, prefix: string, n: nat): (r: Flat)
    requires n <= |es|
    ensures r.err.Some? ==> prefix + "[" <= r.err.value.path
    decreases Seq(es), 1, n
  {
    if n == 0 then Flat(map[], None)
    else
      var acc := FlattenElems(es, prefix, n - 1);
      var sub := SubValue(IndexPath(prefix, n - 1), es[n - 1]);
      Flat(acc.entries + sub.entries, sub.err)
  }

  /** The first n passes of the loop over a map's keys (mapconv.go:49-56). */
  function FlattenEntries(es: seq<Entry>, prefix: string, n: nat): (r: Flat)
    requires n <= |es|
    ensures r.err.Some? ==> prefix + "[" <= r.err.value.path
    decreases Map(es), 1, n
  {
    if n == 0 then Flat(map[], None)
    else
      var acc := FlattenEntries(es, prefix, n - 1);
      assert es[n - 1] in es;
      var sub := SubValue(KeyPath(prefix, es[n - 1].key), es[n - 1].val);
      Flat(acc.entries + sub.entries, sub.err)
  }

  /**
   * What assignSubValue(path, v) adds to m and returns (mapconv.go:20-44): one
   * entry for a scalar, the entries of a recursive ToMap for a container or an
   * interface, nothing and an error for the other kinds. A Nil here stands for
   * the zero reflect.Value, whose kind is Invalid.
   */
  function SubValue(path: string, v: Value): (r: Flat)
    ensures r.err.Some? ==> path <= r.err.value.path
    decreases v, 3, 0
  {
    match v
    case Nil => Flat(map[], Some(UnsupportedValue(path, Invalid)))
    case Bool(_) => Flat(map[path := LeafText(v)], None)
    case Int(_) => Flat(map[path := LeafText(v)], None)
    case Uint(_) => Flat(map[path := LeafText(v)], None)
    case Float(_) => Flat(map[path := LeafText(v)], None)
    case Str(_) => Flat(map[path := LeafText(v)], None)
    case Seq(_) => Flatten(v, path)
    case Map(_) => Flatten(v, path)
    case Iface(x) => Flatten(x, path)
    case Unsupported(k) => Flat(map[], Some(UnsupportedValue(path, k)))
    case Unknown(k) => Flat(map[], Some(UnknownValue(path, k)))
  }

  // ---------------------------------------------------------------------------
  // Reference description, independent of the order of the loops
  // ---------------------------------------------------------------------------

  /** The (path, text) pairs of all leaves ToMap(v, prefix) reaches. */
  ghost function Leaves(v: Value, prefix: string): set<(string, string)>
    decreases v, Rank(v), 0
  {
    match v
    case Nil => {(prefix, "null")}
    case Seq(es) => ElemLeaves(es, prefix, |es|)
    case Map(es) => EntryLeaves(es, prefix, |es|)
    case _ => LeavesAt(prefix, v)
  }

  /** The leaves of the first n elements, each at its own index path. */
  ghost function ElemLeaves(es: seq<Value>, prefix: string, n: nat): set<(string, string)>
    requires n <= |es|
    decreases Seq(es), 1, n
  {
    set i, pr | 0 <= i < n && pr in LeavesAt(IndexPath(prefix, i), es[i]) :: pr
  }

  /** The leaves of the first n map entries, each at its own key path. */
  ghost function EntryLeaves(es: seq<Entry>, prefix: string, n: nat): set<(string, string)>
    requires n <= |es|
    decreases Map(es), 1, n
  {
    set i, pr | 0 <= i < n && pr in LeavesAt(KeyPath(prefix, es[i].key), es[i].val) :: pr
  }

  /** The leaves of a value met as an element or map value at `path`. */
  ghost function LeavesAt(path: string, v: Value): set<(string, string)>
    decreases v, 3, 0
  {
    if IsScalar(v) then {(path, LeafText(v))}
    else if IsContainer(v) then Leaves(v, path)
    else if v.Iface? then Leaves(v.inner, path)
    else {}
  }

  /** The errors of all leaves of ToMap(v, prefix) that cannot be formatted. */
  ghost function Failures(v: Value, prefix: string): set<Error>
    decreases v, Rank(v), 0
  {
    match v
    case Nil => {}
    case Seq(es) => ElemFailures(es, prefix, |es|)
    case Map(es) => EntryFailures(es, prefix, |es|)
    case _ => FailuresAt(prefix, v)
  }

  ghost function ElemFailures(es: seq<Value>, prefix: string, n: nat): set<Error>
    requires n <= |es|
    decreases Seq(es), 1, n
  {
    set i, e | 0 <= i < n && e in FailuresAt(IndexPath(prefix, i), es[i]) :: e
  }

  ghost function EntryFailures(es: seq<Entry>, prefix: string, n: nat): set<Error>
    requires n <= |es|
    decreases Map(es), 1, n
  {
    set i, e | 0 <= i < n && e in FailuresAt(KeyPath(prefix, es[i].key), es[i].val) :: e
  }

  ghost function FailuresAt(path: string, v: Value): set<Error>
    decreases v, 3, 0
  {
    match v
    case Nil => {UnsupportedValue(path, Invalid)}
    case Unsupported(k) => {UnsupportedValue(path, k)}
    case Unknown(k) => {UnknownValue(path, k)}
    case Iface(x) => Failures(x, path)
    case Seq(_) => Failures(v, path)
    case Map(_) => Failures(v, path)
    case _ => {}
  }
}
