/**
 * ToMap as mapconv.go writes it: a map created with make, written in place by
 * the assignSubValue closure and by the loop that copies a nested call's map
 * into it, with loops over map keys and over indices that reassign err on
 * every pass. Each method is proved to compute what module Flattening specifies.
 */
module MapConv {
  import opened Wrappers
  import opened Format
  import opened Values
  import opened Paths
  import opened Flattening

  /** A Go map[string]string: a reference to a table that is written in place. */
  class StringMap {
    var entries: map<string, string>

    /** make(map[string]string) */
    constructor ()
      ensures entries == map[]
    {
      entries := map[];
    }

    /** m[key] = value */
    method Put(key: string, value: string)
      modifies this
      ensures entries == old(entries)[key := value]
    {
      entries := entries[key := value];
    }
  }

  /** ToMap(value, prefix), mapconv.go:12-71. */
  method ToMap(value: Value, prefix: string) returns (m: StringMap, err: Option<Error>)
    ensures fresh(m)
    ensures m.entries == Flatten(value, prefix).entries
    ensures err == Flatten(value, prefix).err
    decreases value, Rank(value), 0
  {
    m := new StringMap();
    err := None;
    match value
    case Nil =>
      m.Put(prefix, "null");
    case Map(es) =>
      var i := 0;
      while i < |es|
        invariant 0 <= i <= |es|
        invariant Flat(m.entries, err) == FlattenEntries(es, prefix, i)
      {
        var e := es[i];
        assert e in es;
        var path := KeyPath(prefix, e.key);
        err := AssignSubValue(m, path, e.val);
        i := i + 1;
      }
      assert Flatten(value, prefix) == FlattenEntries(es, prefix, |es|);
    case Seq(es) =>
      var i := 0;
      while i < |es|
        invariant 0 <= i <= |es|
        invariant Flat(m.entries, err) == FlattenElems(es, prefix, i)
      {
        var path := IndexPath(prefix, i);
        err := AssignSubValue(m, path, es[i]);
        i := i + 1;
      }
      assert Flatten(value, prefix) == FlattenElems(es, prefix, |es|);
    case _ =>
      err := AssignSubValue(m, prefix, value);
      assert Flatten(value, prefix) == SubValue(prefix, value);
  }

  /**
   * The assignSubValue closure, mapconv.go:20-44: formats a scalar into m[path],
   * merges a nested call's map into m, or reports the kind it cannot handle.
   */
  method AssignSubValue(m: StringMap, path: string, v: Value) returns (err: Option<Error>)
    modifies m
    ensures m.entries == old(m.entries) + SubValue(path, v).entries
    ensures err == SubValue(path, v).err
    decreases v, 3, 0
  {
    err := None;
    match v
    case Bool(b) =>
      m.Put(path, FormatBool(b));
    case Float(f) =>
      m.Put(path, TrimRight(TrimRight(FormatFixed(f), '0'), '.'));
    case Int(i) =>
      m.Put(path, FormatInt(i));
    case Uint(n) =>
      m.Put(path, FormatNat(n));
    case Str(s) =>
      m.Put(path, s);
    case Seq(_) =>
      var sub;
      sub, err := ToMap(v, path);
      CopyInto(m, sub);
    case Map(_) =>
      var sub;
      sub, err := ToMap(v, path);
      CopyInto(m, sub);
    case Iface(x) =>
      var sub;
      sub, err := ToMap(x, path);
      CopyInto(m, sub);
    case Nil =>
      err := Some(UnsupportedValue(path, Invalid));
    case Unsupported(k) =>
      err := Some(UnsupportedValue(path, k));
    case Unknown(k) =>
      err := Some(UnknownValue(path, k));
  }

  /** `for key, value := range subMap { m[key] = value }`, in whatever order the keys come. */
  method CopyInto(m: StringMap, sub: StringMap)
    requires m != sub
    modifies m
    ensures m.entries == old(m.entries) + sub.entries
  {
    var todo := sub.entries.Keys;
    while todo != {}
      invariant todo <= sub.entries.Keys
      invariant m.entries == old(m.entries) + (map k | k in sub.entries && k !in todo :: sub.entries[k])
      decreases todo
    {
      var key :| key in todo;
      m.Put(key, sub.entries[key]);
      todo := todo - {key};
    }
    assert (map k | k in sub.entries && k !in todo :: sub.entries[k]) == sub.entries;
  }
}
