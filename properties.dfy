/**
 * What ToMap promises, proved about its specification (module Flattening).
 */
module FlattenProperties {
  import opened Wrappers
  import opened Format
  import opened Values
  import opened Paths
  import opened Flattening

  // ---------------------------------------------------------------------------
  // Entries are exactly the leaves
  // ---------------------------------------------------------------------------

  /**
   * A result describes a set of leaves when every entry is one of the leaves
   * and every leaf's path has an entry. (When two leaves share a path, the
   * entry holds the text of the one written last.)
   */
  ghost predicate Describes(f: Flat, leaves: set<(string, string)>)
  {
    && (forall k :: k in f.entries ==> (k, f.entries[k]) in leaves)
    && (forall pr :: pr in leaves ==> pr.0 in f.entries)
  }

  /** Merging a sub-map into m (mapconv.go:35-37) merges the leaves they describe. */
  lemma DescribesMerge(acc: Flat, sub: Flat, l1: set<(string, string)>, l2: set<(string, string)>,
                       merged: Flat, leaves: set<(string, string)>)
    requires Describes(acc, l1) && Describes(sub, l2)
    requires merged.entries == acc.entries + sub.entries && leaves == l1 + l2
    ensures Describes(merged, leaves)
  {
  }

  lemma ElemLeavesStep(es: seq<Value>, prefix: string, n: nat)
    requires 0 < n <= |es|
    ensures ElemLeaves(es, prefix, n)
         == ElemLeaves(es, prefix, n - 1) + LeavesAt(IndexPath(prefix, n - 1), es[n - 1])
  {
    ElemLeavesWithin(es, prefix, n);
    ElemLeavesKept(es, prefix, n);
  }

  /** Every leaf of the first n elements is a leaf of the first n - 1 or of element n - 1. */
  lemma ElemLeavesWithin(es: seq<Value>, prefix: string, n: nat)
    requires 0 < n <= |es|
    ensures ElemLeaves(es, prefix, n) <= ElemLeaves(es, prefix, n - 1) + LeavesAt(IndexPath(prefix, n - 1), es[n - 1])
  {
    forall pr | pr in ElemLeaves(es, prefix, n)
      ensures pr in ElemLeaves(es, prefix, n - 1) + LeavesAt(IndexPath(prefix, n - 1), es[n - 1])
    {
      ElemLeavesSplit(es, prefix, n, pr);
    }
  }

  /** One leaf of the first n elements belongs to the first n - 1 or to element n - 1. */
  lemma ElemLeavesSplit(es: seq<Value>, prefix: string, n: nat, pr: (string, string))
    requires 0 < n <= |es|
    requires pr in ElemLeaves(es, prefix, n)
    ensures pr in ElemLeaves(es, prefix, n - 1) || pr in LeavesAt(IndexPath(prefix, n - 1), es[n - 1])
  {
    var i := ElemLeavesElim(es, prefix, n, pr);
    if i < n - 1 {
      ElemLeavesIntro(es, prefix, n - 1, i, pr);
    }
  }

  /** A leaf of the first n elements is a leaf of one of them. */
  lemma ElemLeavesElim(es: seq<Value>, prefix: string, n: nat, pr: (string, string)) returns (i: nat)
    requires n <= |es|
    requires pr in ElemLeaves(es, prefix, n)
    ensures i < n && pr in LeavesAt(IndexPath(prefix, i), es[i])
  {
    i :| 0 <= i < n && pr in LeavesAt(IndexPath(prefix, i), es[i]);
  }

  /** A leaf of element i is a leaf of the first m elements when i < m. */
  lemma ElemLeavesIntro(es: seq<Value>, prefix: string, m: nat, i: nat, pr: (string, string))
    requires i < m <= |es|
    requires pr in LeavesAt(IndexPath(prefix, i), es[i])
    ensures pr in ElemLeaves(es, prefix, m)
  {
  }

  /** The leaves of the first n - 1 elements and of element n - 1 are leaves of the first n. */
  lemma ElemLeavesKept(es: seq<Value>, prefix: string, n: nat)
    requires 0 < n <= |es|
    ensures ElemLeaves(es, prefix, n - 1) + LeavesAt(IndexPath(prefix, n - 1), es[n - 1]) <= ElemLeaves(es, prefix, n)
  {
    forall pr | pr in ElemLeaves(es, prefix, n - 1) + LeavesAt(IndexPath(prefix, n - 1), es[n - 1])
      ensures pr in ElemLeaves(es, prefix, n)
    {
      if pr in ElemLeaves(es, prefix, n - 1) {
        var i :| 0 <= i < n - 1 && pr in LeavesAt(IndexPath(prefix, i), es[i]);
      }
    }
  }

  lemma EntryLeavesStep(es: seq<Entry>, prefix: string, n: nat)
    requires 0 < n <= |es|
    ensures EntryLeaves(es, prefix, n)
         == EntryLeaves(es, prefix, n - 1) + LeavesAt(KeyPath(prefix, es[n - 1].key), es[n - 1].val)
  {
    EntryLeavesWithin(es, prefix, n);
    EntryLeavesKept(es, prefix, n);
  }

  /** Every leaf of the first n entries is a leaf of the first n - 1 or of entry n - 1. */
  lemma EntryLeavesWithin(es: seq<Entry>, prefix: string, n: nat)
    requires 0 < n <= |es|
    ensures EntryLeaves(es, prefix, n)
         <= EntryLeaves(es, prefix, n - 1) + LeavesAt(KeyPath(prefix, es[n - 1].key), es[n - 1].val)
  {
    forall pr | pr in EntryLeaves(es, prefix, n)
      ensures pr in EntryLeaves(es, prefix, n - 1) + LeavesAt(KeyPath(prefix, es[n - 1].key), es[n - 1].val)
    {
      EntryLeavesSplit(es, prefix, n, pr);
    }
  }

  /** One leaf of the first n entrys belongs to the first n - 1 or to entry n - 1. */
  lemma EntryLeavesSplit(es: seq<Entry>, prefix: string, n: nat, pr: (string, string))
    requires 0 < n <= |es|
    requires pr in EntryLeaves(es, prefix, n)
    ensures pr in EntryLeaves(es, prefix, n - 1) || pr in LeavesAt(KeyPath(prefix, es[n - 1].key), es[n - 1].val)
  {
    var i := EntryLeavesElim(es, prefix, n, pr);
    if i < n - 1 {
      EntryLeavesIntro(es, prefix, n - 1, i, pr);
    }
  }

  /** A leaf of the first n entries is a leaf of one of them. */
  lemma EntryLeavesElim(es: seq<Entry>, prefix: string, n: nat, pr: (string, string)) returns (i: nat)
    requires n <= |es|
    requires pr in EntryLeaves(es, prefix, n)
    ensures i < n && pr in LeavesAt(KeyPath(prefix, es[i].key), es[i].val)
  {
    i :| 0 <= i < n && pr in LeavesAt(KeyPath(prefix, es[i].key), es[i].val);
  }

  /** A leaf of entry i is a leaf of the first m entries when i < m. */
  lemma EntryLeavesIntro(es: seq<Entry>, prefix: string, m: nat, i: nat, pr: (string, string))
    requires i < m <= |es|
    requires pr in LeavesAt(KeyPath(prefix, es[i].key), es[i].val)
    ensures pr in EntryLeaves(es, prefix, m)
  {
  }

  /** The leaves of the first n - 1 entries and of entry n - 1 are leaves of the first n. */
  lemma EntryLeavesKept(es: seq<Entry>, prefix: string, n: nat)
    requires 0 < n <= |es|
    ensures EntryLeaves(es, prefix, n - 1) + LeavesAt(KeyPath(prefix, es[n - 1].key), es[n - 1].val)
         <= EntryLeaves(es, prefix, n)
  {
    forall pr | pr in EntryLeaves(es, prefix, n - 1) + LeavesAt(KeyPath(prefix, es[n - 1].key), es[n - 1].val)
      ensures pr in EntryLeaves(es, prefix, n)
    {
      if pr in EntryLeaves(es, prefix, n - 1) {
        var i :| 0 <= i < n - 1 && pr in LeavesAt(KeyPath(prefix, es[i].key), es[i].val);
      }
    }
  }

  /**
   * ToMap(v, prefix) has an entry for every leaf reachable from v, at the
   * leaf's full path, and no other entries: container nodes, nils inside
   * containers' error paths and unsupported values contribute none.
   */
  lemma {:induction false} FlattenLeaves(v: Value, prefix: string)
    ensures Describes(Flatten(v, prefix), Leaves(v, prefix))
    decreases v, Rank(v), 0
  {
    match v
    case Nil =>
    case Seq(es) => ElemsLeaves(es, prefix, |es|);
    case Map(es) => EntriesLeaves(es, prefix, |es|);
    case _ => SubLeaves(prefix, v);
  }

  lemma {:induction false} ElemsLeaves(es: seq<Value>, prefix: string, n: nat)
    requires n <= |es|
    ensures Describes(FlattenElems(es, prefix, n), ElemLeaves(es, prefix, n))
    decreases Seq(es), 1, n
  {
    if n > 0 {
      var path := IndexPath(prefix, n - 1);
      var acc := FlattenElems(es, prefix, n - 1);
      var sub := SubValue(path, es[n - 1]);
      ElemsLeaves(es, prefix, n - 1);
      SubLeaves(path, es[n - 1]);
      ElemLeavesStep(es, prefix, n);
      DescribesMerge(acc, sub, ElemLeaves(es, prefix, n - 1), LeavesAt(path, es[n - 1]),
                     FlattenElems(es, prefix, n), ElemLeaves(es, prefix, n));
    }
  }

  lemma {:induction false} EntriesLeaves(es: seq<Entry>, prefix: string, n: nat)
    requires n <= |es|
    ensures Describes(FlattenEntries(es, prefix, n), EntryLeaves(es, prefix, n))
    decreases Map(es), 1, n
  {
    if n > 0 {
      var e := es[n - 1];
      assert e in es;
      var path := KeyPath(prefix, e.key);
      var acc := FlattenEntries(es, prefix, n - 1);
      var sub := SubValue(path, e.val);
      EntriesLeaves(es, prefix, n - 1);
      SubLeaves(path, e.val);
      EntryLeavesStep(es, prefix, n);
      DescribesMerge(acc, sub, EntryLeaves(es, prefix, n - 1), LeavesAt(path, e.val),
                     FlattenEntries(es, prefix, n), EntryLeaves(es, prefix, n));
    }
  }

  lemma {:induction false} SubLeaves(path: string, v: Value)
    ensures Describes(SubValue(path, v), LeavesAt(path, v))
    decreases v, 3, 0
  {
    match v
    case Seq(_) => FlattenLeaves(v, path);
    case Map(_) => FlattenLeaves(v, path);
    case Iface(x) => FlattenLeaves(x, path);
    case _ =>
  }

  // ---------------------------------------------------------------------------
  // Every path starts with the prefix; containers have no entry of their own
  // ---------------------------------------------------------------------------

  ghost predicate Under(leaves: set<(string, string)>, prefix: string)
  {
    forall pr :: pr in leaves ==> prefix <= pr.0
  }

  lemma PrefixTrans(a: string, b: string, c: string)
    requires a <= b && b <= c
    ensures a <= c
  {
    assert c[..|a|] == b[..|a|];
  }

  lemma {:induction false} LeavesUnder(v: Value, prefix: string)
    ensures Under(Leaves(v, prefix), prefix)
    ensures IsContainer(v) ==> Under(Leaves(v, prefix), prefix + "[")
    decreases v, Rank(v), 0
  {
    match v
    case Nil =>
    case Seq(es) =>
      ElemLeavesUnder(es, prefix, |es|);
      UnderWeaken(Leaves(v, prefix), prefix + "[", prefix);
    case Map(es) =>
      EntryLeavesUnder(es, prefix, |es|);
      UnderWeaken(Leaves(v, prefix), prefix + "[", prefix);
    case _ => LeavesAtUnder(prefix, v);
  }

  lemma UnderWeaken(leaves: set<(string, string)>, longer: string, prefix: string)
    requires Under(leaves, longer) && prefix <= longer
    ensures Under(leaves, prefix)
  {
    forall pr | pr in leaves ensures prefix <= pr.0 {
      PrefixTrans(prefix, longer, pr.0);
    }
  }

  lemma {:induction false} ElemLeavesUnder(es: seq<Value>, prefix: string, n: nat)
    requires n <= |es|
    ensures Under(ElemLeaves(es, prefix, n), prefix + "[")
    decreases Seq(es), 1, n
  {
    forall pr | pr in ElemLeaves(es, prefix, n) ensures prefix + "[" <= pr.0 {
      var i :| 0 <= i < n && pr in LeavesAt(IndexPath(prefix, i), es[i]);
      LeavesAtUnder(IndexPath(prefix, i), es[i]);
      PathsExtend(prefix, "", i);
      PrefixTrans(prefix + "[", IndexPath(prefix, i), pr.0);
    }
  }

  lemma {:induction false} EntryLeavesUnder(es: seq<Entry>, prefix: string, n: nat)
    requires n <= |es|
    ensures Under(EntryLeaves(es, prefix, n), prefix + "[")
    decreases Map(es), 1, n
  {
    forall pr | pr in EntryLeaves(es, prefix, n) ensures prefix + "[" <= pr.0 {
      var i :| 0 <= i < n && pr in LeavesAt(KeyPath(prefix, es[i].key), es[i].val);
      assert es[i] in es;
      LeavesAtUnder(KeyPath(prefix, es[i].key), es[i].val);
      PathsExtend(prefix, es[i].key, 0);
      PrefixTrans(prefix + "[", KeyPath(prefix, es[i].key), pr.0);
    }
  }

  lemma {:induction false} LeavesAtUnder(path: string, v: Value)
    ensures Under(LeavesAt(path, v), path)
    decreases v, 3, 0
  {
    if IsContainer(v) {
      LeavesUnder(v, path);
    } else if v.Iface? {
      LeavesUnder(v.inner, path);
    }
  }

  /**
   * Every key of ToMap(v, prefix) starts with prefix; for a map, array or slice
   * it goes on with '[', so the container's own path never gets an entry.
   */
  lemma FlattenKeysUnderPrefix(v: Value, prefix: string)
    ensures forall k :: k in Flatten(v, prefix).entries ==> prefix <= k
    ensures IsContainer(v) ==> forall k :: k in Flatten(v, prefix).entries ==> prefix + "[" <= k
    ensures IsContainer(v) ==> prefix !in Flatten(v, prefix).entries
  {
    FlattenLeaves(v, prefix);
    LeavesUnder(v, prefix);
  }

  // ---------------------------------------------------------------------------
  // Errors
  // ---------------------------------------------------------------------------

  /**
   * The error ToMap returns is always the error of some leaf of v that could
   * not be formatted (a nil element, an unsupported or an unknown kind), named
   * by that leaf's path; when no leaf fails, the error is nil.
   */
  lemma {:induction false} FlattenErrorGenuine(v: Value, prefix: string)
    ensures Flatten(v, prefix).err.Some? ==> Flatten(v, prefix).err.value in Failures(v, prefix)
    decreases v, Rank(v), 0
  {
    match v
    case Nil =>
    case Seq(es) => ElemsErrorGenuine(es, prefix, |es|);
    case Map(es) => EntriesErrorGenuine(es, prefix, |es|);
    case _ => SubErrorGenuine(prefix, v);
  }

  lemma {:induction false} ElemsErrorGenuine(es: seq<Value>, prefix: string, n: nat)
    requires n <= |es|
    ensures FlattenElems(es, prefix, n).err.Some? ==>
              FlattenElems(es, prefix, n).err.value in ElemFailures(es, prefix, n)
    decreases Seq(es), 1, n
  {
    if n > 0 {
      var path := IndexPath(prefix, n - 1);
      SubErrorGenuine(path, es[n - 1]);
      var sub := SubValue(path, es[n - 1]);
      if sub.err.Some? {
        assert sub.err.value in FailuresAt(path, es[n - 1]);
      }
    }
  }

  lemma {:induction false} EntriesErrorGenuine(es: seq<Entry>, prefix: string, n: nat)
    requires n <= |es|
    ensures FlattenEntries(es, prefix, n).err.Some? ==>
              FlattenEntries(es, prefix, n).err.value in EntryFailures(es, prefix, n)
    decreases Map(es), 1, n
  {
    if n > 0 {
      assert es[n - 1] in es;
      var path := KeyPath(prefix, es[n - 1].key);
      SubErrorGenuine(path, es[n - 1].val);
      var sub := SubValue(path, es[n - 1].val);
      if sub.err.Some? {
        assert sub.err.value in FailuresAt(path, es[n - 1].val);
      }
    }
  }

  lemma {:induction false} SubErrorGenuine(path: string, v: Value)
    ensures SubValue(path, v).err.Some? ==> SubValue(path, v).err.value in FailuresAt(path, v)
    decreases v, 3, 0
  {
    match v
    case Seq(_) => FlattenErrorGenuine(v, path);
    case Map(_) => FlattenErrorGenuine(v, path);
    case Iface(x) => FlattenErrorGenuine(x, path);
    case _ =>
  }

  /** The loop over an array or slice returns the error of its last element, whatever came before. */
  lemma SeqLastErrorWins(es: seq<Value>, prefix: string)
    ensures es == [] ==> Flatten(Seq(es), prefix).err == None
    ensures es != [] ==>
      Flatten(Seq(es), prefix).err == SubValue(IndexPath(prefix, |es| - 1), es[|es| - 1]).err
  {
  }

  /** The loop over a map returns the error of the key visited last. */
  lemma MapLastErrorWins(es: seq<Entry>, prefix: string)
    ensures es == [] ==> Flatten(Map(es), prefix).err == None
    ensures es != [] ==>
      Flatten(Map(es), prefix).err == SubValue(KeyPath(prefix, es[|es| - 1].key), es[|es| - 1].val).err
  {
  }

  // ---------------------------------------------------------------------------
  // Top-level nil and scalars
  // ---------------------------------------------------------------------------

  /** A nil value gives exactly {prefix: "null"} and no error, whatever the prefix. */
  lemma FlattenNil(prefix: string)
    ensures Flatten(Nil, prefix) == Flat(map[prefix := "null"], None)
  {
  }

  /** A top-level scalar is stored at the prefix itself, with no suffix and no error. */
  lemma FlattenScalar(v: Value, prefix: string)
    requires IsScalar(v)
    ensures Flatten(v, prefix) == Flat(map[prefix := LeafText(v)], None)
  {
  }

  // ---------------------------------------------------------------------------
  // Flat sequences and maps of scalars
  // ---------------------------------------------------------------------------

  /** assignSubValue on a scalar adds exactly its one entry and returns nil. */
  lemma SubScalar(path: string, v: Value)
    requires IsScalar(v)
    ensures SubValue(path, v) == Flat(map[path := LeafText(v)], None)
  {
  }

  /** The map built by storing texts[i] at keys[i] for i = 0, 1, ..., n-1 in turn. */
  ghost function StoreAll(keys: seq<string>, texts: seq<string>, n: nat): map<string, string>
    requires n <= |keys| == |texts|
  {
    if n == 0 then map[] else StoreAll(keys, texts, n - 1)[keys[n - 1] := texts[n - 1]]
  }

  ghost predicate Distinct(keys: seq<string>)
  {
    forall i, j :: 0 <= i < j < |keys| ==> keys[i] != keys[j]
  }

  /** Storing n texts at n distinct keys gives exactly those n entries. */
  lemma {:induction false} StoreAllDistinct(keys: seq<string>, texts: seq<string>, n: nat)
    requires n <= |keys| == |texts| && Distinct(keys)
    ensures |StoreAll(keys, texts, n)| == n
    ensures forall i :: 0 <= i < n ==> keys[i] in StoreAll(keys, texts, n) && StoreAll(keys, texts, n)[keys[i]] == texts[i]
    ensures forall k :: k in StoreAll(keys, texts, n) ==> exists i :: 0 <= i < n && k == keys[i]
  {
    if n > 0 {
      StoreAllDistinct(keys, texts, n - 1);
    }
  }

  lemma IndexPathsDistinct(prefix: string, n: nat)
    ensures Distinct(seq(n, i requires 0 <= i < n => IndexPath(prefix, i)))
  {
    var keys := seq(n, i requires 0 <= i < n => IndexPath(prefix, i));
    forall i, j | 0 <= i < j < n ensures keys[i] != keys[j] {
      IndexPathInjective(prefix, i, j);
    }
  }

  lemma KeyPathsDistinct(es: seq<Entry>, prefix: string)
    requires DistinctKeys(es)
    ensures Distinct(seq(|es|, i requires 0 <= i < |es| => KeyPath(prefix, es[i].key)))
  {
    var keys := seq(|es|, i requires 0 <= i < |es| => KeyPath(prefix, es[i].key));
    forall i, j | 0 <= i < j < |es| ensures keys[i] != keys[j] {
      KeyPathInjective(prefix, es[i].key, es[j].key);
    }
  }

  /** The loop over a sequence of scalars stores each element's text at its index path, in turn. */
  lemma {:induction false} ScalarElems(es: seq<Value>, prefix: string, n: nat, keys: seq<string>, texts: seq<string>)
    requires n <= |es| == |keys| == |texts|
    requires forall i :: 0 <= i < |es| ==> IsScalar(es[i]) && keys[i] == IndexPath(prefix, i) && texts[i] == LeafText(es[i])
    ensures FlattenElems(es, prefix, n) == Flat(StoreAll(keys, texts, n), None)
  {
    if n > 0 {
      ScalarElems(es, prefix, n - 1, keys, texts);
      SubScalar(keys[n - 1], es[n - 1]);
      assert StoreAll(keys, texts, n - 1) + map[keys[n - 1] := texts[n - 1]] == StoreAll(keys, texts, n);
    }
  }

  /** The loop over a map of scalars stores each value's text at its key path, in turn. */
  lemma {:induction false} ScalarEntries(es: seq<Entry>, prefix: string, n: nat, keys: seq<string>, texts: seq<string>)
    requires n <= |es| == |keys| == |texts|
    requires forall i :: 0 <= i < |es| ==>
      IsScalar(es[i].val) && keys[i] == KeyPath(prefix, es[i].key) && texts[i] == LeafText(es[i].val)
    ensures FlattenEntries(es, prefix, n) == Flat(StoreAll(keys, texts, n), None)
  {
    if n > 0 {
      ScalarEntries(es, prefix, n - 1, keys, texts);
      SubScalar(keys[n - 1], es[n - 1].val);
      assert StoreAll(keys, texts, n - 1) + map[keys[n - 1] := texts[n - 1]] == StoreAll(keys, texts, n);
    }
  }

  /**
   * A flat array or slice of n scalars yields exactly the n entries
   * prefix[1]..prefix[n], the i-th holding the text of element i-1, and no error.
   */
  lemma FlatSeqOfScalars(es: seq<Value>, prefix: string)
    requires forall i :: 0 <= i < |es| ==> IsScalar(es[i])
    ensures Flatten(Seq(es), prefix).err == None
    ensures |Flatten(Seq(es), prefix).entries| == |es|
    ensures forall i :: 0 <= i < |es| ==>
      IndexPath(prefix, i) in Flatten(Seq(es), prefix).entries &&
      Flatten(Seq(es), prefix).entries[IndexPath(prefix, i)] == LeafText(es[i])
    ensures forall k :: k in Flatten(Seq(es), prefix).entries ==>
      exists i :: 0 <= i < |es| && k == IndexPath(prefix, i)
  {
    var keys := seq(|es|, i requires 0 <= i < |es| => IndexPath(prefix, i));
    var texts := seq(|es|, i requires 0 <= i < |es| => LeafText(es[i]));
    assert Flatten(Seq(es), prefix) == FlattenElems(es, prefix, |es|);
    ScalarElems(es, prefix, |es|, keys, texts);
    IndexPathsDistinct(prefix, |es|);
    StoreAllDistinct(keys, texts, |es|);
    var m := Flatten(Seq(es), prefix).entries;
    assert m == StoreAll(keys, texts, |es|);
    forall i | 0 <= i < |es| ensures IndexPath(prefix, i) in m && m[IndexPath(prefix, i)] == LeafText(es[i]) {
      assert keys[i] == IndexPath(prefix, i) && texts[i] == LeafText(es[i]);
    }
    forall k | k in m ensures exists i :: 0 <= i < |es| && k == IndexPath(prefix, i) {
      var i :| 0 <= i < |es| && k == keys[i];
      assert keys[i] == IndexPath(prefix, i);
    }
  }

  /** Go map keys are distinct. */
  predicate DistinctKeys(es: seq<Entry>)
  {
    forall i, j :: 0 <= i < j < |es| ==> es[i].key != es[j].key
  }

  /**
   * A map of n scalars yields exactly n entries, one at prefix["k"] for each
   * key k, holding the text of k's value, and no error.
   */
  lemma FlatMapOfScalars(es: seq<Entry>, prefix: string)
    requires DistinctKeys(es) && forall i :: 0 <= i < |es| ==> IsScalar(es[i].val)
    ensures Flatten(Map(es), prefix).err == None
    ensures |Flatten(Map(es), prefix).entries| == |es|
    ensures forall i :: 0 <= i < |es| ==>
      KeyPath(prefix, es[i].key) in Flatten(Map(es), prefix).entries &&
      Flatten(Map(es), prefix).entries[KeyPath(prefix, es[i].key)] == LeafText(es[i].val)
    ensures forall k :: k in Flatten(Map(es), prefix).entries ==>
      exists i :: 0 <= i < |es| && k == KeyPath(prefix, es[i].key)
  {
    var keys := seq(|es|, i requires 0 <= i < |es| => KeyPath(prefix, es[i].key));
    var texts := seq(|es|, i requires 0 <= i < |es| => LeafText(es[i].val));
    assert Flatten(Map(es), prefix) == FlattenEntries(es, prefix, |es|);
    ScalarEntries(es, prefix, |es|, keys, texts);
    KeyPathsDistinct(es, prefix);
    StoreAllDistinct(keys, texts, |es|);
    var m := Flatten(Map(es), prefix).entries;
    assert m == StoreAll(keys, texts, |es|);
    forall i | 0 <= i < |es| ensures KeyPath(prefix, es[i].key) in m && m[KeyPath(prefix, es[i].key)] == LeafText(es[i].val) {
      assert keys[i] == KeyPath(prefix, es[i].key) && texts[i] == LeafText(es[i].val);
    }
    forall k | k in m ensures exists i :: 0 <= i < |es| && k == KeyPath(prefix, es[i].key) {
      var i :| 0 <= i < |es| && k == keys[i];
      assert keys[i] == KeyPath(prefix, es[i].key);
    }
  }

  // ---------------------------------------------------------------------------
  // Map iteration order
  // ---------------------------------------------------------------------------

  /** No two leaves share a path. */
  ghost predicate UniquePaths(leaves: set<(string, string)>)
  {
    forall a, b :: a in leaves && b in leaves && a.0 == b.0 ==> a == b
  }

  /** Two results that describe the same leaves, with no two at one path, are the same map. */
  lemma DescribedUniquely(f1: Flat, f2: Flat, leaves: set<(string, string)>)
    requires Describes(f1, leaves) && Describes(f2, leaves) && UniquePaths(leaves)
    ensures f1.entries == f2.entries
  {
    forall k | k in f1.entries ensures k in f2.entries && f1.entries[k] == f2.entries[k] {
      assert (k, f1.entries[k]) in leaves;
    }
    forall k | k in f2.entries ensures k in f1.entries {
      assert (k, f2.entries[k]) in leaves;
    }
  }

  lemma EntryLeavesMembers(es: seq<Entry>, prefix: string, pr: (string, string))
    ensures pr in EntryLeaves(es, prefix, |es|) <==>
      exists e :: e in es && pr in LeavesAt(KeyPath(prefix, e.key), e.val)
  {
    if exists e :: e in es && pr in LeavesAt(KeyPath(prefix, e.key), e.val) {
      var e :| e in es && pr in LeavesAt(KeyPath(prefix, e.key), e.val);
      var i :| 0 <= i < |es| && es[i] == e;
      assert pr in LeavesAt(KeyPath(prefix, es[i].key), es[i].val);
    }
  }

  /**
   * The order in which MapKeys returns the keys does not change the leaves,
   * and, as long as no two leaves share a path, it does not change the map
   * ToMap returns either.
   */
  lemma MapOrderIrrelevant(es1: seq<Entry>, es2: seq<Entry>, prefix: string)
    requires forall e :: e in es1 <==> e in es2
    ensures Leaves(Map(es1), prefix) == Leaves(Map(es2), prefix)
    ensures UniquePaths(Leaves(Map(es1), prefix)) ==>
      Flatten(Map(es1), prefix).entries == Flatten(Map(es2), prefix).entries
  {
    forall pr ensures pr in Leaves(Map(es1), prefix) <==> pr in Leaves(Map(es2), prefix) {
      EntryLeavesMembers(es1, prefix, pr);
      EntryLeavesMembers(es2, prefix, pr);
    }
    FlattenLeaves(Map(es1), prefix);
    FlattenLeaves(Map(es2), prefix);
    if UniquePaths(Leaves(Map(es1), prefix)) {
      DescribedUniquely(Flatten(Map(es1), prefix), Flatten(Map(es2), prefix), Leaves(Map(es1), prefix));
    }
  }
}
