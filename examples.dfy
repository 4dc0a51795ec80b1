/**
 * The rows of the table test in mapconv_test.go, and two inputs that show how
 * ToMap treats values it cannot format, as lemmas about the specification.
 */
module TableExamples {
  import opened Wrappers
  import opened Format
  import opened Values
  import opened Paths
  import opened Flattening

  // ---------------------------------------------------------------------------
  // Scalars at the top level
  // ---------------------------------------------------------------------------

  lemma NilRow()
    ensures Flatten(Nil, "") == Flat(map["" := "null"], None)
  {
  }

  /** The bool, int*, uint* and string rows. */
  lemma ScalarRows()
    ensures Flatten(Bool(true), "") == Flat(map["" := "true"], None)
    ensures Flatten(Int(42), "") == Flat(map["" := "42"], None)
    ensures Flatten(Uint(42), "") == Flat(map["" := "42"], None)
    ensures Flatten(Str("foo"), "") == Flat(map["" := "foo"], None)
  {
    assert FormatNat(42) == "42";
  }

  /** The float32 and float64 rows: the trailing zeros of 4.200000 are cut. */
  lemma FloatRow()
    ensures Flatten(Float(FourPointTwo), "") == Flat(map["" := "4.2"], None)
  {
    FormatFloatFourPointTwo();
  }

  // ---------------------------------------------------------------------------
  // One level of nesting
  // ---------------------------------------------------------------------------

  /** A map of two strings, at a prefix whose key paths are p1 and p2. */
  lemma TwoStrings(prefix: string, k1: string, s1: string, k2: string, s2: string, p1: string, p2: string)
    requires p1 == KeyPath(prefix, k1) && p2 == KeyPath(prefix, k2)
    ensures Flatten(Map([Entry(k1, Str(s1)), Entry(k2, Str(s2))]), prefix) == Flat(map[p1 := s1, p2 := s2], None)
  {
    var es := [Entry(k1, Str(s1)), Entry(k2, Str(s2))];
    assert Flatten(Map(es), prefix) == FlattenEntries(es, prefix, 2);
    assert SubValue(p1, Str(s1)) == Flat(map[p1 := s1], None);
    assert SubValue(p2, Str(s2)) == Flat(map[p2 := s2], None);
    assert FlattenEntries(es, prefix, 1) == Flat(map[p1 := s1], None);
  }

  lemma MapOfStringsRow()
    ensures Flatten(Map([Entry("foo", Str("foo text")), Entry("bar", Str("bar text"))]), "")
         == Flat(map["[\"foo\"]" := "foo text", "[\"bar\"]" := "bar text"], None)
  {
    assert KeyPath("", "foo") == "[\"foo\"]";
    assert KeyPath("", "bar") == "[\"bar\"]";
    TwoStrings("", "foo", "foo text", "bar", "bar text", "[\"foo\"]", "[\"bar\"]");
  }

  /** The "slice of ints" and "array of ints" rows. */
  lemma SliceOfIntsRow()
    ensures Flatten(Seq([Int(9), Int(99), Int(999)]), "")
         == Flat(map["[1]" := "9", "[2]" := "99", "[3]" := "999"], None)
  {
    assert IndexPath("", 0) == "[1]" && IndexPath("", 1) == "[2]" && IndexPath("", 2) == "[3]";
    assert FormatInt(9) == "9" && FormatInt(99) == "99" && FormatInt(999) == "999";
    ThreeInts("", 9, 99, 999, "[1]", "[2]", "[3]", "9", "99", "999");
  }

  /** A slice of three ints, at a prefix whose index paths are p1, p2 and p3, with decimal texts t1, t2 and t3. */
  lemma ThreeInts(prefix: string, i: Int64, j: Int64, k: Int64, p1: string, p2: string, p3: string,
                  t1: string, t2: string, t3: string)
    requires p1 == IndexPath(prefix, 0) && p2 == IndexPath(prefix, 1) && p3 == IndexPath(prefix, 2)
    requires t1 == FormatInt(i) && t2 == FormatInt(j) && t3 == FormatInt(k)
    ensures Flatten(Seq([Int(i), Int(j), Int(k)]), prefix) == Flat(map[p1 := t1, p2 := t2, p3 := t3], None)
  {
    var es := [Int(i), Int(j), Int(k)];
    assert FlattenElems(es, prefix, 1) == Flat(map[p1 := t1], None) by {
      ElemsPass(es, prefix, 0, Flat(map[], None), Flat(map[p1 := t1], None));
      assert map[] + map[p1 := t1] == map[p1 := t1];
    }
    assert FlattenElems(es, prefix, 2) == Flat(map[p1 := t1, p2 := t2], None) by {
      ElemsPass(es, prefix, 1, Flat(map[p1 := t1], None), Flat(map[p2 := t2], None));
    }
    assert FlattenElems(es, prefix, 3) == Flat(map[p1 := t1, p2 := t2, p3 := t3], None) by {
      ElemsPass(es, prefix, 2, Flat(map[p1 := t1, p2 := t2], None), Flat(map[p3 := t3], None));
    }
    assert Flatten(Seq(es), prefix) == FlattenElems(es, prefix, 3);
  }

  /** A slice of three strings, at a prefix whose index paths are p1, p2 and p3. */
  lemma ThreeStrings(prefix: string, s1: string, s2: string, s3: string, p1: string, p2: string, p3: string)
    requires p1 == IndexPath(prefix, 0) && p2 == IndexPath(prefix, 1) && p3 == IndexPath(prefix, 2)
    ensures Flatten(Seq([Str(s1), Str(s2), Str(s3)]), prefix) == Flat(map[p1 := s1, p2 := s2, p3 := s3], None)
  {
    var es := [Str(s1), Str(s2), Str(s3)];
    assert FlattenElems(es, prefix, 1) == Flat(map[p1 := s1], None) by {
      ElemsPass(es, prefix, 0, Flat(map[], None), Flat(map[p1 := s1], None));
      assert map[] + map[p1 := s1] == map[p1 := s1];
    }
    assert FlattenElems(es, prefix, 2) == Flat(map[p1 := s1, p2 := s2], None) by {
      ElemsPass(es, prefix, 1, Flat(map[p1 := s1], None), Flat(map[p2 := s2], None));
    }
    assert FlattenElems(es, prefix, 3) == Flat(map[p1 := s1, p2 := s2, p3 := s3], None) by {
      ElemsPass(es, prefix, 2, Flat(map[p1 := s1, p2 := s2], None), Flat(map[p3 := s3], None));
    }
    assert Flatten(Seq(es), prefix) == FlattenElems(es, prefix, 3);
  }

  /** The "slice of strings" row, whose prefix is "strings". */
  lemma SliceOfStringsRow()
    ensures Flatten(Seq([Str("foo"), Str("bar"), Str("baz")]), "strings")
         == Flat(map["strings[1]" := "foo", "strings[2]" := "bar", "strings[3]" := "baz"], None)
  {
    assert IndexPath("strings", 0) == "strings[1]";
    assert IndexPath("strings", 1) == "strings[2]";
    assert IndexPath("strings", 2) == "strings[3]";
    ThreeStrings("strings", "foo", "bar", "baz", "strings[1]", "strings[2]", "strings[3]");
  }

  // ---------------------------------------------------------------------------
  // Nested containers: one loop pass per element or entry
  // ---------------------------------------------------------------------------

  /** One more pass of the loop over a slice merges element n's entries into acc and keeps its error. */
  lemma ElemsPass(es: seq<Value>, prefix: string, n: nat, acc: Flat, sub: Flat)
    requires n < |es|
    requires acc == FlattenElems(es, prefix, n) && sub == SubValue(IndexPath(prefix, n), es[n])
    ensures FlattenElems(es, prefix, n + 1) == Flat(acc.entries + sub.entries, sub.err)
  {
  }

  /** Two loop passes over a slice: the second element's entries are merged last, its error kept. */
  lemma TwoElems(prefix: string, v1: Value, v2: Value)
    ensures var a := SubValue(IndexPath(prefix, 0), v1);
            var b := SubValue(IndexPath(prefix, 1), v2);
            Flatten(Seq([v1, v2]), prefix) == Flat(a.entries + b.entries, b.err)
  {
    var es := [v1, v2];
    assert Flatten(Seq(es), prefix) == FlattenElems(es, prefix, 2);
    var a := SubValue(IndexPath(prefix, 0), v1);
    ElemsPass(es, prefix, 0, Flat(map[], None), a);
    assert map[] + a.entries == a.entries;
    ElemsPass(es, prefix, 1, Flat(a.entries, a.err), SubValue(IndexPath(prefix, 1), v2));
  }

  /** One loop pass over a map. */
  lemma OneEntry(prefix: string, k: string, v: Value)
    ensures Flatten(Map([Entry(k, v)]), prefix) == SubValue(KeyPath(prefix, k), v)
  {
    var es := [Entry(k, v)];
    assert Flatten(Map(es), prefix) == FlattenEntries(es, prefix, 1);
    assert FlattenEntries(es, prefix, 1).entries == map[] + SubValue(KeyPath(prefix, k), v).entries;
  }

  /** Two loop passes over a map. */
  lemma TwoEntries(prefix: string, e1: Entry, e2: Entry)
    ensures var a := SubValue(KeyPath(prefix, e1.key), e1.val);
            var b := SubValue(KeyPath(prefix, e2.key), e2.val);
            Flatten(Map([e1, e2]), prefix) == Flat(a.entries + b.entries, b.err)
  {
    var es := [e1, e2];
    assert Flatten(Map(es), prefix) == FlattenEntries(es, prefix, 2);
    assert FlattenEntries(es, prefix, 1).entries == map[] + SubValue(KeyPath(prefix, e1.key), e1.val).entries;
  }

  /** Three loop passes over a map. */
  lemma ThreeEntries(prefix: string, e1: Entry, e2: Entry, e3: Entry)
    ensures var a := SubValue(KeyPath(prefix, e1.key), e1.val);
            var b := SubValue(KeyPath(prefix, e2.key), e2.val);
            var c := SubValue(KeyPath(prefix, e3.key), e3.val);
            Flatten(Map([e1, e2, e3]), prefix) == Flat(a.entries + b.entries + c.entries, c.err)
  {
    var es := [e1, e2, e3];
    var a := SubValue(KeyPath(prefix, e1.key), e1.val);
    var b := SubValue(KeyPath(prefix, e2.key), e2.val);
    assert Flatten(Map(es), prefix) == FlattenEntries(es, prefix, 3);
    assert FlattenEntries(es, prefix, 1).entries == map[] + a.entries;
    assert FlattenEntries(es, prefix, 2).entries == map[] + a.entries + b.entries;
  }

  /** A string element or map value stores its text at its path. */
  lemma StrAt(path: string, s: string)
    ensures SubValue(path, Str(s)) == Flat(map[path := s], None)
  {
  }

  /** A slice of two scalars, at a prefix whose index paths are p1 and p2, with leaf texts t1 and t2. */
  lemma TwoScalars(prefix: string, v1: Value, v2: Value, p1: string, p2: string, t1: string, t2: string)
    requires IsScalar(v1) && IsScalar(v2)
    requires p1 == IndexPath(prefix, 0) && p2 == IndexPath(prefix, 1)
    requires t1 == LeafText(v1) && t2 == LeafText(v2)
    ensures Flatten(Seq([v1, v2]), prefix) == Flat(map[p1 := t1, p2 := t2], None)
  {
    TwoElems(prefix, v1, v2);
  }

  const OneTwo: Value := Seq([Int(1), Int(2)])
  const ThreeFour: Value := Seq([Int(3), Int(4)])

  /** Two loop passes over a slice whose elements yield the maps m1 and m2 and no error. */
  lemma TwoElemsMerged(prefix: string, v1: Value, v2: Value, p1: string, p2: string,
                       m1: map<string, string>, m2: map<string, string>)
    requires p1 == IndexPath(prefix, 0) && p2 == IndexPath(prefix, 1)
    requires SubValue(p1, v1) == Flat(m1, None) && SubValue(p2, v2) == Flat(m2, None)
    ensures Flatten(Seq([v1, v2]), prefix) == Flat(m1 + m2, None)
  {
    TwoElems(prefix, v1, v2);
  }

  lemma OneTwoPart()
    ensures IndexPath("", 0) == "[1]"
    ensures SubValue("[1]", OneTwo) == Flat(map["[1][1]" := "1", "[1][2]" := "2"], None)
  {
    assert FormatInt(1) == "1" && FormatInt(2) == "2";
    TwoScalars("[1]", Int(1), Int(2), "[1][1]", "[1][2]", "1", "2");
  }

  lemma ThreeFourPart()
    ensures IndexPath("", 1) == "[2]"
    ensures SubValue("[2]", ThreeFour) == Flat(map["[2][1]" := "3", "[2][2]" := "4"], None)
  {
    assert FormatInt(3) == "3" && FormatInt(4) == "4";
    TwoScalars("[2]", Int(3), Int(4), "[2][1]", "[2][2]", "3", "4");
  }

  /** The "slice of slice of ints" row. */
  lemma SliceOfSlicesRow()
    ensures Flatten(Seq([OneTwo, ThreeFour]), "")
         == Flat(map["[1][1]" := "1", "[1][2]" := "2", "[2][1]" := "3", "[2][2]" := "4"], None)
  {
    assert map["[1][1]" := "1", "[1][2]" := "2"] + map["[2][1]" := "3", "[2][2]" := "4"]
        == map["[1][1]" := "1", "[1][2]" := "2", "[2][1]" := "3", "[2][2]" := "4"];
    OneTwoPart();
    ThreeFourPart();
    TwoElemsMerged("", OneTwo, ThreeFour, "[1]", "[2]",
                   map["[1][1]" := "1", "[1][2]" := "2"], map["[2][1]" := "3", "[2][2]" := "4"]);
  }

  const FooName: Value := Map([Entry("name", Str("foo"))])
  const BarName: Value := Map([Entry("name", Str("bar"))])

  lemma FooNamePart()
    ensures IndexPath("", 0) == "[1]"
    ensures SubValue("[1]", FooName) == Flat(map["[1][\"name\"]" := "foo"], None)
  {
    OneString("[1]", "name", "foo", "[1][\"name\"]");
  }

  lemma BarNamePart()
    ensures IndexPath("", 1) == "[2]"
    ensures SubValue("[2]", BarName) == Flat(map["[2][\"name\"]" := "bar"], None)
  {
    OneString("[2]", "name", "bar", "[2][\"name\"]");
  }

  /** The "slice of maps" row. */
  lemma SliceOfMapsRow()
    ensures Flatten(Seq([FooName, BarName]), "")
         == Flat(map["[1][\"name\"]" := "foo", "[2][\"name\"]" := "bar"], None)
  {
    assert map["[1][\"name\"]" := "foo"] + map["[2][\"name\"]" := "bar"]
        == map["[1][\"name\"]" := "foo", "[2][\"name\"]" := "bar"];
    FooNamePart();
    BarNamePart();
    TwoElemsMerged("", FooName, BarName, "[1]", "[2]",
                   map["[1][\"name\"]" := "foo"], map["[2][\"name\"]" := "bar"]);
  }

  /** Two loop passes over a map whose values yield the maps m1 and m2 and no error. */
  lemma TwoEntriesMerged(prefix: string, e1: Entry, e2: Entry, p1: string, p2: string,
                         m1: map<string, string>, m2: map<string, string>)
    requires p1 == KeyPath(prefix, e1.key) && p2 == KeyPath(prefix, e2.key)
    requires SubValue(p1, e1.val) == Flat(m1, None) && SubValue(p2, e2.val) == Flat(m2, None)
    ensures Flatten(Map([e1, e2]), prefix) == Flat(m1 + m2, None)
  {
    TwoEntries(prefix, e1, e2);
  }

  /** A map with one string value, at a prefix whose key path is p. */
  lemma OneString(prefix: string, k: string, s: string, p: string)
    requires p == KeyPath(prefix, k)
    ensures Flatten(Map([Entry(k, Str(s))]), prefix) == Flat(map[p := s], None)
  {
    OneEntry(prefix, k, Str(s));
  }

  const FooMap: Value := Map([Entry("bar", Str("baz"))])
  const QuxMap: Value := Map([Entry("quux", Str("corge")), Entry("grault", Str("garply"))])

  lemma FooPart()
    ensures KeyPath("", "foo") == "[\"foo\"]"
    ensures SubValue("[\"foo\"]", FooMap) == Flat(map["[\"foo\"][\"bar\"]" := "baz"], None)
  {
    OneString("[\"foo\"]", "bar", "baz", "[\"foo\"][\"bar\"]");
  }

  lemma QuxPart()
    ensures KeyPath("", "qux") == "[\"qux\"]"
    ensures SubValue("[\"qux\"]", QuxMap)
         == Flat(map["[\"qux\"][\"quux\"]" := "corge", "[\"qux\"][\"grault\"]" := "garply"], None)
  {
    TwoStrings("[\"qux\"]", "quux", "corge", "grault", "garply", "[\"qux\"][\"quux\"]", "[\"qux\"][\"grault\"]");
  }

  /** The "map of maps of strings" row. */
  lemma MapOfMapsRow()
    ensures Flatten(Map([Entry("foo", FooMap), Entry("qux", QuxMap)]), "")
         == Flat(map["[\"foo\"][\"bar\"]" := "baz",
                     "[\"qux\"][\"quux\"]" := "corge",
                     "[\"qux\"][\"grault\"]" := "garply"], None)
  {
    assert map["[\"foo\"][\"bar\"]" := "baz"] + map["[\"qux\"][\"quux\"]" := "corge", "[\"qux\"][\"grault\"]" := "garply"]
        == map["[\"foo\"][\"bar\"]" := "baz", "[\"qux\"][\"quux\"]" := "corge", "[\"qux\"][\"grault\"]" := "garply"];
    FooPart();
    QuxPart();
    TwoEntriesMerged("", Entry("foo", FooMap), Entry("qux", QuxMap), "[\"foo\"]", "[\"qux\"]",
                     map["[\"foo\"][\"bar\"]" := "baz"],
                     map["[\"qux\"][\"quux\"]" := "corge", "[\"qux\"][\"grault\"]" := "garply"]);
  }

  const Names: Value := Seq([Str("bill"), Str("bob")])
  const Colors: Value := Seq([Str("blue"), Str("green"), Str("red")])

  lemma NamesPart()
    ensures KeyPath("", "names") == "[\"names\"]"
    ensures SubValue("[\"names\"]", Names) == Flat(map["[\"names\"][1]" := "bill", "[\"names\"][2]" := "bob"], None)
  {
    TwoScalars("[\"names\"]", Str("bill"), Str("bob"), "[\"names\"][1]", "[\"names\"][2]", "bill", "bob");
  }

  lemma ColorsPart()
    ensures KeyPath("", "colors") == "[\"colors\"]"
    ensures SubValue("[\"colors\"]", Colors)
         == Flat(map["[\"colors\"][1]" := "blue", "[\"colors\"][2]" := "green", "[\"colors\"][3]" := "red"], None)
  {
    ThreeStrings("[\"colors\"]", "blue", "green", "red", "[\"colors\"][1]", "[\"colors\"][2]", "[\"colors\"][3]");
  }

  /** The "map of slices of strings" row. */
  lemma MapOfSlicesRow()
    ensures Flatten(Map([Entry("names", Names), Entry("colors", Colors)]), "")
         == Flat(map["[\"names\"][1]" := "bill", "[\"names\"][2]" := "bob",
                     "[\"colors\"][1]" := "blue", "[\"colors\"][2]" := "green",
                     "[\"colors\"][3]" := "red"], None)
  {
    assert map["[\"names\"][1]" := "bill", "[\"names\"][2]" := "bob"]
         + map["[\"colors\"][1]" := "blue", "[\"colors\"][2]" := "green", "[\"colors\"][3]" := "red"]
        == map["[\"names\"][1]" := "bill", "[\"names\"][2]" := "bob",
               "[\"colors\"][1]" := "blue", "[\"colors\"][2]" := "green", "[\"colors\"][3]" := "red"];
    NamesPart();
    ColorsPart();
    TwoEntriesMerged("", Entry("names", Names), Entry("colors", Colors), "[\"names\"]", "[\"colors\"]",
                     map["[\"names\"][1]" := "bill", "[\"names\"][2]" := "bob"],
                     map["[\"colors\"][1]" := "blue", "[\"colors\"][2]" := "green", "[\"colors\"][3]" := "red"]);
  }

  // ---------------------------------------------------------------------------
  // The value json.Unmarshal decodes the test's JSON document into: maps of
  // string to interface{}, slices of interface{}, float64 numbers
  // ---------------------------------------------------------------------------

  /** A JSON number with no fractional part, as the float64 json.Unmarshal yields. */
  function Number(n: nat): Value
  {
    Iface(Float(Finite(false, n * Scale)))
  }

  /** A whole JSON number is rendered without a decimal point. */
  lemma NumberText(path: string, n: nat)
    ensures SubValue(path, Number(n)) == Flat(map[path := FormatNat(n)], None)
  {
    FormatFloatWholeNumber(false, n);
    assert FormatFloat(Finite(false, n * Scale)) == FormatNat(n);
    assert SubValue(path, Number(n)) == Flatten(Float(Finite(false, n * Scale)), path);
  }

  lemma NumberAt(path: string, v: Value, n: nat, t: string)
    requires v == Number(n) && t == FormatNat(n)
    ensures SubValue(path, v) == Flat(map[path := t], None)
  {
    NumberText(path, n);
  }

  /** One object of the "children" array. */
  function Child(name: string, age: nat): Value
  {
    Map([Entry("name", Iface(Str(name))), Entry("age", Number(age))])
  }

  /** A string held in an interface{} is stored as the string itself. */
  lemma IfaceStrAt(path: string, s: string)
    ensures SubValue(path, Iface(Str(s))) == Flat(map[path := s], None)
  {
    assert SubValue(path, Iface(Str(s))) == Flatten(Str(s), path);
    assert Flatten(Str(s), path) == SubValue(path, Str(s));
  }

  /** An object with a string and a whole number, at a prefix whose key paths are pn and pa. */
  lemma ObjectAt(prefix: string, kn: string, name: string, ka: string, age: nat, pn: string, pa: string, ta: string)
    requires pn == KeyPath(prefix, kn) && pa == KeyPath(prefix, ka) && ta == FormatNat(age)
    ensures SubValue(prefix, Iface(Map([Entry(kn, Iface(Str(name))), Entry(ka, Number(age))])))
         == Flat(map[pn := name, pa := ta], None)
  {
    var v := Map([Entry(kn, Iface(Str(name))), Entry(ka, Number(age))]);
    TwoEntries(prefix, Entry(kn, Iface(Str(name))), Entry(ka, Number(age)));
    NumberText(pa, age);
    IfaceStrAt(pn, name);
    assert SubValue(prefix, Iface(v)) == Flatten(v, prefix);
  }

  lemma ChildAt(prefix: string, child: Value, name: string, age: nat, pn: string, pa: string, ta: string)
    requires child == Iface(Child(name, age))
    requires pn == KeyPath(prefix, "name") && pa == KeyPath(prefix, "age") && ta == FormatNat(age)
    ensures SubValue(prefix, child) == Flat(map[pn := name, pa := ta], None)
  {
    ObjectAt(prefix, "name", name, "age", age, pn, pa, ta);
  }

  const Jack: Value := Iface(Child("jack", 5))
  const Jill: Value := Iface(Child("jill", 7))
  const Children: Value := Iface(Seq([Jack, Jill]))

  lemma JackPart()
    ensures IndexPath("[\"children\"]", 0) == "[\"children\"][1]"
    ensures SubValue("[\"children\"][1]", Jack)
         == Flat(map["[\"children\"][1][\"name\"]" := "jack", "[\"children\"][1][\"age\"]" := "5"], None)
  {
    assert FormatNat(5) == "5";
    ChildAt("[\"children\"][1]", Jack, "jack", 5, "[\"children\"][1][\"name\"]", "[\"children\"][1][\"age\"]", "5");
  }

  lemma JillPart()
    ensures IndexPath("[\"children\"]", 1) == "[\"children\"][2]"
    ensures SubValue("[\"children\"][2]", Jill)
         == Flat(map["[\"children\"][2][\"name\"]" := "jill", "[\"children\"][2][\"age\"]" := "7"], None)
  {
    assert FormatNat(7) == "7";
    ChildAt("[\"children\"][2]", Jill, "jill", 7, "[\"children\"][2][\"name\"]", "[\"children\"][2][\"age\"]", "7");
  }

  lemma ChildrenPath()
    ensures KeyPath("", "children") == "[\"children\"]"
  {
  }

  lemma ChildrenPart()
    ensures SubValue("[\"children\"]", Children)
         == Flat(map["[\"children\"][1][\"name\"]" := "jack", "[\"children\"][1][\"age\"]" := "5",
                     "[\"children\"][2][\"name\"]" := "jill", "[\"children\"][2][\"age\"]" := "7"], None)
  {
    assert map["[\"children\"][1][\"name\"]" := "jack", "[\"children\"][1][\"age\"]" := "5"]
         + map["[\"children\"][2][\"name\"]" := "jill", "[\"children\"][2][\"age\"]" := "7"]
        == map["[\"children\"][1][\"name\"]" := "jack", "[\"children\"][1][\"age\"]" := "5",
               "[\"children\"][2][\"name\"]" := "jill", "[\"children\"][2][\"age\"]" := "7"];
    JackPart();
    JillPart();
    TwoElemsMerged("[\"children\"]", Jack, Jill, "[\"children\"][1]", "[\"children\"][2]",
                   map["[\"children\"][1][\"name\"]" := "jack", "[\"children\"][1][\"age\"]" := "5"],
                   map["[\"children\"][2][\"name\"]" := "jill", "[\"children\"][2][\"age\"]" := "7"]);
    assert SubValue("[\"children\"]", Children) == Flatten(Seq([Jack, Jill]), "[\"children\"]");
  }

  /** Three loop passes over a map whose values yield one, one and four entries. */
  lemma ThreeEntriesMerged(prefix: string, e1: Entry, e2: Entry, e3: Entry, p1: string, p2: string, p3: string,
                             a: string, b: string, c: string, d: string, e: string, f: string,
                             ta: string, tb: string, tc: string, td: string, te: string, tf: string)
    requires p1 == KeyPath(prefix, e1.key) && p2 == KeyPath(prefix, e2.key) && p3 == KeyPath(prefix, e3.key)
    requires SubValue(p1, e1.val) == Flat(map[a := ta], None)
    requires SubValue(p2, e2.val) == Flat(map[b := tb], None)
    requires SubValue(p3, e3.val) == Flat(map[c := tc, d := td, e := te, f := tf], None)
    ensures Flatten(Map([e1, e2, e3]), prefix) == Flat(map[a := ta, b := tb, c := tc, d := td, e := te, f := tf], None)
  {
    ThreeEntries(prefix, e1, e2, e3);
  }

  const Bob: Value := Iface(Str("bob"))
  const ThirtyFive: Value := Number(35)
  const Document: Value := Map([Entry("name", Bob), Entry("age", ThirtyFive), Entry("children", Children)])

  lemma NamePart()
    ensures KeyPath("", "name") == "[\"name\"]"
    ensures SubValue("[\"name\"]", Bob) == Flat(map["[\"name\"]" := "bob"], None)
  {
    IfaceStrAt("[\"name\"]", "bob");
  }

  lemma AgePart()
    ensures KeyPath("", "age") == "[\"age\"]"
    ensures SubValue("[\"age\"]", ThirtyFive) == Flat(map["[\"age\"]" := "35"], None)
  {
    assert FormatNat(35) == "35";
    NumberAt("[\"age\"]", ThirtyFive, 35, "35");
  }

  /** The "json.Unmarshalled value" row: the document's order of keys is taken as the map's iteration order. */
  lemma JsonDocumentRow()
    ensures Flatten(Document, "")
         == Flat(map["[\"name\"]" := "bob", "[\"age\"]" := "35",
                     "[\"children\"][1][\"name\"]" := "jack", "[\"children\"][1][\"age\"]" := "5",
                     "[\"children\"][2][\"name\"]" := "jill", "[\"children\"][2][\"age\"]" := "7"], None)
  {
    NamePart();
    AgePart();
    ChildrenPart();
    ChildrenPath();
    ThreeEntriesMerged("", Entry("name", Bob), Entry("age", ThirtyFive), Entry("children", Children),
                       "[\"name\"]", "[\"age\"]", "[\"children\"]",
                       "[\"name\"]", "[\"age\"]",
                       "[\"children\"][1][\"name\"]", "[\"children\"][1][\"age\"]",
                       "[\"children\"][2][\"name\"]", "[\"children\"][2][\"age\"]",
                       "bob", "35", "jack", "5", "jill", "7");
  }

  // ---------------------------------------------------------------------------
  // Values that cannot be formatted
  // ---------------------------------------------------------------------------

  /**
   * A later element that formats cleanly overwrites the error of an earlier
   * one: the call reports no error although a leaf was dropped.
   */
  lemma ErrorMasked(prefix: string, k: UnsupportedKind, s: string)
    ensures Flatten(Seq([Unsupported(k), Str(s)]), prefix) == Flat(map[IndexPath(prefix, 1) := s], None)
    ensures UnsupportedValue(IndexPath(prefix, 0), k) in Failures(Seq([Unsupported(k), Str(s)]), prefix)
  {
    var es := [Unsupported(k), Str(s)];
    TwoElems(prefix, Unsupported(k), Str(s));
    assert UnsupportedValue(IndexPath(prefix, 0), k) in FailuresAt(IndexPath(prefix, 0), es[0]);
  }

  /** An error in the last map entry is reported, and the entries before it are still returned. */
  lemma PartialResultKept(prefix: string, k1: string, s: string, k2: string, kind: UnsupportedKind)
    ensures Flatten(Map([Entry(k1, Str(s)), Entry(k2, Unsupported(kind))]), prefix)
         == Flat(map[KeyPath(prefix, k1) := s], Some(UnsupportedValue(KeyPath(prefix, k2), kind)))
  {
    TwoEntries(prefix, Entry(k1, Str(s)), Entry(k2, Unsupported(kind)));
  }

  /** uintptr is not among the unsigned kinds ToMap formats; it falls to the unknown-kind error. */
  lemma UintptrIsUnknown(prefix: string)
    ensures Flatten(Unknown(Uintptr), prefix) == Flat(map[], Some(UnknownValue(prefix, Uintptr)))
  {
  }

  // ---------------------------------------------------------------------------
  // Nil children
  // ---------------------------------------------------------------------------

  /**
   * A nil held in an interface{} element is handed back to ToMap, whose nil
   * check stores "null" at the element's path.
   */
  lemma NilInInterfaceIsNull(path: string)
    ensures SubValue(path, Iface(Nil)) == Flat(map[path := "null"], None)
  {
    assert SubValue(path, Iface(Nil)) == Flatten(Nil, path);
  }

  /** A nil slice or map element is an empty container: its loop never runs and nothing is added. */
  lemma NilContainerAddsNothing(path: string)
    ensures SubValue(path, Seq([])) == Flat(map[], None)
    ensures SubValue(path, Map([])) == Flat(map[], None)
  {
    assert SubValue(path, Seq([])) == FlattenElems([], path, 0);
    assert SubValue(path, Map([])) == FlattenEntries([], path, 0);
  }
}
