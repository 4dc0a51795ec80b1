/**
 * The dynamic values ToMap accepts, as a datatype over the reflect kinds that
 * mapconv.go dispatches on, and the errors it reports.
 */
module Values {
  import opened Wrappers
  import opened Format

  /** The range of reflect.Value.Int(): every signed integer kind is widened to int64. */
  type Int64 = i: int | -0x8000_0000_0000_0000 <= i < 0x8000_0000_0000_0000

  /** The range of reflect.Value.Uint(): every unsigned integer kind is widened to uint64. */
  type Uint64 = n: int | 0 <= n < 0x1_0000_0000_0000_0000

  /** Kinds that ToMap reports as unsupported; Invalid is the kind of the zero reflect.Value. */
  datatype UnsupportedKind = Invalid | Chan | Func | UnsafePointer | Complex64 | Complex128

  /** Kinds that fall through to the default case of the switch and are reported as unknown. */
  datatype UnknownKind = Uintptr | Pointer | Struct

  /**
   * A Go value as reflect sees it.
   * - Nil is the untyped nil interface (ToMap's `value == nil`).
   * - Int, Uint: any width, already widened as reflect widens them.
   * - Float: float32 or float64, as strconv.FormatFloat rounds it to six places.
   * - Seq: an array or a slice (a nil slice is the empty one).
   * - Map: a map with string keys; `entries` lists its entries in the order that
   *   reflect's MapKeys returned them for this call (Go randomises that order).
   * - Iface: an element of interface type, wrapping its dynamic value (Iface(Nil) for a nil element).
   */
  datatype Value =
    | Nil
    | Bool(b: bool)
    | Int(i: Int64)
    | Uint(n: Uint64)
    | Float(f: Float64)
    | Str(s: string)
    | Seq(elems: seq<Value>)
    | Map(entries: seq<Entry>)
    | Iface(inner: Value)
    | Unsupported(ukind: UnsupportedKind)
    | Unknown(kind: UnknownKind)

  datatype Entry = Entry(key: string, val: Value)

  /** The two error messages ToMap builds, reduced to the path and the kind they name. */
  datatype Error =
    | UnsupportedValue(path: string, ukind: UnsupportedKind)
    | UnknownValue(path: string, kind: UnknownKind)

  /** The kinds that assignSubValue formats directly into an entry. */
  predicate IsScalar(v: Value)
  {
    v.Bool? || v.Int? || v.Uint? || v.Float? || v.Str?
  }

  /** The kinds that ToMap walks child by child. */
  predicate IsContainer(v: Value)
  {
    v.Seq? || v.Map?
  }

  /** The text assignSubValue stores for a scalar. */
  function LeafText(v: Value): (r: string)
    requires IsScalar(v)
    ensures v.Bool? ==> ParseBool(r) == Some(v.b)
    ensures v.Int? ==> r != [] && (r[0] == '-' <==> v.i < 0)
    ensures v.Uint? ==> Canonical(r)
    ensures v.Float? ==> r != [] && r[|r| - 1] != '.' && r <= FormatFixed(v.f)
    ensures v.Str? ==> r == v.s
  {
    match v
    case Bool(b) => FormatBool(b)
    case Int(i) => FormatInt(i)
    case Uint(n) => FormatNat(n)
    case Float(f) => FormatFloat(f)
    case Str(s) => s
  }

  /** Leaf text loses nothing: parsing it back gives the scalar that was formatted. */
  lemma LeafTextRoundTrip(v: Value)
    requires IsScalar(v)
    ensures v.Bool? ==> ParseBool(LeafText(v)) == Some(v.b)
    ensures v.Int? ==> ParseInt(LeafText(v)) == Some(v.i)
    ensures v.Uint? ==> Canonical(LeafText(v)) && ParseNat(LeafText(v)) == v.n
    ensures v.Float? ==> ParseFloat(LeafText(v)) == Some(v.f)
    ensures v.Str? ==> LeafText(v) == v.s
  {
    match v
    case Bool(b) => ParseFormatBool(b);
    case Int(i) => ParseFormatInt(i);
    case Uint(n) => ParseFormatNat(n);
    case Float(f) => ParseFormatFloat(f);
    case Str(_) =>
  }
}
