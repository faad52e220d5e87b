/**
 * The value system shared by resource attributes and filter literals:
 * the thirteen attribute kinds of schema.go, the dynamic values that an
 * `interface{}` can hold in the filter code, Go's time.Time and an
 * abstract JSON document.
 */
module Values {

  // The attribute kinds, in the order of the Go `iota` block.
  const AttrTypeInvalid := 0
  const AttrTypeString := 1
  const AttrTypeInt := 2
  const AttrTypeInt8 := 3
  const AttrTypeInt16 := 4
  const AttrTypeInt32 := 5
  const AttrTypeInt64 := 6
  const AttrTypeUint := 7
  const AttrTypeUint8 := 8
  const AttrTypeUint16 := 9
  const AttrTypeUint32 := 10
  const AttrTypeUint64 := 11
  const AttrTypeBool := 12
  const AttrTypeTime := 13

  /** The kinds an attribute can have (everything but AttrTypeInvalid). */
  predicate IsAttrType(t: int) {
    AttrTypeString <= t <= AttrTypeTime
  }

  /** The width of a Go integer type; `Native` is plain `int`/`uint`. */
  datatype Width = Native | W8 | W16 | W32 | W64

  /**
   * A time.Time: the instant it denotes and its location. Go's `==`
   * compares both, while Equal, Before and After look at the instant only.
   */
  datatype Time = Time(instant: int, zone: string)

  predicate Equal(a: Time, b: Time) { a.instant == b.instant }
  predicate Before(a: Time, b: Time) { a.instant < b.instant }
  predicate After(a: Time, b: Time) { a.instant > b.instant }

  /** A parsed JSON document; objects are maps, so keys are unique. */
  datatype Json =
    | JNull
    | JBool(b: bool)
    | JNumber(n: real)
    | JString(s: string)
    | JArray(items: seq<Json>)
    | JObject(members: map<string, Json>)

  /**
   * What an `interface{}` holds in the attribute and filter code.
   * Integers are mathematical: every comparison in the source widens to
   * int64 or uint64 first, which agrees with comparing the values.
   */
  datatype Value =
    | Str(s: string)                 // string
    | Int(width: Width, i: int)      // int, int8, ..., int64
    | Uint(width: Width, u: nat)     // uint, uint8, ..., uint64
    | Bool(b: bool)                  // bool
    | Stamp(t: Time)                 // time.Time
    | Null(kind: int)                // a nil pointer of an attribute kind (*string, *int, ...)
    | Nil                            // the untyped nil
    | IdList(ids: seq<string>)       // []string, the value of a to-many relationship
    | Float(f: real)                 // float64, what encoding/json makes of a JSON number
    | Composite(j: Json)             // []interface{} or map[string]interface{} from encoding/json

  /** The attribute kind of a non-pointer value, AttrTypeInvalid for the rest. */
  function KindOf(v: Value): (k: int)
    ensures k == AttrTypeInvalid || IsAttrType(k)
  {
    match v
    case Str(_) => AttrTypeString
    case Int(w, _) =>
      (match w
       case Native => AttrTypeInt
       case W8 => AttrTypeInt8
       case W16 => AttrTypeInt16
       case W32 => AttrTypeInt32
       case W64 => AttrTypeInt64)
    case Uint(w, _) =>
      (match w
       case Native => AttrTypeUint
       case W8 => AttrTypeUint8
       case W16 => AttrTypeUint16
       case W32 => AttrTypeUint32
       case W64 => AttrTypeUint64)
    case Bool(_) => AttrTypeBool
    case Stamp(_) => AttrTypeTime
    case _ => AttrTypeInvalid
  }
}
