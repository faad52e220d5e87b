/**
 * The filter query of filter_query.go: the condition tree, the evaluator
 * FilterResource with its per-kind comparison tables, and the JSON wire
 * shape of a condition (MarshalJSON / UnmarshalJSON).
 */
module Filters {
  import opened Wrappers
  import opened Values
  import opened Text

  /**
   * A condition. The Go field Val is an `interface{}`: a literal for the
   * comparisons, the child list for `and` and `or`.
   */
  datatype Condition = Condition(field: string, op: string, val: CondVal, col: string)

  datatype CondVal = Lit(v: Value) | Children(children: seq<Condition>)

  /** Go's `Condition{}`: every string empty, Val the untyped nil. */
  const ZeroCondition := Condition("", "", Lit(Nil), "")

  /** What a resource holds for a relationship: GetToOne's id or GetToMany's ids. */
  datatype RelValue = ToOne(id: string) | ToMany(ids: seq<string>)

  /** The view of a resource the evaluator uses: Attrs/Get and Rels/GetToOne/GetToMany. */
  datatype Resource = Resource(attrs: map<string, Value>, rels: map<string, RelValue>)

  /** The six comparison operators. */
  predicate IsComparison(op: string) {
    op == "=" || op == "!=" || op == "<" || op == "<=" || op == ">" || op == ">="
  }

  // ---------------------------------------------------------------------
  // The comparison tables

  function CheckStr(op: string, rval: string, cval: string): bool {
    if op == "=" then rval == cval
    else if op == "!=" then rval != cval
    else if op == "<" then Less(rval, cval)
    else if op == "<=" then !Less(cval, rval)
    else if op == ">" then Less(cval, rval)
    else if op == ">=" then !Less(rval, cval)
    else false
  }

  function CheckInt(op: string, rval: int, cval: int): bool {
    if op == "=" then rval == cval
    else if op == "!=" then rval != cval
    else if op == "<" then rval < cval
    else if op == "<=" then rval <= cval
    else if op == ">" then rval > cval
    else if op == ">=" then rval >= cval
    else false
  }

  function CheckUint(op: string, rval: nat, cval: nat): bool {
    if op == "=" then rval == cval
    else if op == "!=" then rval != cval
    else if op == "<" then rval < cval
    else if op == "<=" then rval <= cval
    else if op == ">" then rval > cval
    else if op == ">=" then rval >= cval
    else false
  }

  function CheckBool(op: string, rval: bool, cval: bool): bool {
    if op == "=" then rval == cval
    else if op == "!=" then rval != cval
    else false
  }

  /** checkTime as written: `>` is After or Equal, the same as `>=`. */
  function CheckTime(op: string, rval: Time, cval: Time): bool {
    if op == "=" then Equal(rval, cval)
    else if op == "!=" then !Equal(rval, cval)
    else if op == "<" then Before(rval, cval)
    else if op == "<=" then Before(rval, cval) || Equal(rval, cval)
    else if op == ">" then After(rval, cval) || Equal(rval, cval)
    else if op == ">=" then After(rval, cval) || Equal(rval, cval)
    else false
  }

  /** Exactly one of three facts holds. */
  predicate ExactlyOne(p: bool, q: bool, r: bool) {
    (p || q || r) && !(p && q) && !(p && r) && !(q && r)
  }

  /** The laws of an ordering table, for the comparison results of one pair of operands. */
  predicate OrderLaws(check: string -> bool, equal: bool) {
    && (check("=") <==> equal)
    && (check("!=") <==> !check("="))
    && ExactlyOne(check("<"), check("="), check(">"))
    && (check("<=") <==> check("<") || check("="))
    && (check(">=") <==> check(">") || check("="))
  }

  lemma CheckStrLaws(a: string, b: string)
    ensures OrderLaws(op => CheckStr(op, a, b), a == b)
    ensures CheckStr("<", a, b) <==> CheckStr(">", b, a)
    ensures forall op | !IsComparison(op) :: !CheckStr(op, a, b)
  {
    LessTrichotomy(a, b);
  }

  lemma CheckIntLaws(a: int, b: int)
    ensures OrderLaws(op => CheckInt(op, a, b), a == b)
    ensures CheckInt("<", a, b) <==> CheckInt(">", b, a)
    ensures forall op | !IsComparison(op) :: !CheckInt(op, a, b)
  {
  }

  lemma CheckUintLaws(a: nat, b: nat)
    ensures OrderLaws(op => CheckUint(op, a, b), a == b)
    ensures CheckUint("<", a, b) <==> CheckUint(">", b, a)
    ensures forall op | !IsComparison(op) :: !CheckUint(op, a, b)
  {
  }

  /** checkBool answers only `=` and `!=`, which are complements. */
  lemma CheckBoolLaws(a: bool, b: bool)
    ensures CheckBool("=", a, b) <==> a == b
    ensures CheckBool("!=", a, b) <==> !CheckBool("=", a, b)
    ensures forall op | op != "=" && op != "!=" :: !CheckBool(op, a, b)
  {
  }

  /**
   * In checkTime, `>` and `>=` give the same answer, so `<` and `>` can
   * hold together (on equal instants) and the ordering laws fail.
   */
  lemma CheckTimeGreaterIsAtLeast(a: Time, b: Time)
    ensures CheckTime(">", a, b) == CheckTime(">=", a, b)
    ensures CheckTime("=", a, b) <==> a.instant == b.instant
    ensures CheckTime(">", a, a) && CheckTime("=", a, a)
    ensures !ExactlyOne(CheckTime("<", a, a), CheckTime("=", a, a), CheckTime(">", a, a))
  {
  }

  /** The comparison checkTime evidently intends: `>` is After alone. */
  function CheckTimeIntended(op: string, rval: Time, cval: Time): bool {
    if op == ">" then After(rval, cval) else CheckTime(op, rval, cval)
  }

  lemma CheckTimeIntendedLaws(a: Time, b: Time)
    ensures OrderLaws(op => CheckTimeIntended(op, a, b), a.instant == b.instant)
    ensures CheckTimeIntended("<", a, b) <==> CheckTimeIntended(">", b, a)
    ensures forall op | !IsComparison(op) :: !CheckTimeIntended(op, a, b)
  {
  }

  /** The type assertions of checkVal succeed: cval has rval's dynamic type. */
  predicate SameKind(rval: Value, cval: Value) {
    match rval
    case Str(_) => cval.Str?
    case Int(w, _) => cval.Int? && cval.width == w
    case Uint(w, _) => cval.Uint? && cval.width == w
    case Bool(_) => cval.Bool?
    case Stamp(_) => cval.Stamp?
    case _ => true
  }

  /** checkVal: dispatch on the dynamic type of rval; false for any other type. */
  function CheckVal(op: string, rval: Value, cval: Value): bool
    requires SameKind(rval, cval)
  {
    match rval
    case Str(s) => CheckStr(op, s, cval.s)
    case Int(_, i) => CheckInt(op, i, cval.i)
    case Uint(_, u) => CheckUint(op, u, cval.u)
    case Bool(b) => CheckBool(op, b, cval.b)
    case Stamp(t) => CheckTime(op, t, cval.t)
    case _ => false
  }

  /** makeInt: the value of a signed integer of any width. */
  function MakeInt(v: Value): (r: (int, bool))
    ensures r.1 <==> KindOf(v) in {AttrTypeInt, AttrTypeInt8, AttrTypeInt16, AttrTypeInt32, AttrTypeInt64}
    ensures r.1 ==> Int(v.width, r.0) == v
    ensures !r.1 ==> r.0 == 0
  {
    match v
    case Int(_, i) => (i, true)
    case _ => (0, false)
  }

  /** makeUint: the value of an unsigned integer of any width. */
  function MakeUint(v: Value): (r: (nat, bool))
    ensures r.1 <==> KindOf(v) in {AttrTypeUint, AttrTypeUint8, AttrTypeUint16, AttrTypeUint32, AttrTypeUint64}
    ensures r.1 ==> Uint(v.width, r.0) == v
    ensures !r.1 ==> r.0 == 0
  {
    match v
    case Uint(_, u) => (u, true)
    case _ => (0, false)
  }

  /** On integers, checkVal compares what makeInt and makeUint extract. */
  lemma CheckValOnIntegers(op: string, a: Value, b: Value)
    requires SameKind(a, b) && (a.Int? || a.Uint?)
    ensures a.Int? ==> CheckVal(op, a, b) == CheckInt(op, MakeInt(a).0, MakeInt(b).0)
    ensures a.Uint? ==> CheckVal(op, a, b) == CheckUint(op, MakeUint(a).0, MakeUint(b).0)
  {
  }

  // ---------------------------------------------------------------------
  // The evaluator

  /** The operand of a leaf: the relationship value if the field is one, else the attribute, else nil. */
  function Operand(res: Resource, field: string): Value {
    if field in res.rels then
      match res.rels[field]
      case ToOne(id) => Str(id)
      case ToMany(ids) => IdList(ids)
    else if field in res.attrs then res.attrs[field]
    else Nil
  }

  /**
   * Go's `==` on two interfaces panics when both hold the same
   * uncomparable type: []string, or the []interface{} and
   * map[string]interface{} that encoding/json builds.
   */
  predicate Clash(a: Value, b: Value) {
    || (a.IdList? && b.IdList?)
    || (a.Composite? && b.Composite? && a.j.JArray? == b.j.JArray?)
  }

  /**
   * The conditions FilterResource evaluates without a runtime panic:
   * `and` and `or` hold a child list, and no comparison compares two
   * uncomparable values.
   */
  predicate Safe(res: Resource, cond: Condition)
    decreases cond
  {
    if cond.op == "and" || cond.op == "or" then
      cond.val.Children? && forall k | 0 <= k < |cond.val.children| :: Safe(res, cond.val.children[k])
    else
      !(IsComparison(cond.op) && cond.val.Lit? && Clash(Operand(res, cond.field), cond.val.v))
  }

  /** Whether res satisfies cond, as FilterResource computes it: the `and` and `or` loops are AndLoop and OrLoop. */
  function Satisfies(res: Resource, cond: Condition): bool
    requires Safe(res, cond)
    decreases cond, 1
  {
    if cond.op == "and" then AndLoop(res, cond, 0)
    else if cond.op == "or" then OrLoop(res, cond, 0)
    else if IsComparison(cond.op) then
      var val := Operand(res, cond.field);
      cond.val.Lit? && val == cond.val.v && CheckVal(cond.op, val, cond.val.v)
    else false
  }

  /** The `and` loop from child i on: return false at the first failing child; falling out of the loop also returns false. */
  function AndLoop(res: Resource, cond: Condition, i: nat): bool
    requires Safe(res, cond) && cond.op == "and" && i <= |cond.val.children|
    decreases cond, 0, |cond.val.children| - i
  {
    if i == |cond.val.children| then false
    else if !Satisfies(res, cond.val.children[i]) then false
    else AndLoop(res, cond, i + 1)
  }

  /** The `or` loop from child i on: true at the first child that matches, false past the last. */
  function OrLoop(res: Resource, cond: Condition, i: nat): bool
    requires Safe(res, cond) && cond.op == "or" && i <= |cond.val.children|
    decreases cond, 0, |cond.val.children| - i
  {
    if i == |cond.val.children| then false
    else if Satisfies(res, cond.val.children[i]) then true
    else OrLoop(res, cond, i + 1)
  }

  /**
   * FilterResource: the operand is looked up, then `and` returns false at
   * the first child that fails, `or` returns true at the first child that
   * matches, a comparison needs the operand identical to its value, and
   * everything else falls through to false.
   */
  method FilterResource(res: Resource, cond: Condition) returns (matched: bool)
    requires Safe(res, cond)
    ensures matched == Satisfies(res, cond)
    decreases cond
  {
    var val := Operand(res, cond.field);
    if cond.op == "and" {
      var conds := cond.val.children;
      for i := 0 to |conds|
        invariant AndLoop(res, cond, 0) == AndLoop(res, cond, i)
      {
        var ok := FilterResource(res, conds[i]);
        if !ok {
          return false;
        }
      }
    } else if cond.op == "or" {
      var conds := cond.val.children;
      for i := 0 to |conds|
        invariant OrLoop(res, cond, 0) == OrLoop(res, cond, i)
      {
        var ok := FilterResource(res, conds[i]);
        if ok {
          return true;
        }
      }
    } else if IsComparison(cond.op) {
      if cond.val.Lit? && val == cond.val.v {
        return CheckVal(cond.op, val, cond.val.v);
      }
    }
    return false;
  }

  lemma {:induction false} AndLoopFalse(res: Resource, cond: Condition, i: nat)
    requires Safe(res, cond) && cond.op == "and" && i <= |cond.val.children|
    ensures !AndLoop(res, cond, i)
    decreases |cond.val.children| - i
  {
    if i < |cond.val.children| && Satisfies(res, cond.val.children[i]) {
      AndLoopFalse(res, cond, i + 1);
    }
  }

  /** `and` never matches, whatever its children, the empty list included. */
  lemma AndNeverMatches(res: Resource, cond: Condition)
    requires Safe(res, cond) && cond.op == "and"
    ensures !Satisfies(res, cond)
  {
    AndLoopFalse(res, cond, 0);
  }

  lemma {:induction false} OrLoopIff(res: Resource, cond: Condition, i: nat)
    requires Safe(res, cond) && cond.op == "or" && i <= |cond.val.children|
    ensures OrLoop(res, cond, i) <==>
              exists k | i <= k < |cond.val.children| :: Satisfies(res, cond.val.children[k])
    decreases |cond.val.children| - i
  {
    if i < |cond.val.children| {
      OrLoopIff(res, cond, i + 1);
    }
  }

  /** `or` matches exactly when some child matches, so the empty `or` never does. */
  lemma OrMatchesIff(res: Resource, cond: Condition)
    requires Safe(res, cond) && cond.op == "or"
    ensures Satisfies(res, cond) <==>
              exists k | 0 <= k < |cond.val.children| :: Satisfies(res, cond.val.children[k])
    ensures cond.val.children == [] ==> !Satisfies(res, cond)
  {
    OrLoopIff(res, cond, 0);
  }

  /** A comparison matches only when its literal is identical to the operand: same type and same value. */
  lemma LeafNeedsIdentity(res: Resource, cond: Condition)
    requires Safe(res, cond) && IsComparison(cond.op) && Satisfies(res, cond)
    ensures cond.val == Lit(Operand(res, cond.field))
  {
  }

  /** What a comparison of a value with itself answers, kind by kind. */
  function MatchesItself(op: string, v: Value): bool {
    match v
    case Str(_) => op == "=" || op == "<=" || op == ">="
    case Int(_, _) => op == "=" || op == "<=" || op == ">="
    case Uint(_, _) => op == "=" || op == "<=" || op == ">="
    case Bool(_) => op == "="
    case Stamp(_) => op == "=" || op == "<=" || op == ">" || op == ">="
    case _ => false
  }

  /** On an operand identical to the literal, a comparison answers as MatchesItself says. */
  lemma LeafOnIdentical(res: Resource, cond: Condition)
    requires IsComparison(cond.op) && cond.val == Lit(Operand(res, cond.field))
    requires !Clash(cond.val.v, cond.val.v)
    ensures Safe(res, cond)
    ensures Satisfies(res, cond) == MatchesItself(cond.op, cond.val.v)
  {
    var v := cond.val.v;
    if v.Str? {
      LessIrreflexive(v.s);
    }
  }

  /** Hence `!=` never matches. */
  lemma NotEqualNeverMatches(res: Resource, cond: Condition)
    requires Safe(res, cond) && cond.op == "!="
    ensures !Satisfies(res, cond)
  {
    if cond.val == Lit(Operand(res, cond.field)) {
      LeafOnIdentical(res, cond);
    }
  }

  /** A literal of another kind (or another integer width) than the operand never matches, `!=` included. */
  lemma CrossKindNeverMatches(res: Resource, cond: Condition)
    requires Safe(res, cond) && IsComparison(cond.op) && cond.val.Lit?
    requires !SameKind(Operand(res, cond.field), cond.val.v)
    ensures !Satisfies(res, cond)
  {
  }

  /** An operator other than the eight gives false. */
  lemma UnknownOpNeverMatches(res: Resource, cond: Condition)
    requires !IsComparison(cond.op) && cond.op != "and" && cond.op != "or"
    ensures Safe(res, cond) && !Satisfies(res, cond)
  {
  }

  /** A field that is neither an attribute nor a relationship gives false. */
  lemma UnknownFieldNeverMatches(res: Resource, cond: Condition)
    requires IsComparison(cond.op) && cond.field !in res.attrs && cond.field !in res.rels
    ensures Safe(res, cond) && !Satisfies(res, cond)
  {
  }

  /** When a field is both an attribute and a relationship, the attribute is never consulted. */
  lemma RelationshipWins(res: Resource, cond: Condition, a: Value)
    requires Safe(res, cond) && IsComparison(cond.op) && cond.field in res.rels
    ensures var other := res.(attrs := res.attrs[cond.field := a]);
            Safe(other, cond) && Satisfies(other, cond) == Satisfies(res, cond)
  {
  }

  /** A to-one relationship compares as its id, a string. */
  lemma ToOneMatchesId(res: Resource, cond: Condition)
    requires cond.field in res.rels && res.rels[cond.field].ToOne?
    requires cond.op in {"=", "<=", ">="} && cond.val == Lit(Str(res.rels[cond.field].id))
    ensures Safe(res, cond) && Satisfies(res, cond)
  {
    LessIrreflexive(res.rels[cond.field].id);
  }

  /** A to-many relationship never matches: its operand can only be identical to a literal by panicking. */
  lemma ToManyNeverMatches(res: Resource, cond: Condition)
    requires Safe(res, cond) && IsComparison(cond.op)
    requires cond.field in res.rels && res.rels[cond.field].ToMany?
    ensures !Satisfies(res, cond)
  {
  }

  /** Two times at the same instant in different zones are Equal, yet `=` between them fails. */
  lemma SameInstantOtherZone(res: Resource, cond: Condition, t: Time, u: Time)
    requires cond.op == "=" && cond.field in res.attrs && cond.field !in res.rels
    requires res.attrs[cond.field] == Stamp(t) && cond.val == Lit(Stamp(u))
    requires t.instant == u.instant && t.zone != u.zone
    ensures CheckTime("=", t, u)
    ensures Safe(res, cond) && !Satisfies(res, cond)
  {
  }

  // ---------------------------------------------------------------------
  // The evaluator as evidently intended

  /** `and` and `or` hold a child list, all the way down. */
  predicate Shaped(cond: Condition)
    decreases cond
  {
    (cond.op == "and" || cond.op == "or") ==>
      cond.val.Children? && forall k | 0 <= k < |cond.val.children| :: Shaped(cond.val.children[k])
  }

  /** checkVal with the intended checkTime. */
  function CheckValIntended(op: string, rval: Value, cval: Value): bool
    requires SameKind(rval, cval)
  {
    if rval.Stamp? then CheckTimeIntended(op, rval.t, cval.t) else CheckVal(op, rval, cval)
  }

  /**
   * The evaluator the source evidently intends: `and` is the conjunction
   * of its children, and a comparison compares values of the same kind
   * instead of requiring them to be identical.
   */
  function Matches(res: Resource, cond: Condition): bool
    requires Shaped(cond)
    decreases cond
  {
    if cond.op == "and" then
      forall k | 0 <= k < |cond.val.children| :: Matches(res, cond.val.children[k])
    else if cond.op == "or" then
      exists k | 0 <= k < |cond.val.children| :: Matches(res, cond.val.children[k])
    else if IsComparison(cond.op) then
      var val := Operand(res, cond.field);
      cond.val.Lit? && SameKind(val, cond.val.v) && CheckValIntended(cond.op, val, cond.val.v)
    else false
  }

  /** The empty `and` matches every resource; the empty `or` matches none. */
  lemma MatchesEmpty(res: Resource, cond: Condition)
    requires (cond.op == "and" || cond.op == "or") && cond.val == Children([])
    ensures Shaped(cond)
    ensures Matches(res, cond) <==> cond.op == "and"
  {
  }

  /** Under Matches, a literal of another kind never matches, `!=` included. */
  lemma MatchesCrossKind(res: Resource, cond: Condition)
    requires IsComparison(cond.op) && cond.val.Lit? && !SameKind(Operand(res, cond.field), cond.val.v)
    ensures Shaped(cond) && !Matches(res, cond)
  {
  }

  /**
   * Matches and FilterResource agree on an operand identical to the
   * literal, except for time `>`; they differ in nothing else at a leaf.
   */
  lemma MatchesAgreesOnIdentical(res: Resource, cond: Condition)
    requires IsComparison(cond.op) && cond.val == Lit(Operand(res, cond.field))
    requires !Clash(cond.val.v, cond.val.v)
    requires !(cond.op == ">" && cond.val.v.Stamp?)
    ensures Safe(res, cond) && Shaped(cond)
    ensures Satisfies(res, cond) == Matches(res, cond)
  {
    LeafOnIdentical(res, cond);
    var v := cond.val.v;
    if v.Str? {
      LessIrreflexive(v.s);
    }
  }

  /** A resource with an int32 attribute `age`. */
  function Aged(age: int): Resource {
    Resource(map["age" := Int(W32, age)], map[])
  }

  function AgeAtLeast(n: int): Condition {
    Condition("age", ">=", Lit(Int(W32, n)), "")
  }

  function AgeBetween(lo: int, hi: int): Condition {
    Condition("", "and", Children([AgeAtLeast(lo), Condition("age", "<", Lit(Int(W32, hi)), "")]), "")
  }

  /** As written, age 30 does not satisfy `age >= 18`, nor `18 <= age < 65`. */
  lemma AgeExampleAsWritten()
    ensures Safe(Aged(30), AgeAtLeast(18)) && !Satisfies(Aged(30), AgeAtLeast(18))
    ensures Safe(Aged(30), AgeBetween(18, 65)) && !Satisfies(Aged(30), AgeBetween(18, 65))
  {
    AndNeverMatches(Aged(30), AgeBetween(18, 65));
  }

  /** As intended, age 30 satisfies both; age 70 fails the range. */
  lemma AgeExampleIntended()
    ensures Shaped(AgeAtLeast(18)) && Matches(Aged(30), AgeAtLeast(18))
    ensures Shaped(AgeBetween(18, 65)) && Matches(Aged(30), AgeBetween(18, 65))
    ensures !Matches(Aged(70), AgeBetween(18, 65))
  {
    var c := AgeBetween(18, 65);
    assert Matches(Aged(30), c.val.children[0]) && Matches(Aged(30), c.val.children[1]);
    assert !Matches(Aged(70), c.val.children[1]);
  }

  // ---------------------------------------------------------------------
  // The wire shape

  /** json.Marshal of a literal; time.Time is written by its own MarshalJSON, a parameter here. */
  function EncodeValue(v: Value, formatTime: Time -> string): Json {
    match v
    case Str(s) => JString(s)
    case Int(_, i) => JNumber(i as real)
    case Uint(_, u) => JNumber(u as real)
    case Bool(b) => JBool(b)
    case Stamp(t) => JString(formatTime(t))
    case Null(_) => JNull
    case Nil => JNull
    case IdList(ids) => JArray(seq(|ids|, k requires 0 <= k < |ids| => JString(ids[k])))
    case Float(f) => JNumber(f)
    case Composite(j) => j
  }

  /** MarshalJSON: `v` always, `f`, `o` and `c` only when not empty. */
  function Encode(c: Condition, formatTime: Time -> string): (j: Json)
    decreases c, 2
  {
    var payload := map["v" := EncodeVal(c.val, formatTime)];
    var payload := if c.field != "" then payload["f" := JString(c.field)] else payload;
    var payload := if c.op != "" then payload["o" := JString(c.op)] else payload;
    var payload := if c.col != "" then payload["c" := JString(c.col)] else payload;
    JObject(payload)
  }

  /** The `v` member: the literal, or the children each through MarshalJSON. */
  function EncodeVal(val: CondVal, formatTime: Time -> string): Json
    decreases val, 1
  {
    match val
    case Lit(v) => EncodeValue(v, formatTime)
    case Children(cs) => JArray(EncodeList(cs, formatTime))
  }

  function EncodeList(cs: seq<Condition>, formatTime: Time -> string): (js: seq<Json>)
    ensures |js| == |cs|
    decreases cs, 0
  {
    if cs == [] then []
    else EncodeList(cs[..|cs| - 1], formatTime) + [Encode(cs[|cs| - 1], formatTime)]
  }

  /** Element k of the encoded list is condition k, encoded. */
  lemma {:induction false} EncodeListAt(cs: seq<Condition>, formatTime: Time -> string, k: nat)
    requires k < |cs|
    ensures EncodeList(cs, formatTime)[k] == Encode(cs[k], formatTime)
    decreases |cs|
  {
    if k < |cs| - 1 {
      EncodeListAt(cs[..|cs| - 1], formatTime, k);
    }
  }

  /** The keys MarshalJSON writes. */
  lemma EncodeKeys(c: Condition, formatTime: Time -> string)
    ensures Encode(c, formatTime).JObject?
    ensures "v" in Encode(c, formatTime).members
    ensures "f" in Encode(c, formatTime).members <==> c.field != ""
    ensures "o" in Encode(c, formatTime).members <==> c.op != ""
    ensures "c" in Encode(c, formatTime).members <==> c.col != ""
    ensures Encode(c, formatTime).members.Keys <= {"f", "o", "v", "c"}
  {
  }

  /** MarshalJSON builds the payload map one key at a time. */
  method MarshalJSON(c: Condition, formatTime: Time -> string) returns (j: Json)
    ensures j == Encode(c, formatTime)
  {
    var payload: map<string, Json> := map[];
    if c.field != "" {
      payload := payload["f" := JString(c.field)];
    }
    if c.op != "" {
      payload := payload["o" := JString(c.op)];
    }
    payload := payload["v" := EncodeVal(c.val, formatTime)];
    if c.col != "" {
      payload := payload["c" := JString(c.col)];
    }
    j := JObject(payload);
  }

  /** How encoding/json fails: a value of the wrong JSON type, or no data at all. */
  datatype DecodeError = TypeMismatch | EndOfInput

  /** The receiver after UnmarshalJSON, and its error. */
  datatype Decoded = Decoded(cond: Condition, err: Option<DecodeError>)

  /** Go's internal `cnd`: the strings, and `v` kept as raw JSON (None when absent). */
  datatype Cnd = Cnd(field: string, op: string, v: Option<Json>, col: string)

  /** A string member of the object: "" when absent or null. */
  function StringMember(m: map<string, Json>, key: string): Result<string, DecodeError> {
    if key !in m then Ok("")
    else match m[key]
      case JNull => Ok("")
      case JString(s) => Ok(s)
      case _ => Err(TypeMismatch)
  }

  /** json.Unmarshal into a `cnd`: null leaves it empty, anything but an object is a type error. */
  function ParseCnd(data: Json): Result<Cnd, DecodeError> {
    match data
    case JNull => Ok(Cnd("", "", None, ""))
    case JObject(m) =>
      var f, o, c := StringMember(m, "f"), StringMember(m, "o"), StringMember(m, "c");
      if f.Err? then Err(f.error)
      else if o.Err? then Err(o.error)
      else if c.Err? then Err(c.error)
      else Ok(Cnd(f.value, o.value, if "v" in m then Some(m["v"]) else None, c.value))
    case _ => Err(TypeMismatch)
  }

  /** json.Unmarshal into an `interface{}`: numbers become float64, arrays and objects stay composite. */
  function DecodeLiteral(j: Json): (v: Value)
    ensures KindOf(v) == AttrTypeInvalid || v.Str? || v.Bool?
    ensures IsDecodedLiteral(v)
  {
    match j
    case JNull => Nil
    case JBool(b) => Bool(b)
    case JNumber(n) => Float(n)
    case JString(s) => Str(s)
    case _ => Composite(j)
  }

  /**
   * UnmarshalJSON on receiver prev: copy `f`, `o` and `c`; for `and`/`or`
   * clear the field and decode `v` as a list of conditions, for a
   * comparison decode `v` as a literal, for any other operator leave Val
   * alone. An error in `v` leaves the copied strings in place.
   */
  function Decode(prev: Condition, data: Json): Decoded
    decreases data, 1
  {
    var tmp := ParseCnd(data);
    if tmp.Err? then Decoded(prev, Some(tmp.error))
    else
      var t := tmp.value;
      var c := Condition(t.field, t.op, prev.val, t.col);
      if t.op == "and" || t.op == "or" then
        var c := c.(field := "");
        match t.v
        case None => Decoded(c, Some(EndOfInput))
        case Some(JNull) => Decoded(c.(val := Children([])), None)
        case Some(JArray(items)) =>
          var cs := DecodeList(items);
          if cs.Err? then Decoded(c, Some(cs.error)) else Decoded(c.(val := Children(cs.value)), None)
        case Some(_) => Decoded(c, Some(TypeMismatch))
      else if IsComparison(t.op) then
        match t.v
        case None => Decoded(c, Some(EndOfInput))
        case Some(j) => Decoded(c.(val := Lit(DecodeLiteral(j))), None)
      else Decoded(c, None)
  }

  /** json.Unmarshal into a []Condition: each element through UnmarshalJSON on a zero Condition; the first error stops it. */
  function DecodeList(items: seq<Json>): (r: Result<seq<Condition>, DecodeError>)
    ensures r.Ok? ==> |r.value| == |items|
    decreases items, 0
  {
    if items == [] then Ok([])
    else
      var init := DecodeList(items[..|items| - 1]);
      var last := Decode(ZeroCondition, items[|items| - 1]);
      if init.Err? then init
      else if last.err.Some? then Err(last.err.value)
      else Ok(init.value + [last.cond])
  }

  /** A list that decodes has, at each position, what UnmarshalJSON makes of that element on a zero Condition. */
  lemma {:induction false} DecodeListAt(items: seq<Json>, k: nat)
    requires DecodeList(items).Ok? && k < |items|
    ensures Decode(ZeroCondition, items[k]) == Decoded(DecodeList(items).value[k], None)
    decreases |items|
  {
    if k < |items| - 1 {
      DecodeListAt(items[..|items| - 1], k);
      assert items[..|items| - 1][k] == items[k];
    }
  }

  /** UnmarshalJSON, filling the receiver field by field. */
  method UnmarshalJSON(c: Condition, data: Json) returns (r: Condition, err: Option<DecodeError>)
    ensures Decoded(r, err) == Decode(c, data)
    decreases data
  {
    var tmpCnd := ParseCnd(data);
    if tmpCnd.Err? {
      return c, Some(tmpCnd.error);
    }
    var t := tmpCnd.value;
    r := c;
    r := r.(field := t.field);
    r := r.(op := t.op);
    r := r.(col := t.col);
    if t.op == "and" || t.op == "or" {
      r := r.(field := "");
      if t.v.None? {
        return r, Some(EndOfInput);
      }
      var raw := t.v.value;
      if raw.JNull? {
        r := r.(val := Children([]));
      } else if raw.JArray? {
        var cnds: seq<Condition> := [];
        for i := 0 to |raw.items|
          invariant DecodeList(raw.items[..i]) == Ok(cnds)
        {
          assert raw.items[..i + 1][..i] == raw.items[..i];
          var el, elErr := UnmarshalJSON(ZeroCondition, raw.items[i]);
          if elErr.Some? {
            assert DecodeList(raw.items[..i + 1]).Err?;
            FirstErrorStops(raw.items, i + 1);
            return r, elErr;
          }
          cnds := cnds + [el];
        }
        assert raw.items[..|raw.items|] == raw.items;
        r := r.(val := Children(cnds));
      } else {
        return r, Some(TypeMismatch);
      }
    } else if IsComparison(t.op) {
      if t.v.None? {
        return r, Some(EndOfInput);
      }
      r := r.(val := Lit(DecodeLiteral(t.v.value)));
    }
    return r, None;
  }

  /** Once a prefix of the list fails to decode, the whole list fails with the same error. */
  lemma {:induction false} FirstErrorStops(items: seq<Json>, n: nat)
    requires n <= |items| && DecodeList(items[..n]).Err?
    ensures DecodeList(items) == DecodeList(items[..n])
    decreases |items| - n
  {
    if n < |items| {
      assert items[..n + 1][..n] == items[..n];
      FirstErrorStops(items, n + 1);
    } else {
      assert items[..n] == items;
    }
  }

  /** The literals UnmarshalJSON can produce. */
  predicate IsDecodedLiteral(v: Value) {
    v.Nil? || v.Bool? || v.Float? || v.Str? || (v.Composite? && (v.j.JArray? || v.j.JObject?))
  }

  /**
   * The conditions that survive MarshalJSON then UnmarshalJSON: `and`/`or`
   * nodes have no field and a child list, comparisons hold a literal
   * UnmarshalJSON produces, and any other operator keeps the receiver's
   * Val (untouched), which for a child is the untyped nil.
   */
  predicate WireForm(c: Condition, untouched: CondVal)
    decreases c
  {
    if c.op == "and" || c.op == "or" then
      c.field == "" && c.val.Children?
      && forall k | 0 <= k < |c.val.children| :: WireForm(c.val.children[k], ZeroCondition.val)
    else if IsComparison(c.op) then c.val.Lit? && IsDecodedLiteral(c.val.v)
    else c.val == untouched
  }

  /** The `cnd` read back from what MarshalJSON writes holds the condition's strings and its encoded Val. */
  lemma ParseEncoded(c: Condition, formatTime: Time -> string)
    ensures ParseCnd(Encode(c, formatTime)) == Ok(Cnd(c.field, c.op, Some(EncodeVal(c.val, formatTime)), c.col))
  {
    var m := Encode(c, formatTime).members;
    assert StringMember(m, "f") == Ok(c.field);
    assert StringMember(m, "o") == Ok(c.op);
    assert StringMember(m, "c") == Ok(c.col);
  }

  /** Decoding what MarshalJSON writes gives the condition back. */
  lemma {:induction false} RoundTrip(prev: Condition, c: Condition, formatTime: Time -> string)
    requires WireForm(c, prev.val)
    ensures Decode(prev, Encode(c, formatTime)) == Decoded(c, None)
    decreases c, 1
  {
    ParseEncoded(c, formatTime);
    if c.op == "and" || c.op == "or" {
      RoundTripList(c.val.children, formatTime);
      assert EncodeVal(c.val, formatTime) == JArray(EncodeList(c.val.children, formatTime));
    } else if IsComparison(c.op) {
      LiteralRoundTrip(c.val.v, formatTime);
    }
  }

  /** A literal of a kind encoding/json produces reads back as itself. */
  lemma LiteralRoundTrip(v: Value, formatTime: Time -> string)
    requires IsDecodedLiteral(v)
    ensures DecodeLiteral(EncodeValue(v, formatTime)) == v
  {
  }

  lemma {:induction false} RoundTripList(cs: seq<Condition>, formatTime: Time -> string)
    requires forall k | 0 <= k < |cs| :: WireForm(cs[k], ZeroCondition.val)
    ensures DecodeList(EncodeList(cs, formatTime)) == Ok(cs)
    decreases cs, 0
  {
    if cs != [] {
      var init, last := cs[..|cs| - 1], cs[|cs| - 1];
      assert init + [last] == cs;
      assert forall k | 0 <= k < |init| :: init[k] == cs[k];
      var items := EncodeList(cs, formatTime);
      EncodeListSnoc(cs, formatTime);
      RoundTripList(init, formatTime);
      RoundTrip(ZeroCondition, last, formatTime);
      DecodeListSnoc(items, init, last);
    }
  }

  /** The encoded list is the encoded prefix followed by the last condition, encoded. */
  lemma EncodeListSnoc(cs: seq<Condition>, formatTime: Time -> string)
    requires cs != []
    ensures EncodeList(cs, formatTime)[..|cs| - 1] == EncodeList(cs[..|cs| - 1], formatTime)
    ensures EncodeList(cs, formatTime)[|cs| - 1] == Encode(cs[|cs| - 1], formatTime)
  {
  }

  /** A list decodes to init plus last when its prefix decodes to init and its last element to last. */
  lemma DecodeListSnoc(items: seq<Json>, init: seq<Condition>, last: Condition)
    requires items != []
    requires DecodeList(items[..|items| - 1]) == Ok(init)
    requires Decode(ZeroCondition, items[|items| - 1]) == Decoded(last, None)
    ensures DecodeList(items) == Ok(init + [last])
  {
  }

  /** An integer literal does not survive the wire: it comes back as a float64. */
  lemma IntegerLiteralComesBackFloat(prev: Condition, c: Condition, formatTime: Time -> string)
    requires IsComparison(c.op) && c.val.Lit? && (c.val.v.Int? || c.val.v.Uint?)
    ensures var d := Decode(prev, Encode(c, formatTime));
            d.err == None && d.cond.val == Lit(Float(if c.val.v.Int? then c.val.v.i as real else c.val.v.u as real))
  {
    ParseEncoded(c, formatTime);
  }

  /** No attribute of a schema kind, nil pointer or relationship equals a float64. */
  predicate TypedAttrs(res: Resource) {
    forall k | k in res.attrs :: KindOf(res.attrs[k]) != AttrTypeInvalid || res.attrs[k].Null?
  }

  /** A comparison with a number on the wire never matches a resource whose attributes have schema kinds. */
  lemma WireNumberNeverMatches(res: Resource, prev: Condition, m: map<string, Json>, n: real)
    requires TypedAttrs(res)
    requires "v" in m && m["v"] == JNumber(n)
    requires Decode(prev, JObject(m)).err == None && IsComparison(Decode(prev, JObject(m)).cond.op)
    ensures var c := Decode(prev, JObject(m)).cond;
            c.val == Lit(Float(n)) && Safe(res, c) && !Satisfies(res, c)
  {
    var c := Decode(prev, JObject(m)).cond;
    if c.field in res.attrs && c.field !in res.rels {
      assert KindOf(res.attrs[c.field]) != AttrTypeInvalid || res.attrs[c.field].Null?;
    }
  }
}
