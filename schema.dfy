/**
 * The schema catalogue of schema.go: an ordered list of types kept unique
 * by name, the operations that maintain it, the integrity check of the
 * relationships between its types, and the encoding of attribute kinds
 * as Go type names.
 */
module Schemas {
  import opened Wrappers
  import opened Values
  import opened Text
  import opened Unordered

  /** An attribute: its name, kind (one of the AttrType constants) and whether it can be null. */
  datatype Attr = Attr(name: string, typ: int, nullable: bool)

  /**
   * A relationship: its name, the name of the type it points to, whether
   * it is to-one, and the relationship on the target type that is its
   * inverse (name, owning type and whether that one is to-one).
   */
  datatype Rel = Rel(
    name: string,
    target: string,
    toOne: bool,
    inverseName: string,
    inverseType: string,
    inverseToOne: bool)

  /** A resource type: its name, attributes and relationships, each by name. */
  datatype Type = Type(name: string, attrs: map<string, Attr>, rels: map<string, Rel>)

  /** Go's `Type{}`. */
  const ZeroType := Type("", map[], map[])

  /** The errors Schema's operations report, by kind and arguments. */
  datatype SchemaError =
    | EmptyTypeName                     // "type name is empty"
    | TypeNameUsed(name: string)        // "type name %s is already used"
    | TypeNotFound(name: string)        // "type %s does not exist"
    | TypeRefused(reason: string)       // an error of a per-type operation
    | TargetMissing(rel: string, owner: string)
    | InverseTypeWrong(rel: string, owner: string, inverseType: string)
    | InverseNotMutual(rel: string, owner: string)

  /** What a per-type operation (Type.AddAttr and friends) leaves behind: the updated type and its error. */
  datatype TypeChange = TypeChange(typ: Type, err: Option<SchemaError>)

  // ---------------------------------------------------------------------
  // Attribute kinds and Go type names

  /** The Go type name of each attribute kind, "" for any other number. */
  function KindName(t: int): string {
    if t == AttrTypeString then "string"
    else if t == AttrTypeInt then "int"
    else if t == AttrTypeInt8 then "int8"
    else if t == AttrTypeInt16 then "int16"
    else if t == AttrTypeInt32 then "int32"
    else if t == AttrTypeInt64 then "int64"
    else if t == AttrTypeUint then "uint"
    else if t == AttrTypeUint8 then "uint8"
    else if t == AttrTypeUint16 then "uint16"
    else if t == AttrTypeUint32 then "uint32"
    else if t == AttrTypeUint64 then "uint64"
    else if t == AttrTypeBool then "bool"
    else if t == AttrTypeTime then "time.Time"
    else ""
  }

  /**
   * GetAttrType: the kind named by a Go type name and whether a `*`
   * prefix makes it nullable; (AttrTypeInvalid, false) for any other name.
   */
  function GetAttrType(t: string): (r: (int, bool))
    ensures r.0 == AttrTypeInvalid || IsAttrType(r.0)
    ensures r.0 == AttrTypeInvalid ==> !r.1
    ensures r.1 <==> r.0 != AttrTypeInvalid && HasPrefix(t, "*")
  {
    var nullable := HasPrefix(t, "*");
    var t := if nullable then t[1..] else t;
    if t == "string" then (AttrTypeString, nullable)
    else if t == "int" then (AttrTypeInt, nullable)
    else if t == "int8" then (AttrTypeInt8, nullable)
    else if t == "int16" then (AttrTypeInt16, nullable)
    else if t == "int32" then (AttrTypeInt32, nullable)
    else if t == "int64" then (AttrTypeInt64, nullable)
    else if t == "uint" then (AttrTypeUint, nullable)
    else if t == "uint8" then (AttrTypeUint8, nullable)
    else if t == "uint16" then (AttrTypeUint16, nullable)
    else if t == "uint32" then (AttrTypeUint32, nullable)
    else if t == "uint64" then (AttrTypeUint64, nullable)
    else if t == "bool" then (AttrTypeBool, nullable)
    else if t == "time.Time" then (AttrTypeTime, nullable)
    else (AttrTypeInvalid, false)
  }

  /** GetAttrTypeString: the Go type name of a kind, with `*` in front when nullable. */
  function GetAttrTypeString(t: int, nullable: bool): (s: string)
    ensures IsAttrType(t) <==> |s| > (if nullable then 1 else 0)
  {
    var str := KindName(t);
    if nullable then "*" + str else str
  }

  /** Decoding the name of a kind gives back the kind and its nullability. */
  lemma AttrTypeRoundTrip(t: int, nullable: bool)
    requires IsAttrType(t)
    ensures GetAttrType(GetAttrTypeString(t, nullable)) == (t, nullable)
  {
    var s := GetAttrTypeString(t, nullable);
    if nullable {
      assert s[1..] == KindName(t);
    } else {
      assert !HasPrefix(s, "*") by {
        assert s[0] != '*';
      }
    }
  }

  /** Every name GetAttrType recognises is the name of the kind it returns. */
  lemma AttrTypeStringRoundTrip(s: string)
    requires GetAttrType(s).0 != AttrTypeInvalid
    ensures GetAttrTypeString(GetAttrType(s).0, GetAttrType(s).1) == s
  {
    if HasPrefix(s, "*") {
      assert s == "*" + s[1..];
    }
  }

  /** A `*` in front of an unrecognised name does not make it recognised. */
  lemma StarOfUnknownIsInvalid(s: string)
    requires GetAttrType(s).0 == AttrTypeInvalid
    ensures GetAttrType("*" + s) == (AttrTypeInvalid, false)
  {
    assert ("*" + s)[1..] == s;
    if HasPrefix(s, "*") {
      assert s[0] == '*';
    }
  }

  /** Go's `time.Time{}`: instant 0 of the model, with the nil location. */
  const ZeroTime := Time(0, "")

  /**
   * GetZeroValue: a nil pointer of the kind when null is set, the zero
   * value of the kind otherwise, and the untyped nil for an unknown kind.
   */
  function GetZeroValue(t: int, isNull: bool): (v: Value)
    ensures IsAttrType(t) && isNull ==> v == Null(t)
    ensures IsAttrType(t) && !isNull ==> KindOf(v) == t
    ensures v.Str? ==> v.s == ""
    ensures v.Int? ==> v.i == 0
    ensures v.Uint? ==> v.u == 0
    ensures v.Bool? ==> !v.b
    ensures v.Stamp? ==> v.t == ZeroTime
    ensures !IsAttrType(t) ==> v == Nil
  {
    if !IsAttrType(t) then Nil
    else if isNull then Null(t)
    else if t == AttrTypeString then Str("")
    else if t == AttrTypeInt then Int(Native, 0)
    else if t == AttrTypeInt8 then Int(W8, 0)
    else if t == AttrTypeInt16 then Int(W16, 0)
    else if t == AttrTypeInt32 then Int(W32, 0)
    else if t == AttrTypeInt64 then Int(W64, 0)
    else if t == AttrTypeUint then Uint(Native, 0)
    else if t == AttrTypeUint8 then Uint(W8, 0)
    else if t == AttrTypeUint16 then Uint(W16, 0)
    else if t == AttrTypeUint32 then Uint(W32, 0)
    else if t == AttrTypeUint64 then Uint(W64, 0)
    else if t == AttrTypeBool then Bool(false)
    else Stamp(ZeroTime)
  }

  // ---------------------------------------------------------------------
  // Lookup by name

  /** Some type in ts is called name. */
  predicate HasName(ts: seq<Type>, name: string) {
    exists i | 0 <= i < |ts| :: ts[i].name == name
  }

  /** No two types in ts share a name. */
  predicate UniqueNames(ts: seq<Type>) {
    forall i, j | 0 <= i < j < |ts| :: ts[i].name != ts[j].name
  }

  /** The index of the first type called name. */
  function FirstIndex(ts: seq<Type>, name: string): (i: nat)
    requires HasName(ts, name)
    ensures i < |ts| && ts[i].name == name
    ensures forall j | 0 <= j < i :: ts[j].name != name
    decreases |ts|
  {
    if ts[0].name == name then 0
    else
      assert exists i | 1 <= i < |ts| :: ts[i].name == name;
      var k :| 1 <= k < |ts| && ts[k].name == name;
      assert ts[1..][k - 1].name == name;
      1 + FirstIndex(ts[1..], name)
  }

  /** What GetType finds: the first type called name, or the zero type. */
  function Lookup(ts: seq<Type>, name: string): Type {
    if HasName(ts, name) then ts[FirstIndex(ts, name)] else ZeroType
  }

  /** In a list with unique names, the type at index i is the one found under its name. */
  lemma LookupUnique(ts: seq<Type>, i: nat)
    requires UniqueNames(ts) && i < |ts|
    ensures HasName(ts, ts[i].name) && Lookup(ts, ts[i].name) == ts[i]
  {
    var k := FirstIndex(ts, ts[i].name);
    assert k == i;
  }

  // ---------------------------------------------------------------------
  // Removal

  /** The list without the types called name, the others in their order. */
  function Removed(ts: seq<Type>, name: string): (r: seq<Type>)
    ensures !HasName(r, name)
    ensures |r| <= |ts|
    ensures forall t :: t in r <==> t in ts && t.name != name
    decreases |ts|
  {
    if ts == [] then []
    else
      var rest := Removed(ts[1..], name);
      assert forall t :: t in ts <==> t == ts[0] || t in ts[1..];
      (if ts[0].name == name then [] else [ts[0]]) + rest
  }

  /** The tail of a list with unique names has unique names. */
  lemma UniqueTail(ts: seq<Type>)
    requires UniqueNames(ts) && ts != []
    ensures UniqueNames(ts[1..])
  {
    forall j, k | 0 <= j < k < |ts[1..]| ensures ts[1..][j].name != ts[1..][k].name {
      assert ts[1..][j] == ts[j + 1] && ts[1..][k] == ts[k + 1];
    }
  }

  /** With unique names, Removed cuts out the one type called name and keeps the rest in order. */
  lemma {:induction false} RemovedUnique(ts: seq<Type>, i: nat)
    requires UniqueNames(ts) && i < |ts|
    ensures Removed(ts, ts[i].name) == ts[..i] + ts[i + 1..]
    decreases |ts|
  {
    var name := ts[i].name;
    var tail := ts[1..];
    if i == 0 {
      assert !HasName(tail, name) by {
        forall j | 0 <= j < |tail| ensures tail[j].name != name {
          assert tail[j] == ts[j + 1];
        }
      }
      RemovedAbsent(tail, name);
    } else {
      UniqueTail(ts);
      assert tail[i - 1] == ts[i];
      RemovedUnique(tail, i - 1);
      assert Removed(ts, name) == [ts[0]] + Removed(tail, name);
      SpliceTail(ts, i);
    }
  }

  /** Cutting element i out of the tail and putting the head back cuts it out of the list. */
  lemma SpliceTail(ts: seq<Type>, i: nat)
    requires 0 < i < |ts|
    ensures [ts[0]] + (ts[1..][..i - 1] + ts[1..][i..]) == ts[..i] + ts[i + 1..]
  {
    assert ts[1..][..i - 1] == ts[1..i] && ts[1..][i..] == ts[i + 1..];
    assert [ts[0]] + ts[1..i] == ts[..i];
  }

  /** Removing a name that is not there changes nothing. */
  lemma {:induction false} RemovedAbsent(ts: seq<Type>, name: string)
    requires !HasName(ts, name)
    ensures Removed(ts, name) == ts
    decreases |ts|
  {
    if ts != [] {
      assert !HasName(ts[1..], name) by {
        forall i | 0 <= i < |ts[1..]| ensures ts[1..][i].name != name {
          assert ts[1..][i] == ts[i + 1];
        }
      }
      RemovedAbsent(ts[1..], name);
      assert [ts[0]] + ts[1..] == ts;
    }
  }

  /** If only the last type is called name, Removed drops exactly that one. */
  lemma RemovedLast(ts: seq<Type>, name: string)
    requires |ts| > 0 && ts[|ts| - 1].name == name
    requires forall j | 0 <= j < |ts| - 1 :: ts[j].name != name
    ensures Removed(ts, name) == ts[..|ts| - 1]
    decreases |ts|
  {
    if |ts| > 1 {
      RemovedLast(ts[1..], name);
      assert ts[1..][..|ts| - 2] == ts[1..|ts| - 1];
      assert [ts[0]] + ts[1..|ts| - 1] == ts[..|ts| - 1];
    }
  }

  /**
   * RemoveType exactly as written: the loop runs over the original
   * length while splicing the slice it indexes. None stands for the
   * index-out-of-range panic.
   */
  function RemoveTypeAsWritten(ts: seq<Type>, name: string): Option<seq<Type>> {
    RemoveLoop(ts, name, 0, |ts|)
  }

  function RemoveLoop(cur: seq<Type>, name: string, i: nat, n: nat): Option<seq<Type>>
    decreases n - i
  {
    if i >= n then Some(cur)
    else if i >= |cur| then None
    else if cur[i].name == name then RemoveLoop(cur[..i] + cur[i + 1..], name, i + 1, n)
    else RemoveLoop(cur, name, i + 1, n)
  }

  /** Once the slice is shorter than the loop's bound, the loop indexes past its end. */
  lemma {:induction false} ShrunkLoopPanics(cur: seq<Type>, name: string, i: nat, n: nat)
    requires i < n && |cur| < n
    ensures RemoveLoop(cur, name, i, n) == None
    decreases n - i
  {
    if i < |cur| {
      if cur[i].name == name {
        ShrunkLoopPanics(cur[..i] + cur[i + 1..], name, i + 1, n);
      } else {
        ShrunkLoopPanics(cur, name, i + 1, n);
      }
    }
  }

  /** The loop from i over an untouched slice whose first i names differ from name. */
  lemma {:induction false} RemoveLoopScan(ts: seq<Type>, name: string, i: nat)
    requires i <= |ts|
    requires forall j | 0 <= j < i :: ts[j].name != name
    ensures (forall j | i <= j < |ts| - 1 :: ts[j].name != name) ==>
              RemoveLoop(ts, name, i, |ts|)
              == Some(if |ts| > 0 && ts[|ts| - 1].name == name then ts[..|ts| - 1] else ts)
    ensures (exists j | i <= j < |ts| - 1 :: ts[j].name == name) ==> RemoveLoop(ts, name, i, |ts|) == None
    decreases |ts| - i
  {
    if i < |ts| {
      if ts[i].name == name {
        if i == |ts| - 1 {
          assert ts[..i] + ts[i + 1..] == ts[..|ts| - 1];
        } else {
          ShrunkLoopPanics(ts[..i] + ts[i + 1..], name, i + 1, |ts|);
        }
      } else {
        RemoveLoopScan(ts, name, i + 1);
      }
    }
  }

  /**
   * RemoveType as written succeeds exactly when no type before the last
   * is called name, and then it leaves what Removed describes.
   */
  lemma RemoveTypeAsWrittenMeaning(ts: seq<Type>, name: string)
    ensures RemoveTypeAsWritten(ts, name).Some? <==> forall j | 0 <= j < |ts| - 1 :: ts[j].name != name
    ensures RemoveTypeAsWritten(ts, name).Some? ==> RemoveTypeAsWritten(ts, name).value == Removed(ts, name)
  {
    RemoveLoopScan(ts, name, 0);
    if forall j | 0 <= j < |ts| - 1 :: ts[j].name != name {
      if |ts| > 0 && ts[|ts| - 1].name == name {
        RemovedLast(ts, name);
      } else {
        RemovedAbsent(ts, name);
      }
    }
  }

  /** Two types, the first of them removed: the loop indexes past the shortened slice. */
  lemma RemoveTypeFirstOfTwoPanics(a: Type, b: Type)
    requires a.name != b.name
    ensures RemoveTypeAsWritten([a, b], a.name) == None
    ensures Removed([a, b], a.name) == [b]
  {
    assert [a, b][..0] + [a, b][1..] == [b];
    assert RemoveLoop([a, b], a.name, 0, 2) == RemoveLoop([b], a.name, 1, 2);
  }

  // ---------------------------------------------------------------------
  // The integrity check

  /** Some relationship of target names rel back: its name is rel's inverse and its inverse is rel. */
  predicate PointsBack(target: Type, rel: Rel) {
    exists k | k in target.rels :: rel.name == target.rels[k].inverseName && rel.inverseName == target.rels[k].name
  }

  /** The errors Check reports for relationship rel of type owner, in the order it reports them. */
  function RelErrors(ts: seq<Type>, owner: Type, rel: Rel): (errs: seq<SchemaError>)
    ensures |errs| <= 3
  {
    (if HasName(ts, rel.target) then [] else [TargetMissing(rel.name, owner.name)])
    + (if rel.inverseName != "" && rel.inverseType != owner.name
       then [InverseTypeWrong(rel.name, owner.name, rel.inverseType)] else [])
    + (if rel.inverseName != "" && !PointsBack(Lookup(ts, rel.target), rel)
       then [InverseNotMutual(rel.name, owner.name)] else [])
  }

  /** Each of the three errors is reported exactly when its condition holds. */
  lemma RelErrorsMeaning(ts: seq<Type>, owner: Type, rel: Rel)
    ensures TargetMissing(rel.name, owner.name) in RelErrors(ts, owner, rel)
            <==> !HasName(ts, rel.target)
    ensures InverseTypeWrong(rel.name, owner.name, rel.inverseType) in RelErrors(ts, owner, rel)
            <==> rel.inverseName != "" && rel.inverseType != owner.name
    ensures InverseNotMutual(rel.name, owner.name) in RelErrors(ts, owner, rel)
            <==> rel.inverseName != "" && !PointsBack(Lookup(ts, rel.target), rel)
    ensures RelErrors(ts, owner, rel) == [] <==>
              HasName(ts, rel.target) && (rel.inverseName != "" ==>
                rel.inverseType == owner.name && PointsBack(Lookup(ts, rel.target), rel))
  {
  }

  /** The contribution of one relationship key of owner to Check's errors. */
  function RelErrorsOf(ts: seq<Type>, owner: Type): string -> multiset<SchemaError> {
    k => if k in owner.rels then multiset(RelErrors(ts, owner, owner.rels[k])) else multiset{}
  }

  /** The errors of all relationships of owner, in whichever order the map yields them. */
  ghost function TypeErrors(ts: seq<Type>, owner: Type): multiset<SchemaError> {
    Union(owner.rels.Keys, RelErrorsOf(ts, owner))
  }

  /** The errors of the types in prefix, checked against the whole list ts. */
  ghost function TypesErrors(ts: seq<Type>, prefix: seq<Type>): multiset<SchemaError>
    decreases |prefix|
  {
    if prefix == [] then multiset{}
    else TypesErrors(ts, prefix[..|prefix| - 1]) + TypeErrors(ts, prefix[|prefix| - 1])
  }

  /** Everything Check reports for the list ts. */
  ghost function CheckErrors(ts: seq<Type>): multiset<SchemaError> {
    TypesErrors(ts, ts)
  }

  /** No relationship of t has an error. */
  predicate TypeClean(ts: seq<Type>, t: Type) {
    forall k | k in t.rels :: RelErrors(ts, t, t.rels[k]) == []
  }

  lemma TypeErrorsEmptyIff(ts: seq<Type>, t: Type)
    ensures TypeErrors(ts, t) == multiset{} <==> TypeClean(ts, t)
  {
    UnionEmptyIff(t.rels.Keys, RelErrorsOf(ts, t));
    assert forall k | k in t.rels.Keys :: RelErrorsOf(ts, t)(k) == multiset(RelErrors(ts, t, t.rels[k]));
  }

  /** All types of a non-empty list are clean iff those before the last one and the last one are. */
  lemma AllCleanSplit(ts: seq<Type>, prefix: seq<Type>, init: seq<Type>)
    requires prefix != [] && init == prefix[..|prefix| - 1]
    ensures (forall i | 0 <= i < |prefix| :: TypeClean(ts, prefix[i])) <==>
            (forall i | 0 <= i < |init| :: TypeClean(ts, init[i])) && TypeClean(ts, prefix[|prefix| - 1])
  {
    assert forall i | 0 <= i < |init| :: init[i] == prefix[i];
  }

  lemma SumEmpty<E>(a: multiset<E>, b: multiset<E>)
    ensures a + b == multiset{} <==> a == multiset{} && b == multiset{}
  {
    if a + b == multiset{} {
      assert a <= a + b && b <= a + b;
    }
  }

  lemma {:induction false} TypesErrorsEmptyIff(ts: seq<Type>, prefix: seq<Type>)
    ensures TypesErrors(ts, prefix) == multiset{} <==> forall i | 0 <= i < |prefix| :: TypeClean(ts, prefix[i])
    decreases |prefix|
  {
    if prefix != [] {
      var init, last := prefix[..|prefix| - 1], prefix[|prefix| - 1];
      TypesErrorsEmptyIff(ts, init);
      TypeErrorsEmptyIff(ts, last);
      SumEmpty(TypesErrors(ts, init), TypeErrors(ts, last));
      AllCleanSplit(ts, prefix, init);
    }
  }

  /** Check reports nothing exactly when no relationship of any type has an error. */
  lemma CheckCleanIff(ts: seq<Type>)
    ensures CheckErrors(ts) == multiset{} <==>
      forall i, k | 0 <= i < |ts| && k in ts[i].rels :: RelErrors(ts, ts[i], ts[i].rels[k]) == []
  {
    TypesErrorsEmptyIff(ts, ts);
    assert (forall i | 0 <= i < |ts| :: TypeClean(ts, ts[i])) <==>
      forall i, k | 0 <= i < |ts| && k in ts[i].rels :: RelErrors(ts, ts[i], ts[i].rels[k]) == [];
  }

  /** Check does not stop at the first problem: every relationship's errors are all reported. */
  lemma {:induction false} CheckReportsEveryRel(ts: seq<Type>, prefix: seq<Type>, i: nat, k: string)
    requires i < |prefix| && k in prefix[i].rels
    ensures multiset(RelErrors(ts, prefix[i], prefix[i].rels[k])) <= TypesErrors(ts, prefix)
    decreases |prefix|
  {
    var init, last := prefix[..|prefix| - 1], prefix[|prefix| - 1];
    var mine := multiset(RelErrors(ts, prefix[i], prefix[i].rels[k]));
    var before, here := TypesErrors(ts, init), TypeErrors(ts, last);
    assert TypesErrors(ts, prefix) == before + here;
    if i < |init| {
      assert init[i] == prefix[i];
      CheckReportsEveryRel(ts, init, i, k);
      SubsetOfSum(mine, before, here);
    } else {
      assert prefix[i] == last;
      UnionIncludes(last.rels.Keys, RelErrorsOf(ts, last), k);
      assert RelErrorsOf(ts, last)(k) == mine;
      SubsetOfSum(mine, here, before);
    }
  }

  lemma SubsetOfSum<E>(a: multiset<E>, b: multiset<E>, c: multiset<E>)
    requires a <= b
    ensures a <= b + c && a <= c + b
  {
  }

  /** A dangling relationship that also names an inverse draws both the first and the last error. */
  lemma DanglingWithInverse(ts: seq<Type>, owner: Type, rel: Rel)
    requires !HasName(ts, rel.target) && rel.inverseName != ""
    ensures RelErrors(ts, owner, rel)[0] == TargetMissing(rel.name, owner.name)
    ensures RelErrors(ts, owner, rel)[|RelErrors(ts, owner, rel)| - 1] == InverseNotMutual(rel.name, owner.name)
  {
    assert !PointsBack(ZeroType, rel);
  }

  /**
   * Two relationships that name each other as inverses, each with its
   * owner as InverseType, draw no error, given unique type names.
   */
  lemma MutualPairClean(ts: seq<Type>, a: nat, ka: string, b: nat, kb: string)
    requires UniqueNames(ts) && a < |ts| && b < |ts|
    requires ka in ts[a].rels && kb in ts[b].rels
    requires ts[a].rels[ka].target == ts[b].name && ts[b].rels[kb].target == ts[a].name
    requires ts[a].rels[ka].inverseName == ts[b].rels[kb].name && ts[b].rels[kb].inverseName == ts[a].rels[ka].name
    requires ts[a].rels[ka].inverseType == ts[a].name && ts[b].rels[kb].inverseType == ts[b].name
    ensures RelErrors(ts, ts[a], ts[a].rels[ka]) == []
    ensures RelErrors(ts, ts[b], ts[b].rels[kb]) == []
  {
    LookupUnique(ts, a);
    LookupUnique(ts, b);
    assert PointsBack(ts[b], ts[a].rels[ka]) by {
      assert kb in ts[b].rels;
    }
    assert PointsBack(ts[a], ts[b].rels[kb]) by {
      assert ka in ts[a].rels;
    }
  }

  // ---------------------------------------------------------------------
  // The catalogue

  class Schema {
    var types: seq<Type>

    /** Go's `&Schema{}`: no types. */
    constructor ()
      ensures types == []
    {
      types := [];
    }

    /** AddType: refuse an empty or used name, otherwise append the type. */
    method AddType(typ: Type) returns (err: Option<SchemaError>)
      modifies this
      ensures typ.name == "" ==> err == Some(EmptyTypeName) && types == old(types)
      ensures typ.name != "" && HasName(old(types), typ.name) ==>
                err == Some(TypeNameUsed(typ.name)) && types == old(types)
      ensures typ.name != "" && !HasName(old(types), typ.name) ==>
                err == None && types == old(types) + [typ]
      ensures UniqueNames(old(types)) ==> UniqueNames(types)
    {
      if typ.name == "" {
        return Some(EmptyTypeName);
      }
      for i := 0 to |types|
        invariant forall j | 0 <= j < i :: types[j].name != typ.name
      {
        if types[i].name == typ.name {
          return Some(TypeNameUsed(typ.name));
        }
      }
      types := types + [typ];
      return None;
    }

    /**
     * RemoveType. The source splices the slice while ranging over its
     * original length, which panics unless the only type with the name
     * is the last one; callers must stay within that.
     */
    method RemoveType(typ: string) returns (err: Option<SchemaError>)
      requires forall j | 0 <= j < |types| - 1 :: types[j].name != typ
      modifies this
      ensures err == None
      ensures types == Removed(old(types), typ)
      ensures !HasName(old(types), typ) ==> types == old(types)
      ensures UniqueNames(old(types)) ==> UniqueNames(types)
    {
      var n := |types|;
      var i := 0;
      while i < n
        invariant 0 <= i <= n && n == |old(types)|
        invariant (types == old(types) && forall j | 0 <= j < i :: types[j].name != typ)
               || (i == n && n > 0 && old(types)[n - 1].name == typ && types == old(types)[..n - 1])
      {
        if types[i].name == typ {
          types := types[..i] + types[i + 1..];
        }
        i := i + 1;
      }
      if types == old(types) {
        RemovedAbsent(types, typ);
      } else {
        RemovedLast(old(types), typ);
      }
      return None;
    }

    /**
     * The loop shared by AddAttr, RemoveAttr, AddRel and RemoveRel: hand
     * the first type called name to change, store what it leaves behind
     * and return its error.
     */
    method Update(name: string, change: Type -> TypeChange) returns (err: Option<SchemaError>)
      modifies this
      ensures !HasName(old(types), name) ==> err == Some(TypeNotFound(name)) && types == old(types)
      ensures HasName(old(types), name) ==>
                var i := FirstIndex(old(types), name);
                err == change(old(types)[i]).err && types == old(types)[i := change(old(types)[i]).typ]
    {
      for i := 0 to |types|
        invariant types == old(types)
        invariant forall j | 0 <= j < i :: types[j].name != name
      {
        if types[i].name == name {
          var c := change(types[i]);
          types := types[i := c.typ];
          return c.err;
        }
      }
      return Some(TypeNotFound(name));
    }

    /** AddAttr: delegate to the type's own AddAttr. */
    method AddAttr(typ: string, attr: Attr, typeAddAttr: (Type, Attr) -> TypeChange) returns (err: Option<SchemaError>)
      modifies this
      ensures !HasName(old(types), typ) ==> err == Some(TypeNotFound(typ)) && types == old(types)
      ensures HasName(old(types), typ) ==>
                var i := FirstIndex(old(types), typ);
                var c := typeAddAttr(old(types)[i], attr);
                err == c.err && types == old(types)[i := c.typ]
    {
      err := Update(typ, t => typeAddAttr(t, attr));
    }

    /** RemoveAttr: delegate to the type's own RemoveAttr. */
    method RemoveAttr(typ: string, attr: string, typeRemoveAttr: (Type, string) -> TypeChange) returns (err: Option<SchemaError>)
      modifies this
      ensures !HasName(old(types), typ) ==> err == Some(TypeNotFound(typ)) && types == old(types)
      ensures HasName(old(types), typ) ==>
                var i := FirstIndex(old(types), typ);
                var c := typeRemoveAttr(old(types)[i], attr);
                err == c.err && types == old(types)[i := c.typ]
    {
      err := Update(typ, t => typeRemoveAttr(t, attr));
    }

    /** AddRel: delegate to the type's own AddRel. */
    method AddRel(typ: string, rel: Rel, typeAddRel: (Type, Rel) -> TypeChange) returns (err: Option<SchemaError>)
      modifies this
      ensures !HasName(old(types), typ) ==> err == Some(TypeNotFound(typ)) && types == old(types)
      ensures HasName(old(types), typ) ==>
                var i := FirstIndex(old(types), typ);
                var c := typeAddRel(old(types)[i], rel);
                err == c.err && types == old(types)[i := c.typ]
    {
      err := Update(typ, t => typeAddRel(t, rel));
    }

    /** RemoveRel: delegate to the type's own RemoveRel. */
    method RemoveRel(typ: string, rel: string, typeRemoveRel: (Type, string) -> TypeChange) returns (err: Option<SchemaError>)
      modifies this
      ensures !HasName(old(types), typ) ==> err == Some(TypeNotFound(typ)) && types == old(types)
      ensures HasName(old(types), typ) ==>
                var i := FirstIndex(old(types), typ);
                var c := typeRemoveRel(old(types)[i], rel);
                err == c.err && types == old(types)[i := c.typ]
    {
      err := Update(typ, t => typeRemoveRel(t, rel));
    }

    /** HasType: whether some type has the name. */
    method HasType(name: string) returns (found: bool)
      ensures found <==> exists i | 0 <= i < |types| :: types[i].name == name
    {
      for i := 0 to |types|
        invariant forall j | 0 <= j < i :: types[j].name != name
      {
        if types[i].name == name {
          return true;
        }
      }
      return false;
    }

    /** GetType: the first type with the name, or the zero type and false. */
    method GetType(name: string) returns (typ: Type, found: bool)
      ensures found <==> HasName(types, name)
      ensures found ==> typ.name == name && typ == types[FirstIndex(types, name)]
      ensures !found ==> typ == ZeroType
      ensures typ == Lookup(types, name)
    {
      for i := 0 to |types|
        invariant forall j | 0 <= j < i :: types[j].name != name
      {
        if types[i].name == name {
          return types[i], true;
        }
      }
      return ZeroType, false;
    }

    /** The errors of one relationship rel of typ, as the body of Check's inner loop finds them. */
    method CheckRel(typ: Type, rel: Rel) returns (errs: seq<SchemaError>)
      ensures errs == RelErrors(types, typ, rel)
    {
      errs := [];
      var targetType, ok := GetType(rel.target);
      if !ok {
        errs := errs + [TargetMissing(rel.name, typ.name)];
      }
      if rel.inverseName != "" {
        if rel.inverseType != typ.name {
          errs := errs + [InverseTypeWrong(rel.name, typ.name, rel.inverseType)];
        }
        var found := false;
        var remaining := targetType.rels.Keys;
        while remaining != {}
          invariant remaining <= targetType.rels.Keys
          invariant found <==> exists k | k in targetType.rels.Keys - remaining ::
                      rel.name == targetType.rels[k].inverseName && rel.inverseName == targetType.rels[k].name
          decreases remaining
        {
          var k :| k in remaining;
          var invRel := targetType.rels[k];
          if rel.name == invRel.inverseName && rel.inverseName == invRel.name {
            found := true;
          }
          remaining := remaining - {k};
        }
        if !found {
          errs := errs + [InverseNotMutual(rel.name, typ.name)];
        }
      }
    }

    /** The errors of all relationships of typ, as one round of Check's outer loop finds them. */
    method CheckOneType(typ: Type) returns (errs: seq<SchemaError>)
      ensures multiset(errs) == TypeErrors(types, typ)
    {
      errs := [];
      var remaining := typ.rels.Keys;
      while remaining != {}
        invariant remaining <= typ.rels.Keys
        invariant multiset(errs) + Union(remaining, RelErrorsOf(types, typ)) == TypeErrors(types, typ)
        decreases remaining
      {
        var k :| k in remaining;
        var relErrs := CheckRel(typ, typ.rels[k]);
        UnionPick(remaining, RelErrorsOf(types, typ), k);
        errs := errs + relErrs;
        remaining := remaining - {k};
      }
    }

    /** Check: every error of every relationship of every type, changing nothing. */
    method Check() returns (errs: seq<SchemaError>)
      ensures multiset(errs) == CheckErrors(types)
    {
      errs := [];
      for i := 0 to |types|
        invariant multiset(errs) == TypesErrors(types, types[..i])
      {
        var typeErrs := CheckOneType(types[i]);
        errs := errs + typeErrs;
        assert types[..i + 1][..i] == types[..i];
      }
      assert types[..|types|] == types;
    }
  }
}
