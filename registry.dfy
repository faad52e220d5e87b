/**
 * The registry of registry.go: a catalogue of types by name, filled from
 * struct field descriptions and checked for dangling relationships and
 * missing inverses, recording each inverse's cardinality.
 */
module Registries {
  import opened Wrappers
  import opened Values
  import opened Text
  import opened Unordered
  import Schemas

  /**
   * A struct field as reflection presents it: its Go name, its `json`
   * and `api` tags, and the Go name of its type (reflect.Type.String).
   */
  datatype Field = Field(name: string, jsonTag: string, apiTag: string, goType: string)

  datatype RegistryError =
    | TypeAlreadyRegistered(name: string)   // the panic of RegisterType
    | TargetNotRegistered(rel: string, owner: string)
    | InverseNotFound(rel: string, owner: string)
    | TypeNotRegistered(name: string)       // the panic of Resource and Collection

  /** The type name: the `api` tag of the field called ID, "" without one. */
  function TypeName(fields: seq<Field>): string
    decreases |fields|
  {
    if fields == [] then ""
    else if fields[0].name == "ID" then fields[0].apiTag
    else TypeName(fields[1..])
  }

  /** The name of a field in the type: its json tag, or its Go name when that tag is empty. */
  function FieldName(f: Field): string {
    if f.jsonTag != "" then f.jsonTag else f.name
  }

  predicate IsAttrField(f: Field) {
    f.apiTag == "attr"
  }

  predicate IsRelField(f: Field) {
    Contains(f.apiTag, "rel,")
  }

  /** The attribute an `api:"attr"` field declares. */
  function MakeAttr(f: Field): Schemas.Attr {
    var (typ, nullable) := Schemas.GetAttrType(f.goType);
    Schemas.Attr(FieldName(f), typ, nullable)
  }

  /** The relationship an `api:"rel,..."` field of type resType declares. */
  function MakeRel(f: Field, resType: string): Schemas.Rel {
    var s := Split(f.apiTag, ',');
    var t := if |s| >= 2 then s[1] else "";
    var i := if |s| >= 2 && |s| == 3 then s[2] else "";
    Schemas.Rel(FieldName(f), t, f.goType == "string", i, resType, false)
  }

  /** The attributes map after the first loop of RegisterType over fields. */
  function BuildAttrs(fields: seq<Field>): map<string, Schemas.Attr>
    decreases |fields|
  {
    if fields == [] then map[]
    else
      var m := BuildAttrs(fields[..|fields| - 1]);
      var f := fields[|fields| - 1];
      if IsAttrField(f) then m[FieldName(f) := MakeAttr(f)] else m
  }

  /** The relationships map after the second loop of RegisterType over fields. */
  function BuildRels(fields: seq<Field>, resType: string): map<string, Schemas.Rel>
    decreases |fields|
  {
    if fields == [] then map[]
    else
      var m := BuildRels(fields[..|fields| - 1], resType);
      var f := fields[|fields| - 1];
      if IsRelField(f) then m[FieldName(f) := MakeRel(f, resType)] else m
  }

  /** The type RegisterType builds from a struct's fields. */
  function BuildType(fields: seq<Field>): Schemas.Type {
    var resType := TypeName(fields);
    Schemas.Type(resType, BuildAttrs(fields), BuildRels(fields, resType))
  }

  // ---------------------------------------------------------------------
  // What the builder promises

  /** The type name is the api tag of the first field called ID. */
  lemma {:induction false} TypeNameIsIdTag(fields: seq<Field>, k: nat)
    requires k < |fields| && fields[k].name == "ID"
    requires forall j | 0 <= j < k :: fields[j].name != "ID"
    ensures TypeName(fields) == fields[k].apiTag
    decreases k
  {
    if k > 0 {
      TypeNameIsIdTag(fields[1..], k - 1);
    }
  }

  /** The attribute names are exactly the names of the attr fields. */
  lemma {:induction false} BuildAttrsKeys(fields: seq<Field>)
    ensures forall n :: n in BuildAttrs(fields) <==>
              exists k | 0 <= k < |fields| :: IsAttrField(fields[k]) && FieldName(fields[k]) == n
    decreases |fields|
  {
    if fields != [] {
      var init := fields[..|fields| - 1];
      BuildAttrsKeys(init);
      assert forall k | 0 <= k < |init| :: init[k] == fields[k];
    }
  }

  /** Under each name sits the attribute of the last attr field with that name. */
  lemma {:induction false} BuildAttrsLastWins(fields: seq<Field>, k: nat)
    requires k < |fields| && IsAttrField(fields[k])
    requires forall j | k < j < |fields| :: !(IsAttrField(fields[j]) && FieldName(fields[j]) == FieldName(fields[k]))
    ensures FieldName(fields[k]) in BuildAttrs(fields)
    ensures BuildAttrs(fields)[FieldName(fields[k])] == MakeAttr(fields[k])
    decreases |fields|
  {
    var init := fields[..|fields| - 1];
    if k < |init| {
      assert init[k] == fields[k];
      BuildAttrsLastWins(init, k);
    }
  }

  /** The relationship names are exactly the names of the rel fields. */
  lemma {:induction false} BuildRelsKeys(fields: seq<Field>, resType: string)
    ensures forall n :: n in BuildRels(fields, resType) <==>
              exists k | 0 <= k < |fields| :: IsRelField(fields[k]) && FieldName(fields[k]) == n
    decreases |fields|
  {
    if fields != [] {
      var init := fields[..|fields| - 1];
      BuildRelsKeys(init, resType);
      assert forall k | 0 <= k < |init| :: init[k] == fields[k];
    }
  }

  /** Under each name sits the relationship of the last rel field with that name. */
  lemma {:induction false} BuildRelsLastWins(fields: seq<Field>, resType: string, k: nat)
    requires k < |fields| && IsRelField(fields[k])
    requires forall j | k < j < |fields| :: !(IsRelField(fields[j]) && FieldName(fields[j]) == FieldName(fields[k]))
    ensures FieldName(fields[k]) in BuildRels(fields, resType)
    ensures BuildRels(fields, resType)[FieldName(fields[k])] == MakeRel(fields[k], resType)
    decreases |fields|
  {
    var init := fields[..|fields| - 1];
    if k < |init| {
      assert init[k] == fields[k];
      BuildRelsLastWins(init, resType, k);
    }
  }

  /** An attribute records its field's Go type: that type's name is recovered from its kind and nullability. */
  lemma AttrRecordsGoType(f: Field)
    requires MakeAttr(f).typ != AttrTypeInvalid
    ensures Schemas.GetAttrTypeString(MakeAttr(f).typ, MakeAttr(f).nullable) == f.goType
  {
    Schemas.AttrTypeStringRoundTrip(f.goType);
  }

  /**
   * A relationship is named after its json tag (else its Go name), is
   * to-one exactly for a Go string, belongs to resType and has no
   * inverse cardinality yet; a tag containing "rel," always has a target.
   */
  lemma MakeRelShape(f: Field, resType: string)
    requires IsRelField(f)
    ensures var r := MakeRel(f, resType);
            && r.name == (if f.jsonTag != "" then f.jsonTag else f.name)
            && (r.toOne <==> f.goType == "string")
            && r.inverseType == resType && !r.inverseToOne
            && |Split(f.apiTag, ',')| >= 2 && r.target == Split(f.apiTag, ',')[1]
  {
    ContainsChar(f.apiTag, "rel,", 3);
  }

  /** `rel,T` names target T and no inverse. */
  lemma RelTagTarget(f: Field, resType: string, t: string)
    requires f.apiTag == "rel," + t && ',' !in t
    ensures MakeRel(f, resType).target == t && MakeRel(f, resType).inverseName == ""
  {
    SplitFirst("rel", ',', t);
    SplitNone(t, ',');
    assert "rel" + [','] + t == f.apiTag;
  }

  /** The parts of `rel,T,I`. */
  lemma SplitThree(t: string, i: string)
    requires ',' !in t && ',' !in i
    ensures Split("rel," + t + "," + i, ',') == ["rel", t, i]
  {
    SplitNone(i, ',');
    SplitFirst(t, ',', i);
    SplitFirst("rel", ',', t + [','] + i);
    assert "rel," == "rel" + [','] && "," == [','];
    assert "rel," + t + "," + i == ("rel," + t) + [','] + i;
    assert ("rel," + t) + [','] + i == "rel," + (t + [','] + i);
  }

  /** `rel,T,I` names target T and inverse I. */
  lemma RelTagInverse(f: Field, resType: string, t: string, i: string)
    requires f.apiTag == "rel," + t + "," + i && ',' !in t && ',' !in i
    ensures MakeRel(f, resType).target == t && MakeRel(f, resType).inverseName == i
  {
    SplitThree(t, i);
  }

  /** `rel,T,I,X` regrouped as `rel` `,` (T `,` (I `,` X)). */
  lemma TagRegroup(t: string, i: string, x: string)
    ensures "rel," + t + "," + i + "," + x == "rel" + [','] + (t + [','] + (i + [','] + x))
  {
    var r1 := i + [','] + x;
    var r2 := t + [','] + r1;
    assert "rel," == "rel" + [','] && "," == [','];
    assert "rel," + t + "," + i + "," + x == ("rel," + t + "," + i) + [','] + x;
    assert ("rel," + t + "," + i) + [','] + x == ("rel," + t) + [','] + r1;
    assert ("rel," + t) + [','] + r1 == "rel," + r2;
  }

  /** The parts of `rel,T,I,X`. */
  lemma SplitFour(t: string, i: string, x: string)
    requires ',' !in t && ',' !in i && ',' !in x
    ensures Split("rel," + t + "," + i + "," + x, ',') == ["rel", t, i, x]
  {
    var r1 := i + [','] + x;
    var r2 := t + [','] + r1;
    SplitNone(x, ',');
    SplitFirst(i, ',', x);
    assert Split(r1, ',') == [i, x];
    SplitFirst(t, ',', r1);
    assert Split(r2, ',') == [t, i, x];
    SplitFirst("rel", ',', r2);
    TagRegroup(t, i, x);
  }

  /** With a fourth part, `rel,T,I,X` keeps target T but loses the inverse. */
  lemma RelTagExtraPart(f: Field, resType: string, t: string, i: string, x: string)
    requires f.apiTag == "rel," + t + "," + i + "," + x && ',' !in t && ',' !in i && ',' !in x
    ensures MakeRel(f, resType).target == t && MakeRel(f, resType).inverseName == ""
  {
    SplitFour(t, i, x);
  }

  // ---------------------------------------------------------------------
  // The check

  /** The inverse named by rel, if the target is registered and has it. */
  predicate HasInverse(ts: map<string, Schemas.Type>, rel: Schemas.Rel) {
    rel.target in ts && rel.inverseName in ts[rel.target].rels
  }

  /** rel after Check: the inverse's cardinality copied in when the inverse exists. */
  function CheckedRel(ts: map<string, Schemas.Type>, rel: Schemas.Rel): (r: Schemas.Rel)
    ensures r == rel.(inverseToOne := r.inverseToOne)
    ensures rel.inverseName != "" && HasInverse(ts, rel) ==>
              r.inverseToOne == ts[rel.target].rels[rel.inverseName].toOne
    ensures !(rel.inverseName != "" && HasInverse(ts, rel)) ==> r == rel
  {
    if rel.inverseName != "" && HasInverse(ts, rel)
    then rel.(inverseToOne := ts[rel.target].rels[rel.inverseName].toOne)
    else rel
  }

  function CheckedType(ts: map<string, Schemas.Type>, typ: Schemas.Type): Schemas.Type {
    typ.(rels := map k | k in typ.rels :: CheckedRel(ts, typ.rels[k]))
  }

  /** The catalogue after Check. */
  function CheckedTypes(ts: map<string, Schemas.Type>): map<string, Schemas.Type> {
    map t | t in ts :: CheckedType(ts, ts[t])
  }

  /** The errors Check reports for relationship rel of type owner. */
  function RelErrors(ts: map<string, Schemas.Type>, owner: Schemas.Type, rel: Schemas.Rel): seq<RegistryError> {
    (if rel.target in ts then [] else [TargetNotRegistered(rel.name, owner.name)])
    + (if rel.inverseName != "" && !HasInverse(ts, rel) then [InverseNotFound(rel.name, owner.name)] else [])
  }

  lemma RelErrorsMeaning(ts: map<string, Schemas.Type>, owner: Schemas.Type, rel: Schemas.Rel)
    ensures TargetNotRegistered(rel.name, owner.name) in RelErrors(ts, owner, rel) <==> rel.target !in ts
    ensures InverseNotFound(rel.name, owner.name) in RelErrors(ts, owner, rel)
            <==> rel.inverseName != "" && !HasInverse(ts, rel)
    ensures RelErrors(ts, owner, rel) == [] <==> rel.target in ts && (rel.inverseName != "" ==> HasInverse(ts, rel))
  {
  }

  function RelErrorsOf(ts: map<string, Schemas.Type>, owner: Schemas.Type): string -> multiset<RegistryError> {
    k => if k in owner.rels then multiset(RelErrors(ts, owner, owner.rels[k])) else multiset{}
  }

  ghost function TypeErrors(ts: map<string, Schemas.Type>, owner: Schemas.Type): multiset<RegistryError> {
    Union(owner.rels.Keys, RelErrorsOf(ts, owner))
  }

  ghost function TypeErrorsOf(ts: map<string, Schemas.Type>): string -> multiset<RegistryError> {
    t => if t in ts then TypeErrors(ts, ts[t]) else multiset{}
  }

  /** Everything Check reports, in whichever order the maps are ranged over. */
  ghost function CheckErrors(ts: map<string, Schemas.Type>): multiset<RegistryError> {
    Union(ts.Keys, TypeErrorsOf(ts))
  }

  /** The relationships of a type part-way through Check's inner loop: those in pending not yet visited. */
  function Pending(ts: map<string, Schemas.Type>, rels: map<string, Schemas.Rel>, pending: set<string>): map<string, Schemas.Rel> {
    map k | k in rels :: if k in pending then rels[k] else CheckedRel(ts, rels[k])
  }

  lemma PendingAll(ts: map<string, Schemas.Type>, rels: map<string, Schemas.Rel>)
    ensures Pending(ts, rels, rels.Keys) == rels
  {
  }

  lemma PendingStep(ts: map<string, Schemas.Type>, rels: map<string, Schemas.Rel>, pending: set<string>, re: string)
    requires re in pending && re in rels
    ensures Pending(ts, rels, pending)[re := CheckedRel(ts, rels[re])] == Pending(ts, rels, pending - {re})
    ensures rels[re].inverseName == "" ==> Pending(ts, rels, pending) == Pending(ts, rels, pending - {re})
  {
  }

  lemma PendingNone(ts: map<string, Schemas.Type>, typ: Schemas.Type)
    ensures Pending(ts, typ.rels, {}) == CheckedType(ts, typ).rels
  {
  }

  /** Two catalogues with the same type names, relationship names and relationship cardinalities. */
  predicate SameShape(a: map<string, Schemas.Type>, b: map<string, Schemas.Type>) {
    a.Keys == b.Keys && forall t | t in a :: SameRels(a[t], b[t])
  }

  /** Two types with the same relationship names and cardinalities. */
  predicate SameRels(x: Schemas.Type, y: Schemas.Type) {
    y.rels.Keys == x.rels.Keys && forall k | k in x.rels :: y.rels[k].toOne == x.rels[k].toOne
  }

  /** Check's lookups see only the shape, so they answer the same on any catalogue of the same shape. */
  lemma SameShapeSameAnswers(a: map<string, Schemas.Type>, b: map<string, Schemas.Type>, owner: Schemas.Type, rel: Schemas.Rel)
    requires SameShape(a, b)
    ensures CheckedRel(a, rel) == CheckedRel(b, rel)
    ensures RelErrors(a, owner, rel) == RelErrors(b, owner, rel)
  {
  }

  /** Check changes nothing Check looks at. */
  lemma CheckedSameShape(ts: map<string, Schemas.Type>)
    ensures SameShape(ts, CheckedTypes(ts))
  {
  }

  /** Catalogues of the same shape check a type alike. */
  lemma SameShapeSameType(a: map<string, Schemas.Type>, b: map<string, Schemas.Type>, typ: Schemas.Type)
    requires SameShape(a, b)
    ensures CheckedType(a, typ) == CheckedType(b, typ)
    ensures TypeErrors(a, typ) == TypeErrors(b, typ)
  {
    SameShapeSameRels(a, b, typ);
    forall k | k in typ.rels.Keys ensures RelErrorsOf(a, typ)(k) == RelErrorsOf(b, typ)(k) {
      SameShapeSameAnswers(a, b, typ, typ.rels[k]);
    }
    UnionCongruent(typ.rels.Keys, RelErrorsOf(a, typ), RelErrorsOf(b, typ));
  }

  lemma SameShapeSameRels(a: map<string, Schemas.Type>, b: map<string, Schemas.Type>, typ: Schemas.Type)
    requires SameShape(a, b)
    ensures CheckedType(a, typ).rels == CheckedType(b, typ).rels
  {
    var ma := CheckedType(a, typ).rels;
    var mb := CheckedType(b, typ).rels;
    forall k | k in typ.rels ensures ma[k] == mb[k] {
      SameShapeSameAnswers(a, b, typ, typ.rels[k]);
    }
    assert ma.Keys == typ.rels.Keys == mb.Keys;
  }

  /** Checking a checked type against a catalogue of the same shape changes nothing more. */
  lemma CheckedTypeStable(ts: map<string, Schemas.Type>, ts': map<string, Schemas.Type>, typ: Schemas.Type)
    requires SameShape(ts, ts')
    ensures CheckedType(ts', CheckedType(ts, typ)) == CheckedType(ts, typ)
  {
    var c := CheckedType(ts, typ);
    var m := CheckedType(ts', c).rels;
    forall k | k in c.rels ensures m[k] == c.rels[k] {
      SameShapeSameAnswers(ts, ts', typ, typ.rels[k]);
    }
    assert m.Keys == c.rels.Keys;
  }

  /** Check's errors do not depend on the inverse cardinalities it copies in. */
  lemma CheckedRelOwnErrors(ts: map<string, Schemas.Type>, owner: Schemas.Type, owner': Schemas.Type, rel: Schemas.Rel)
    requires owner'.name == owner.name
    ensures RelErrors(ts, owner', CheckedRel(ts, rel)) == RelErrors(ts, owner, rel)
  {
  }

  lemma CheckedTypeOwnErrors(ts: map<string, Schemas.Type>, typ: Schemas.Type)
    ensures TypeErrors(ts, CheckedType(ts, typ)) == TypeErrors(ts, typ)
  {
    var c := CheckedType(ts, typ);
    assert c.rels.Keys == typ.rels.Keys;
    forall k | k in typ.rels.Keys ensures RelErrorsOf(ts, c)(k) == RelErrorsOf(ts, typ)(k) {
      assert c.rels[k] == CheckedRel(ts, typ.rels[k]);
      CheckedRelOwnErrors(ts, typ, c, typ.rels[k]);
    }
    UnionCongruent(typ.rels.Keys, RelErrorsOf(ts, c), RelErrorsOf(ts, typ));
  }

  /** A checked type draws the same errors from a catalogue of the same shape. */
  lemma CheckedTypeSameErrors(ts: map<string, Schemas.Type>, ts': map<string, Schemas.Type>, typ: Schemas.Type)
    requires SameShape(ts, ts')
    ensures TypeErrors(ts', CheckedType(ts, typ)) == TypeErrors(ts, typ)
  {
    SameShapeSameType(ts, ts', CheckedType(ts, typ));
    CheckedTypeOwnErrors(ts, typ);
  }

  /** A second Check leaves the catalogue as the first left it. */
  lemma CheckedTwice(ts: map<string, Schemas.Type>)
    ensures CheckedTypes(CheckedTypes(ts)) == CheckedTypes(ts)
  {
    var ts' := CheckedTypes(ts);
    CheckedSameShape(ts);
    var ts'' := CheckedTypes(ts');
    forall t | t in ts ensures ts''[t] == ts'[t] {
      CheckedTypeStable(ts, ts', ts[t]);
    }
    assert ts''.Keys == ts.Keys == ts'.Keys;
  }

  /** A type's errors are the same before and after Check. */
  lemma CheckedTypeErrorsOf(ts: map<string, Schemas.Type>, t: string)
    requires t in ts
    ensures TypeErrorsOf(CheckedTypes(ts))(t) == TypeErrorsOf(ts)(t)
  {
    CheckedSameShape(ts);
    CheckedTypeSameErrors(ts, CheckedTypes(ts), ts[t]);
  }

  /** A second Check finds the catalogue as the first left it, and reports the same errors. */
  lemma CheckIdempotent(ts: map<string, Schemas.Type>)
    ensures CheckedTypes(CheckedTypes(ts)) == CheckedTypes(ts)
    ensures CheckErrors(CheckedTypes(ts)) == CheckErrors(ts)
  {
    CheckedTwice(ts);
    var ts' := CheckedTypes(ts);
    forall t | t in ts.Keys ensures TypeErrorsOf(ts')(t) == TypeErrorsOf(ts)(t) {
      CheckedTypeErrorsOf(ts, t);
    }
    assert ts'.Keys == ts.Keys;
    UnionCongruent(ts.Keys, TypeErrorsOf(ts'), TypeErrorsOf(ts));
  }

  /** Check reports nothing exactly when every target is registered and every named inverse exists. */
  lemma CheckCleanIff(ts: map<string, Schemas.Type>)
    ensures CheckErrors(ts) == multiset{} <==>
      forall t, k | t in ts && k in ts[t].rels :: RelErrors(ts, ts[t], ts[t].rels[k]) == []
  {
    UnionEmptyIff(ts.Keys, TypeErrorsOf(ts));
    forall t | t in ts
      ensures TypeErrorsOf(ts)(t) == multiset{} <==>
                forall k | k in ts[t].rels :: RelErrors(ts, ts[t], ts[t].rels[k]) == []
    {
      UnionEmptyIff(ts[t].rels.Keys, RelErrorsOf(ts, ts[t]));
    }
  }

  /** Every relationship's errors are all reported. */
  lemma CheckReportsEveryRel(ts: map<string, Schemas.Type>, t: string, k: string)
    requires t in ts && k in ts[t].rels
    ensures multiset(RelErrors(ts, ts[t], ts[t].rels[k])) <= CheckErrors(ts)
  {
    UnionIncludes(ts[t].rels.Keys, RelErrorsOf(ts, ts[t]), k);
    UnionIncludes(ts.Keys, TypeErrorsOf(ts), t);
  }

  /** The catalogue part-way through Check's outer loop: the types in remaining not yet visited. */
  function Progress(ts: map<string, Schemas.Type>, remaining: set<string>): map<string, Schemas.Type> {
    map t | t in ts :: if t in remaining then ts[t] else CheckedType(ts, ts[t])
  }

  lemma ProgressAll(ts: map<string, Schemas.Type>)
    ensures Progress(ts, ts.Keys) == ts
  {
  }

  lemma ProgressStep(ts: map<string, Schemas.Type>, remaining: set<string>, t: string)
    requires t in remaining && t in ts
    ensures Progress(ts, remaining)[t := CheckedType(ts, ts[t])] == Progress(ts, remaining - {t})
  {
  }

  lemma ProgressNone(ts: map<string, Schemas.Type>)
    ensures Progress(ts, {}) == CheckedTypes(ts)
  {
  }

  /** Part-way through, the catalogue still has the shape it started with. */
  lemma ProgressShape(ts: map<string, Schemas.Type>, remaining: set<string>)
    ensures SameShape(ts, Progress(ts, remaining))
  {
    var p := Progress(ts, remaining);
    forall t | t in ts ensures SameRels(ts[t], p[t]) {
      assert CheckedType(ts, ts[t]).rels.Keys == ts[t].rels.Keys;
    }
  }

  /** One round of Check's outer loop, on the specification side: what visiting type t contributes. */
  lemma ProgressVisit(ts: map<string, Schemas.Type>, remaining: set<string>, t: string)
    requires t in remaining && remaining <= ts.Keys
    ensures t in Progress(ts, remaining) && Progress(ts, remaining)[t] == ts[t]
    ensures CheckedType(Progress(ts, remaining), ts[t]) == CheckedType(ts, ts[t])
    ensures TypeErrors(Progress(ts, remaining), ts[t]) == TypeErrors(ts, ts[t])
    ensures Progress(ts, remaining)[t := CheckedType(ts, ts[t])] == Progress(ts, remaining - {t})
  {
    ProgressShape(ts, remaining);
    SameShapeSameType(ts, Progress(ts, remaining), ts[t]);
    ProgressStep(ts, remaining, t);
  }

  /** Reporting one type's errors moves them from the still-to-visit part to the reported part. */
  lemma ErrorsVisit(ts: map<string, Schemas.Type>, remaining: set<string>, t: string,
                    errs: seq<RegistryError>, typeErrs: seq<RegistryError>)
    requires t in remaining && t in ts
    requires multiset(errs) + Union(remaining, TypeErrorsOf(ts)) == CheckErrors(ts)
    requires multiset(typeErrs) == TypeErrors(ts, ts[t])
    ensures multiset(errs + typeErrs) + Union(remaining - {t}, TypeErrorsOf(ts)) == CheckErrors(ts)
  {
    UnionPick(remaining, TypeErrorsOf(ts), t);
    assert multiset(errs + typeErrs) == multiset(errs) + multiset(typeErrs);
  }

  /** The same for one relationship's errors within a type. */
  lemma RelErrorsVisit(ts: map<string, Schemas.Type>, typ: Schemas.Type, relKeys: set<string>, re: string,
                       errs: seq<RegistryError>, relErrs: seq<RegistryError>)
    requires re in relKeys && re in typ.rels
    requires multiset(errs) + Union(relKeys, RelErrorsOf(ts, typ)) == TypeErrors(ts, typ)
    requires relErrs == RelErrors(ts, typ, typ.rels[re])
    ensures multiset(errs + relErrs) + Union(relKeys - {re}, RelErrorsOf(ts, typ)) == TypeErrors(ts, typ)
  {
    UnionPick(relKeys, RelErrorsOf(ts, typ), re);
    assert multiset(errs + relErrs) == multiset(errs) + multiset(relErrs);
  }

  /**
   * The body of Check's inner loop for one relationship: its errors and
   * the relationship with the inverse's cardinality copied in.
   */
  method CheckRel(cat: map<string, Schemas.Type>, typ: Schemas.Type, rel: Schemas.Rel)
    returns (checked: Schemas.Rel, errs: seq<RegistryError>)
    ensures checked == CheckedRel(cat, rel)
    ensures errs == RelErrors(cat, typ, rel)
  {
    errs := [];
    checked := rel;
    if rel.target !in cat {
      errs := errs + [TargetNotRegistered(rel.name, typ.name)];
    }
    if rel.inverseName != "" {
      var target := if rel.target in cat then cat[rel.target] else Schemas.ZeroType;
      if rel.inverseName !in target.rels {
        errs := errs + [InverseNotFound(rel.name, typ.name)];
      } else {
        var invRel := target.rels[rel.inverseName];
        checked := rel.(inverseToOne := invRel.toOne);
      }
    }
  }

  /** One round of Check's outer loop: the relationships of typ after the inner loop, and the errors it reports. */
  method CheckRels(cat: map<string, Schemas.Type>, typ: Schemas.Type)
    returns (rels: map<string, Schemas.Rel>, errs: seq<RegistryError>)
    ensures rels == CheckedType(cat, typ).rels
    ensures multiset(errs) == TypeErrors(cat, typ)
  {
    errs := [];
    rels := typ.rels;
    var relKeys := typ.rels.Keys;
    PendingAll(cat, typ.rels);
    while relKeys != {}
      invariant relKeys <= typ.rels.Keys
      invariant rels == Pending(cat, typ.rels, relKeys)
      invariant multiset(errs) + Union(relKeys, RelErrorsOf(cat, typ)) == TypeErrors(cat, typ)
      decreases relKeys
    {
      var re :| re in relKeys;
      var rel := typ.rels[re];
      var checked, relErrs := CheckRel(cat, typ, rel);
      PendingStep(cat, typ.rels, relKeys, re);
      RelErrorsVisit(cat, typ, relKeys, re, errs, relErrs);
      errs := errs + relErrs;
      if rel.inverseName != "" {
        rels := rels[re := checked];
      }
      relKeys := relKeys - {re};
    }
    PendingNone(cat, typ);
  }

  // ---------------------------------------------------------------------
  // The catalogue

  class Registry {
    var types: map<string, Schemas.Type>

    /** NewRegistry: an empty catalogue. */
    constructor ()
      ensures types == map[]
    {
      types := map[];
    }

    /**
     * RegisterType: build the type from the struct's fields and add it
     * under its name; a name already registered is refused (a panic in
     * the source) and leaves the catalogue as it was.
     */
    method RegisterType(fields: seq<Field>) returns (err: Option<RegistryError>)
      modifies this
      ensures TypeName(fields) in old(types) ==>
                err == Some(TypeAlreadyRegistered(TypeName(fields))) && types == old(types)
      ensures TypeName(fields) !in old(types) ==>
                err == None && types == old(types)[TypeName(fields) := BuildType(fields)]
    {
      var resType := TypeName(fields);
      var attrs: map<string, Schemas.Attr> := map[];
      for i := 0 to |fields|
        invariant attrs == BuildAttrs(fields[..i])
      {
        assert fields[..i + 1][..i] == fields[..i];
        var sf := fields[i];
        if sf.apiTag == "attr" {
          var n := FieldName(sf);
          var (typ, nullable) := Schemas.GetAttrType(sf.goType);
          attrs := attrs[n := Schemas.Attr(n, typ, nullable)];
        }
      }
      assert fields[..|fields|] == fields;
      var rels: map<string, Schemas.Rel> := map[];
      for i := 0 to |fields|
        invariant rels == BuildRels(fields[..i], resType)
      {
        assert fields[..i + 1][..i] == fields[..i];
        var sf := fields[i];
        if Contains(sf.apiTag, "rel,") {
          var s := Split(sf.apiTag, ',');
          var t, inv := "", "";
          if |s| >= 2 {
            t := s[1];
            if |s| == 3 {
              inv := s[2];
            }
          }
          var toOne := false;
          if sf.goType == "string" {
            toOne := true;
          } else if sf.goType == "[]string" {
            toOne := false;
          }
          var n := FieldName(sf);
          rels := rels[n := Schemas.Rel(n, t, toOne, inv, resType, false)];
        }
      }
      if resType in types {
        return Some(TypeAlreadyRegistered(resType));
      }
      types := types[resType := Schemas.Type(resType, attrs, rels)];
      return None;
    }

    /**
     * Check: for every relationship, report a target that is not
     * registered and a named inverse that its target lacks, and copy the
     * inverse's cardinality in when it is found.
     */
    method Check() returns (errs: seq<RegistryError>)
      modifies this
      ensures types == CheckedTypes(old(types))
      ensures multiset(errs) == CheckErrors(old(types))
    {
      ghost var ts := types;
      var cat := types;
      errs := [];
      var remaining := cat.Keys;
      ProgressAll(ts);
      while remaining != {}
        invariant remaining <= ts.Keys
        invariant cat == Progress(ts, remaining)
        invariant multiset(errs) + Union(remaining, TypeErrorsOf(ts)) == CheckErrors(ts)
        decreases remaining
      {
        var t :| t in remaining;
        ProgressVisit(ts, remaining, t);
        var typ := cat[t];
        var rels, relErrs := CheckRels(cat, typ);
        ErrorsVisit(ts, remaining, t, errs, relErrs);
        errs := errs + relErrs;
        cat := cat[t := typ.(rels := rels)];
        remaining := remaining - {t};
      }
      ProgressNone(ts);
      types := cat;
    }

    /** Resource: the type a new resource of that name is built from, refused for an unknown name. */
    method Resource(name: string) returns (r: Result<Schemas.Type, RegistryError>)
      ensures name in types ==> r == Ok(types[name])
      ensures name !in types ==> r == Err(TypeNotRegistered(name))
    {
      if name in types {
        return Ok(types[name]);
      }
      return Err(TypeNotRegistered(name));
    }

    /** Collection: the type of the new collection's resource, refused for an unknown name. */
    method Collection(name: string) returns (r: Result<Schemas.Type, RegistryError>)
      ensures r.Ok? <==> name in types
      ensures r.Ok? ==> r.value == types[name]
      ensures r.Err? ==> r.error == TypeNotRegistered(name)
    {
      if name in types {
        var t := types[name];
        return Ok(t);
      }
      return Err(TypeNotRegistered(name));
    }
  }
}
