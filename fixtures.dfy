/**
 * Concrete catalogues: the two test types type1 and type2 of
 * jsonapi_test.go, and a pair of types on which the schema's and the
 * registry's integrity checks disagree.
 */
module Fixtures {
  import Schemas
  import Registries

  /** A relationship as MustReflect reads it from a field: to-one for a Go string, owned by owner. */
  function R(name: string, target: string, goType: string, inverse: string, owner: string): Schemas.Rel {
    Schemas.Rel(name, target, goType == "string", inverse, owner, false)
  }

  /** type1's relationships (its attributes play no part in Check and are left empty). */
  function Type1(): Schemas.Type {
    Schemas.Type("type1", map[], map[
      "to-1" := R("to-1", "type2", "string", "", "type1"),
      "to-1-from-1" := R("to-1-from-1", "type2", "string", "to-1-from-1", "type1"),
      "to-1-from-x" := R("to-1-from-x", "type2", "string", "to-x-from-1", "type1"),
      "to-x" := R("to-x", "type2", "[]string", "", "type1"),
      "to-x-from-1" := R("to-x-from-1", "type2", "[]string", "to-1-from-x", "type1"),
      "to-x-from-x" := R("to-x-from-x", "type2", "[]string", "to-x-from-x", "type1")])
  }

  /** type2's relationships. */
  function Type2(): Schemas.Type {
    Schemas.Type("type2", map[], map[
      "to-1-from-1" := R("to-1-from-1", "type1", "string", "to-1-from-1", "type2"),
      "to-1-from-x" := R("to-1-from-x", "type1", "string", "to-x-from-1", "type2"),
      "to-x-from-1" := R("to-x-from-1", "type1", "[]string", "to-1-from-x", "type2"),
      "to-x-from-x" := R("to-x-from-x", "type1", "[]string", "to-x-from-x", "type2")])
  }

  /** A relationship without an inverse is clean once its target is in the schema. */
  lemma PlainRelClean(ts: seq<Schemas.Type>, owner: Schemas.Type, rel: Schemas.Rel, j: nat)
    requires j < |ts| && ts[j].name == rel.target && rel.inverseName == ""
    ensures Schemas.RelErrors(ts, owner, rel) == []
  {
    Schemas.RelErrorsMeaning(ts, owner, rel);
  }

  /** The schema getSchema builds: type1 added, then type2. */
  function Fixture(): seq<Schemas.Type> {
    [Type1(), Type2()]
  }

  lemma Type1Clean()
    ensures Schemas.TypeClean(Fixture(), Type1())
  {
    var ts := Fixture();
    assert Schemas.UniqueNames(ts);
    forall k | k in Type1().rels ensures Schemas.RelErrors(ts, Type1(), Type1().rels[k]) == [] {
      if k == "to-1" || k == "to-x" {
        PlainRelClean(ts, ts[0], ts[0].rels[k], 1);
      } else if k == "to-1-from-1" {
        Schemas.MutualPairClean(ts, 0, k, 1, "to-1-from-1");
      } else if k == "to-1-from-x" {
        Schemas.MutualPairClean(ts, 0, k, 1, "to-x-from-1");
      } else if k == "to-x-from-1" {
        Schemas.MutualPairClean(ts, 0, k, 1, "to-1-from-x");
      } else {
        Schemas.MutualPairClean(ts, 0, k, 1, "to-x-from-x");
      }
    }
  }

  lemma Type2Clean()
    ensures Schemas.TypeClean(Fixture(), Type2())
  {
    var ts := Fixture();
    assert Schemas.UniqueNames(ts);
    forall k | k in Type2().rels ensures Schemas.RelErrors(ts, Type2(), Type2().rels[k]) == [] {
      if k == "to-1-from-1" {
        Schemas.MutualPairClean(ts, 0, "to-1-from-1", 1, k);
      } else if k == "to-1-from-x" {
        Schemas.MutualPairClean(ts, 0, "to-x-from-1", 1, k);
      } else if k == "to-x-from-1" {
        Schemas.MutualPairClean(ts, 0, "to-1-from-x", 1, k);
      } else {
        Schemas.MutualPairClean(ts, 0, "to-x-from-x", 1, k);
      }
    }
  }

  /** The schema of getSchema passes Check: every relationship's target exists and every inverse points back. */
  lemma FixturePassesCheck()
    ensures Schemas.CheckErrors(Fixture()) == multiset{}
  {
    var ts := Fixture();
    Type1Clean();
    Type2Clean();
    assert |ts| == 2 && ts[0] == Type1() && ts[1] == Type2();
    assert forall i | 0 <= i < |ts| :: Schemas.TypeClean(ts, ts[i]);
    Schemas.TypesErrorsEmptyIff(ts, ts);
  }

  /**
   * Type a's relationship "r" names "s" on b as its inverse, but "s"
   * names no inverse back.
   */
  function OneWayA(): Schemas.Type {
    Schemas.Type("a", map[], map["r" := R("r", "b", "string", "s", "a")])
  }

  function OneWayB(): Schemas.Type {
    Schemas.Type("b", map[], map["s" := R("s", "a", "string", "", "b")])
  }

  /**
   * The registry's Check only asks that the inverse exist, so it accepts
   * the one-way pair; the schema's Check asks that the two point at each
   * other and reports it.
   */
  lemma OneWayInverseAcceptedByRegistryOnly()
    ensures Registries.RelErrors(map["a" := OneWayA(), "b" := OneWayB()], OneWayA(), OneWayA().rels["r"]) == []
    ensures Schemas.InverseNotMutual("r", "a")
              in Schemas.RelErrors([OneWayA(), OneWayB()], OneWayA(), OneWayA().rels["r"])
  {
    var ts := [OneWayA(), OneWayB()];
    var rel := OneWayA().rels["r"];
    assert Schemas.UniqueNames(ts);
    Schemas.LookupUnique(ts, 1);
    Schemas.RelErrorsMeaning(ts, OneWayA(), rel);
    assert !Schemas.PointsBack(OneWayB(), rel) by {
      assert OneWayB().rels.Keys == {"s"};
    }
  }
}
