/** Resource identifiers: a (type, id) pair and ordered lists of them. */
module Identifiers {

  /** A resource's type and ID. */
  datatype Identifier = Identifier(id: string, typ: string)

  /** What NewIdentifiers(t, ids) builds: one identifier of type t per id, in order. */
  function IdentifiersOf(t: string, ids: seq<string>): seq<Identifier>
    decreases |ids|
  {
    if ids == [] then []
    else IdentifiersOf(t, ids[..|ids| - 1]) + [Identifier(ids[|ids| - 1], t)]
  }

  /** What IDs() returns: the ID part of each identifier, in order. */
  function IdsOf(identifiers: seq<Identifier>): seq<string>
    decreases |identifiers|
  {
    if identifiers == [] then []
    else IdsOf(identifiers[..|identifiers| - 1]) + [identifiers[|identifiers| - 1].id]
  }

  /** Element k of IdentifiersOf(t, ids) is (t, ids[k]); nothing is added or lost. */
  lemma {:induction false} IdentifiersOfAt(t: string, ids: seq<string>)
    ensures |IdentifiersOf(t, ids)| == |ids|
    ensures forall k | 0 <= k < |ids| :: IdentifiersOf(t, ids)[k] == Identifier(ids[k], t)
    decreases |ids|
  {
    if ids != [] {
      IdentifiersOfAt(t, ids[..|ids| - 1]);
    }
  }

  /** Element k of IdsOf(identifiers) is the ID of element k. */
  lemma {:induction false} IdsOfAt(identifiers: seq<Identifier>)
    ensures |IdsOf(identifiers)| == |identifiers|
    ensures forall k | 0 <= k < |identifiers| :: IdsOf(identifiers)[k] == identifiers[k].id
    decreases |identifiers|
  {
    if identifiers != [] {
      IdsOfAt(identifiers[..|identifiers| - 1]);
    }
  }

  /** Projecting the IDs back out of NewIdentifiers(t, ids) gives ids. */
  lemma {:induction false} IdsRoundTrip(t: string, ids: seq<string>)
    ensures IdsOf(IdentifiersOf(t, ids)) == ids
    decreases |ids|
  {
    if ids != [] {
      var init := ids[..|ids| - 1];
      IdsRoundTrip(t, init);
      var built := IdentifiersOf(t, init) + [Identifier(ids[|ids| - 1], t)];
      assert built[..|built| - 1] == IdentifiersOf(t, init);
      assert init + [ids[|ids| - 1]] == ids;
    }
  }

  /** NewIdentifiers (identifiers.go): an identifier of type t for every id. */
  method NewIdentifiers(t: string, ids: seq<string>) returns (identifiers: seq<Identifier>)
    ensures identifiers == IdentifiersOf(t, ids)
    ensures |identifiers| == |ids|
    ensures forall k | 0 <= k < |ids| :: identifiers[k].typ == t && identifiers[k].id == ids[k]
  {
    identifiers := [];
    for i := 0 to |ids|
      invariant identifiers == IdentifiersOf(t, ids[..i])
    {
      assert ids[..i + 1][..i] == ids[..i];
      identifiers := identifiers + [Identifier(ids[i], t)];
    }
    assert ids[..|ids|] == ids;
    IdentifiersOfAt(t, ids);
  }

  /** Identifiers.IDs (identifiers.go): the ID of every identifier. */
  method IDs(identifiers: seq<Identifier>) returns (ids: seq<string>)
    ensures ids == IdsOf(identifiers)
    ensures |ids| == |identifiers|
    ensures forall k | 0 <= k < |identifiers| :: ids[k] == identifiers[k].id
  {
    ids := [];
    for i := 0 to |identifiers|
      invariant ids == IdsOf(identifiers[..i])
    {
      assert identifiers[..i + 1][..i] == identifiers[..i];
      ids := ids + [identifiers[i].id];
    }
    assert identifiers[..|identifiers|] == identifiers;
    IdsOfAt(identifiers);
  }
}
