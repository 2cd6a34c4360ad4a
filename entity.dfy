/** The Pokemon document and the partial update applied to it. */
module Entity {
  import opened Wrappers

  /** A store identifier (a MongoDB ObjectId, in its string form). */
  type Id = string

  /** A stored Pokemon: its store id, catalog number, name and any other
      descriptive fields (by field name). In the document `_id`, `no` and
      `name` are properties like the others; here they have fields of their
      own, and `attrs` is meant to hold the remaining properties only (see
      `OtherFields`). */
  datatype Pokemon = Pokemon(id: Id, no: int, name: string, attrs: map<string, string>)

  /** The fields of an update request; an absent field is `None`, and
      `attrs` holds only the other fields the request mentions. */
  datatype Patch = Patch(no: Option<int>, name: Option<string>, attrs: map<string, string>)

  const EmptyPatch := Patch(None, None, map[])

  /** `attrs` holds no property that has a field of its own. */
  predicate OtherFields(attrs: map<string, string>)
  {
    "_id" !in attrs && "no" !in attrs && "name" !in attrs
  }

  /** The object spread `{ ...pokemon.toJSON(), ...patch }`: every field the
      patch carries replaces the record's, the others keep their old value.
      The store id is never part of a patch. */
  function Overlay(p: Pokemon, patch: Patch): (r: Pokemon)
    ensures r.id == p.id
    ensures OtherFields(p.attrs) && OtherFields(patch.attrs) ==> OtherFields(r.attrs)
    ensures patch.no.Some? ==> r.no == patch.no.value
    ensures patch.no.None? ==> r.no == p.no
    ensures patch.name.Some? ==> r.name == patch.name.value
    ensures patch.name.None? ==> r.name == p.name
    ensures r.attrs.Keys == p.attrs.Keys + patch.attrs.Keys
    ensures forall k :: k in patch.attrs ==> r.attrs[k] == patch.attrs[k]
    ensures forall k :: k in p.attrs && k !in patch.attrs ==> r.attrs[k] == p.attrs[k]
  {
    Pokemon(
      p.id,
      if patch.no.Some? then patch.no.value else p.no,
      if patch.name.Some? then patch.name.value else p.name,
      p.attrs + patch.attrs)
  }

  /** Two patches applied one after the other: later fields win. */
  function Then(first: Patch, second: Patch): Patch
  {
    Patch(
      if second.no.Some? then second.no else first.no,
      if second.name.Some? then second.name else first.name,
      first.attrs + second.attrs)
  }

  /** An empty patch changes nothing. */
  lemma OverlayEmpty(p: Pokemon)
    ensures Overlay(p, EmptyPatch) == p
  {
    assert p.attrs + map[] == p.attrs;
  }

  /** Overlaying twice is overlaying the combined patch. */
  lemma OverlayThen(p: Pokemon, first: Patch, second: Patch)
    ensures Overlay(Overlay(p, first), second) == Overlay(p, Then(first, second))
  {
    assert (p.attrs + first.attrs) + second.attrs == p.attrs + (first.attrs + second.attrs);
  }

  /** Applying the same patch a second time changes nothing more. */
  lemma OverlayIdempotent(p: Pokemon, patch: Patch)
    ensures Overlay(Overlay(p, patch), patch) == Overlay(p, patch)
  {
    OverlayThen(p, patch, patch);
    assert patch.attrs + patch.attrs == patch.attrs;
  }
}
