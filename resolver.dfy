/** How `findOne` turns a token into a record: up to three store queries,
    tried in a fixed order, stopping at the first one that finds something. */
module Resolver {
  import opened Wrappers
  import opened Text
  import opened Entity
  import opened Store

  /** The library checks the service relies on and that this model does not
      re-implement: `!isNaN(+token)` (JavaScript numeric coercion), the cast of
      the token to a number in the query `{ no: token }`, and mongoose's
      `isValidObjectId`. */
  datatype Externals = Externals(
    isNumeric: string -> bool,
    toNo: string -> int,
    isValidObjectId: string -> bool)

  /** A query `findOne` sends to the store. */
  datatype Query = ByNo(no: int) | ById(id: Id) | ByName(name: string)

  /** The record `p` answers the query `q`. */
  predicate Matches(p: Pokemon, q: Query)
  {
    match q
    case ByNo(n) => p.no == n
    case ById(id) => p.id == id
    case ByName(name) => p.name == name
  }

  /** Sends one query to the store: the first record that answers it. */
  function Run(docs: seq<Pokemon>, q: Query): (r: Option<Pokemon>)
    ensures r.Some? ==> r.value in docs && Matches(r.value, q)
    ensures r.None? <==> forall p :: p in docs ==> !Matches(p, q)
  {
    match q
    case ByNo(n) => FindByNo(docs, n)
    case ById(id) => FindById(docs, id)
    case ByName(name) => FindByName(docs, name)
  }

  /** The name a token is looked up under: `token.toLowerCase().trim()`. */
  function NameKey(token: string): (r: string)
    ensures IsLower(r)
    ensures r != [] ==> !IsWhiteSpace(r[0]) && !IsWhiteSpace(r[|r| - 1])
  {
    LowerIsLower(token);
    Trim(Lower(token))
  }

  /** Some record is addressed by the token as a catalog number. */
  predicate NumberHit(docs: seq<Pokemon>, ext: Externals, token: string)
  {
    ext.isNumeric(token) && exists p :: p in docs && p.no == ext.toNo(token)
  }

  /** Some record is addressed by the token as a store id. */
  predicate IdHit(docs: seq<Pokemon>, ext: Externals, token: string)
  {
    ext.isValidObjectId(token) && exists p :: p in docs && p.id == token
  }

  /** Some record is addressed by the token as a name. */
  predicate NameHit(docs: seq<Pokemon>, token: string)
  {
    exists p :: p in docs && p.name == NameKey(token)
  }

  /** The queries `findOne` issues, in order: the number query when the token
      is numeric, the id query when that found nothing and the token is a
      valid ObjectId, the name query when both found nothing. */
  function Plan(docs: seq<Pokemon>, ext: Externals, token: string): (r: seq<Query>)
    ensures 1 <= |r| <= 3
    ensures forall i :: 0 <= i < |r| - 1 ==> Run(docs, r[i]).None?
  {
    var numeric := if ext.isNumeric(token) then [ByNo(ext.toNo(token))] else [];
    if NumberHit(docs, ext, token) then numeric
    else if IdHit(docs, ext, token) then numeric + [ById(token)]
    else
      assert numeric != [] ==> Run(docs, numeric[0]).None?;
      var byId := if ext.isValidObjectId(token) then [ById(token)] else [];
      assert byId != [] ==> Run(docs, byId[0]).None?;
      numeric + byId + [ByName(NameKey(token))]
  }

  /** The record `findOne` returns: what the last query of the plan found. */
  function Resolve(docs: seq<Pokemon>, ext: Externals, token: string): (r: Option<Pokemon>)
    ensures r.Some? ==> r.value in docs
  {
    var plan := Plan(docs, ext, token);
    Run(docs, plan[|plan| - 1])
  }

  /** The plan is never empty, every query in it except the last found
      nothing (the look-up stops at the first hit), and the result is what
      the last query found. */
  lemma PlanShortCircuits(docs: seq<Pokemon>, ext: Externals, token: string)
    ensures var plan := Plan(docs, ext, token);
      && 1 <= |plan| <= 3
      && (forall i :: 0 <= i < |plan| - 1 ==> Run(docs, plan[i]).None?)
      && Resolve(docs, ext, token) == Run(docs, plan[|plan| - 1])
  {
  }

  /** A numeric token that matches a number is answered by the number query
      alone: neither the id nor the name query is sent. */
  lemma PlanNumberHit(docs: seq<Pokemon>, ext: Externals, token: string)
    requires NumberHit(docs, ext, token)
    ensures Plan(docs, ext, token) == [ByNo(ext.toNo(token))]
  {
  }

  /** The id query is sent only for a valid ObjectId, and only after the
      number query, if any, found nothing. */
  lemma PlanIdQuery(docs: seq<Pokemon>, ext: Externals, token: string)
    ensures ById(token) in Plan(docs, ext, token) <==>
      ext.isValidObjectId(token) && !NumberHit(docs, ext, token)
    ensures forall q :: q in Plan(docs, ext, token) && q.ById? ==> q.id == token
  {
    var plan := Plan(docs, ext, token);
    if ById(token) in plan {
      assert ext.isValidObjectId(token);
    }
  }

  /** The name query is sent exactly when neither earlier query found a
      record, and it asks for the trimmed, lower-cased token. */
  lemma PlanNameQuery(docs: seq<Pokemon>, ext: Externals, token: string)
    ensures ByName(NameKey(token)) in Plan(docs, ext, token) <==>
      !NumberHit(docs, ext, token) && !IdHit(docs, ext, token)
    ensures forall q :: q in Plan(docs, ext, token) && q.ByName? ==> q.name == NameKey(token)
  {
    var plan := Plan(docs, ext, token);
    if NumberHit(docs, ext, token) || IdHit(docs, ext, token) {
      assert forall q :: q in plan ==> !q.ByName?;
    } else {
      assert plan[|plan| - 1] == ByName(NameKey(token));
    }
  }

  /** Numeric first: a record whose number the token denotes is returned,
      whatever ids and names there are. */
  lemma ResolveByNumber(docs: seq<Pokemon>, ext: Externals, token: string, p: Pokemon)
    requires Consistent(docs) && p in docs
    requires ext.isNumeric(token) && p.no == ext.toNo(token)
    ensures Resolve(docs, ext, token) == Some(p)
  {
    FindMember(docs, p);
  }

  /** Id second: with no number match, a valid ObjectId token returns the
      record with that id. */
  lemma ResolveById(docs: seq<Pokemon>, ext: Externals, token: string, p: Pokemon)
    requires Consistent(docs) && p in docs
    requires !NumberHit(docs, ext, token)
    requires ext.isValidObjectId(token) && p.id == token
    ensures Resolve(docs, ext, token) == Some(p)
  {
    FindMember(docs, p);
  }

  /** Name last: with neither a number nor an id match, the record whose name
      is the trimmed, lower-cased token is returned. */
  lemma ResolveByName(docs: seq<Pokemon>, ext: Externals, token: string, p: Pokemon)
    requires Consistent(docs) && p in docs
    requires !NumberHit(docs, ext, token) && !IdHit(docs, ext, token)
    requires p.name == NameKey(token)
    ensures Resolve(docs, ext, token) == Some(p)
  {
    FindMember(docs, p);
  }

  /** Every record returned is addressed by the token under the scheme that
      was tried, and every earlier scheme matched nothing. */
  lemma ResolveSound(docs: seq<Pokemon>, ext: Externals, token: string)
    ensures var r := Resolve(docs, ext, token);
      r.Some? ==>
        || (ext.isNumeric(token) && r.value.no == ext.toNo(token))
        || (!NumberHit(docs, ext, token) && ext.isValidObjectId(token) && r.value.id == token)
        || (!NumberHit(docs, ext, token) && !IdHit(docs, ext, token) && r.value.name == NameKey(token))
  {
  }

  /** The look-up fails exactly when no scheme addresses any record. */
  lemma ResolveNone(docs: seq<Pokemon>, ext: Externals, token: string)
    ensures Resolve(docs, ext, token).None? <==>
      !NumberHit(docs, ext, token) && !IdHit(docs, ext, token) && !NameHit(docs, token)
  {
  }

  /** `" Pikachu "` is looked up under the name `"pikachu"`. */
  lemma NameKeyExample()
    ensures NameKey(" Pikachu ") == "pikachu"
  {
    LowerExample();
    assert " pikachu " == " " + "pikachu" + " ";
    TrimPadded(" ", "pikachu", " ");
  }

  /** So when neither the number nor the id query applies, `" Pikachu "`
      finds the record named `"pikachu"`. */
  lemma ResolvePaddedName(docs: seq<Pokemon>, ext: Externals, p: Pokemon)
    requires Consistent(docs) && p in docs && p.name == "pikachu"
    requires !NumberHit(docs, ext, " Pikachu ") && !IdHit(docs, ext, " Pikachu ")
    ensures Resolve(docs, ext, " Pikachu ") == Some(p)
  {
    NameKeyExample();
    ResolveByName(docs, ext, " Pikachu ", p);
  }
}
