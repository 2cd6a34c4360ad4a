/** `PokemonService`: create, list, find, update and remove Pokemon over the
    injected store, with name normalisation and the translation of store
    failures into HTTP exceptions. */
module Service {
  import opened Wrappers
  import opened Text
  import opened Entity
  import opened Store
  import opened Resolver

  /** The exceptions the service throws (NestJS `NotFoundException`,
      `BadRequestException`, `InternalServerErrorException`). */
  datatype HttpError =
    | NotFound(message: string)
    | BadRequest(keyValue: Option<KeyValue>)
    | InternalServerError(message: string)

  const CREATE_FAILED := "Can't create Pokemon - Check server logs"
  const DELETED := "Pokemon deleted"

  /** The NotFound message; it quotes the token the caller gave. */
  function NotFoundMessage(token: string): (r: string)
    ensures Contains(r, token)
  {
    ContainsMiddle("Pokemon with id ", token, " not found");
    "Pokemon with id " + token + " not found"
  }

  /** The update message; it names the record as it was before the update. */
  function UpdatedMessage(name: string): (r: string)
    ensures Contains(r, name)
  {
    ContainsMiddle("Pokemon ", name, " updated");
    "Pokemon " + name + " updated"
  }

  /** `handleExceptions`: every store failure becomes an exception; a
      duplicate key is the caller's fault (BadRequest, with the key), any
      other failure the server's. */
  function HandleExceptions(error: StoreError): (r: HttpError)
    ensures !r.NotFound?
    ensures r.BadRequest? <==> error.code == DUPLICATE_KEY
    ensures r.BadRequest? ==> r.keyValue == error.keyValue
    ensures r.InternalServerError? ==> r.message == CREATE_FAILED
  {
    if error.code == DUPLICATE_KEY then BadRequest(error.keyValue)
    else InternalServerError(CREATE_FAILED)
  }

  /** What update does to the patch name: `if (dto.name) dto.name =
      dto.name.toLocaleLowerCase()`. The truthiness test skips the empty
      name, which lower-casing would leave as it is anyway. */
  function NormalizeName(name: Option<string>): (r: Option<string>)
    ensures r.Some? <==> name.Some?
    ensures name.Some? ==> r.value == Lower(name.value) && IsLower(r.value)
  {
    if name.Some? && name.value != "" then Some(Lower(name.value)) else name
  }

  /** Every stored name is lower case. */
  predicate LowerNames(docs: seq<Pokemon>)
  {
    forall p :: p in docs ==> IsLower(p.name)
  }

  /** Storing a lower-case record keeps every name lower case. */
  lemma AppendLowerNames(docs: seq<Pokemon>, doc: Pokemon)
    requires LowerNames(docs) && IsLower(doc.name)
    ensures LowerNames(docs + [doc])
  {
  }

  /** Replacing a record by a lower-case one keeps every name lower case. */
  lemma ReplaceLowerNames(docs: seq<Pokemon>, id: Id, doc: Pokemon)
    requires LowerNames(docs) && IsLower(doc.name)
    ensures LowerNames(ReplaceById(docs, id, doc))
  {
    var r := ReplaceById(docs, id, doc);
    forall p | p in r ensures IsLower(p.name) {
      var i :| 0 <= i < |r| && r[i] == p;
      if docs[i].id != id { assert docs[i] in docs; }
    }
  }

  /** The overlay of a normalised patch on a record with a lower-case name
      has a lower-case name: the patch name wins and is the lower-cased one. */
  lemma OverlayNormalizedName(p: Pokemon, no: Option<int>, name: Option<string>, attrs: map<string, string>)
    requires IsLower(p.name)
    ensures var r := Overlay(p, Patch(no, NormalizeName(name), attrs));
      IsLower(r.name) && (name.Some? ==> r.name == Lower(name.value))
  {
  }

  /** The body of a create request, mutated in place by `create`. */
  class CreatePokemonDto {
    var no: int
    var name: string
    var attrs: map<string, string>

    /** A JavaScript object has one `no` and one `name` property. */
    ghost predicate Valid()
      reads this
    {
      OtherFields(attrs)
    }

    constructor (no: int, name: string, attrs: map<string, string>)
      requires OtherFields(attrs)
      ensures Valid()
      ensures this.no == no && this.name == name && this.attrs == attrs
    {
      this.no, this.name, this.attrs := no, name, attrs;
    }
  }

  /** The body of an update request (every field optional), mutated in place
      by `update`. */
  class UpdatePokemonDto {
    var no: Option<int>
    var name: Option<string>
    var attrs: map<string, string>

    /** A JavaScript object has at most one `no` and one `name` property. */
    ghost predicate Valid()
      reads this
    {
      OtherFields(attrs)
    }

    constructor (no: Option<int>, name: Option<string>, attrs: map<string, string>)
      requires OtherFields(attrs)
      ensures Valid()
      ensures this.no == no && this.name == name && this.attrs == attrs
    {
      this.no, this.name, this.attrs := no, name, attrs;
    }

    /** The fields the object spread `...dto` contributes: exactly the
        request's fields, absent ones staying absent. */
    function AsPatch(): (r: Patch)
      reads this
      ensures r.no == no && r.name == name && r.attrs == attrs
    {
      Patch(no, name, attrs)
    }
  }

  /** What `update` returns on success. */
  datatype UpdateResult = UpdateResult(ok: bool, message: string, results: Pokemon)

  /** What `remove` returns. */
  datatype RemoveResult = RemoveResult(ok: bool, message: string)

  class PokemonService {
    const pokemonModel: PokemonModel
    const ext: Externals

    constructor (pokemonModel: PokemonModel, ext: Externals)
      ensures this.pokemonModel == pokemonModel && this.ext == ext
    {
      this.pokemonModel, this.ext := pokemonModel, ext;
    }

    /** `create`: lower-cases the request's name in place, then inserts the
        request as a new document with the store-assigned id `newId`. */
    method Create(dto: CreatePokemonDto, newId: Id, fault: Option<StoreError>) returns (r: Result<Pokemon, HttpError>)
      requires pokemonModel.Valid() && dto.Valid()
      modifies dto, pokemonModel
      ensures pokemonModel.Valid() && dto.Valid()
      ensures dto.name == Lower(old(dto.name)) && dto.no == old(dto.no) && dto.attrs == old(dto.attrs)
      ensures
        var doc := Pokemon(newId, dto.no, dto.name, dto.attrs);
        var dup := DuplicateOnInsert(old(pokemonModel.docs), doc);
        && (fault.Some? ==>
              r == Err(HandleExceptions(fault.value)) && pokemonModel.docs == old(pokemonModel.docs))
        && (fault.None? && dup.Some? ==>
              r == Err(BadRequest(dup)) && pokemonModel.docs == old(pokemonModel.docs))
        && (fault.None? && dup.None? ==>
              r == Ok(doc) && pokemonModel.docs == old(pokemonModel.docs) + [doc])
      ensures LowerNames(old(pokemonModel.docs)) ==> LowerNames(pokemonModel.docs)
    {
      dto.name := Lower(dto.name);
      var doc := Pokemon(newId, dto.no, dto.name, dto.attrs);
      LowerIsLower(old(dto.name));
      if LowerNames(pokemonModel.docs) {
        AppendLowerNames(pokemonModel.docs, doc);
      }
      var err := pokemonModel.Create(doc, fault);
      if err.Some? {
        return Err(HandleExceptions(err.value));
      }
      r := Ok(doc);
    }

    /** `findAll`: every stored record, in the store's order. */
    method FindAll() returns (r: seq<Pokemon>)
      ensures r == pokemonModel.docs
    {
      r := pokemonModel.docs;
    }

    /** `findOne`: tries the token as a catalog number, then as a store id,
        then as a name, keeping the first record found; fails with NotFound
        quoting the token. `issued` lists the queries sent to the store. */
    method FindOne(token: string) returns (r: Result<Pokemon, HttpError>, ghost issued: seq<Query>)
      ensures issued == Plan(pokemonModel.docs, ext, token)
      ensures Resolve(pokemonModel.docs, ext, token).Some? ==>
        r == Ok(Resolve(pokemonModel.docs, ext, token).value)
      ensures Resolve(pokemonModel.docs, ext, token).None? ==>
        r == Err(NotFound(NotFoundMessage(token)))
    {
      var docs := pokemonModel.docs;
      var pokemon: Option<Pokemon> := None;
      issued := [];

      if ext.isNumeric(token) {
        var q := ByNo(ext.toNo(token));
        issued := issued + [q];
        pokemon := Run(docs, q);
      }
      assert pokemon.Some? <==> NumberHit(docs, ext, token);
      ghost var afterNumber := issued;

      if pokemon.None? && ext.isValidObjectId(token) {
        var q := ById(token);
        issued := issued + [q];
        pokemon := Run(docs, q);
      }
      assert pokemon.Some? <==> NumberHit(docs, ext, token) || IdHit(docs, ext, token);
      assert NumberHit(docs, ext, token) ==> issued == afterNumber;
      assert !NumberHit(docs, ext, token) && IdHit(docs, ext, token) ==> issued == afterNumber + [ById(token)];

      if pokemon.None? {
        var q := ByName(NameKey(token));
        issued := issued + [q];
        pokemon := Run(docs, q);
      }

      assert issued == Plan(docs, ext, token);
      assert pokemon == Run(docs, issued[|issued| - 1]);
      if pokemon.None? {
        return Err(NotFound(NotFoundMessage(token))), issued;
      }
      r := Ok(pokemon.value);
    }

    /** `update`: resolves the token first (NotFound propagates and nothing
        changes), lower-cases a non-empty patch name in place, writes the
        patch, and returns the old record overlaid with the patch. */
    method Update(token: string, dto: UpdatePokemonDto, fault: Option<StoreError>) returns (r: Result<UpdateResult, HttpError>)
      requires pokemonModel.Valid() && dto.Valid()
      modifies dto, pokemonModel
      ensures pokemonModel.Valid() && dto.Valid()
      ensures LowerNames(old(pokemonModel.docs)) ==> LowerNames(pokemonModel.docs)
      ensures
        var found := Resolve(old(pokemonModel.docs), ext, token);
        found.None? ==>
          && r == Err(NotFound(NotFoundMessage(token)))
          && pokemonModel.docs == old(pokemonModel.docs)
          && dto.AsPatch() == old(dto.AsPatch())
      ensures
        var found := Resolve(old(pokemonModel.docs), ext, token);
        found.Some? ==>
          var patch := Patch(old(dto.no), NormalizeName(old(dto.name)), old(dto.attrs));
          var updated := Overlay(found.value, patch);
          var dup := DuplicateOnUpdate(old(pokemonModel.docs), updated);
          && dto.AsPatch() == patch
          && (fault.Some? ==>
                r == Err(HandleExceptions(fault.value)) && pokemonModel.docs == old(pokemonModel.docs))
          && (fault.None? && dup.Some? ==>
                r == Err(BadRequest(dup)) && pokemonModel.docs == old(pokemonModel.docs))
          && (fault.None? && dup.None? ==>
                && r == Ok(UpdateResult(true, UpdatedMessage(found.value.name), updated))
                && pokemonModel.docs == ReplaceById(old(pokemonModel.docs), found.value.id, updated))
    {
      ghost var issued;
      var found;
      found, issued := FindOne(token);
      if found.Err? {
        return Err(found.error);
      }
      var pokemon := found.value;

      if dto.name.Some? && dto.name.value != "" {
        dto.name := Some(Lower(dto.name.value));
      }

      var patch := dto.AsPatch();
      FindMember(pokemonModel.docs, pokemon);
      if LowerNames(pokemonModel.docs) {
        OverlayNormalizedName(pokemon, old(dto.no), old(dto.name), old(dto.attrs));
        ReplaceLowerNames(pokemonModel.docs, pokemon.id, Overlay(pokemon, patch));
      }
      var err := pokemonModel.UpdateOne(pokemon.id, patch, fault);
      if err.Some? {
        return Err(HandleExceptions(err.value));
      }
      r := Ok(UpdateResult(true, UpdatedMessage(pokemon.name), Overlay(pokemon, patch)));
    }

    /** `remove`: deletes the record with that store id, if there is one, and
        reports success either way. */
    method Remove(id: Id) returns (r: RemoveResult)
      requires pokemonModel.Valid()
      modifies pokemonModel
      ensures pokemonModel.Valid()
      ensures r == RemoveResult(true, DELETED)
      ensures pokemonModel.docs == Without(old(pokemonModel.docs), id)
      ensures LowerNames(old(pokemonModel.docs)) ==> LowerNames(pokemonModel.docs)
    {
      var removed := pokemonModel.FindByIdAndRemove(id);
      r := RemoveResult(true, DELETED);
    }
  }
}
