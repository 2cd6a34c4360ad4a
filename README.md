# Nest-Pokedex `PokemonService`, modelled in Dafny

This project models the Pokemon catalog service of the Nest-Pokedex backend
(`src/pokemon/pokemon.service.ts`): creating, listing, finding, updating and
removing Pokemon documents in a MongoDB collection, with the name normalised
to lower case and store failures turned into HTTP exceptions.

- `wrappers.dfy` (`Wrappers`): `Option` and `Result`.
- `text.dfy` (`Text`): lower-casing (ASCII) and ECMAScript `trim`, with
  idempotence and "trim undoes padding".
- `entity.dfy` (`Entity`): the Pokemon document (`_id`, `no`, `name`, other
  fields), the update patch, and the object spread `{ ...doc, ...patch }`.
- `store.dfy` (`Store`): the injected mongoose model as an in-memory
  collection in natural order (`PokemonModel`, a class whose `docs` field its
  write methods replace). Its unique indexes on `_id`, `no` and `name` are the
  invariant `Consistent`; a write that would break one fails with code 11000.
  The single-document queries return the first match.
- `resolver.dfy` (`Resolver`): what `findOne` asks the store and what it
  returns. `Plan` is the list of queries sent (number, then id, then name,
  stopping at the first hit) and `Resolve` is the record returned.
- `service.dfy` (`Service`): `PokemonService` with `Create`, `FindAll`,
  `FindOne`, `Update` and `Remove`, the request DTOs as objects the service
  mutates in place, `HandleExceptions`, and the invariant that every stored
  name is lower case.

Library behaviour that the source calls but does not define is passed in:
`Resolver.Externals` holds JavaScript's `!isNaN(+token)`, the numeric cast
mongoose applies to `{ no: token }`, and mongoose's `isValidObjectId`, as
uninterpreted functions. The id of a new document (`newId`) is a parameter
of `Create`. A write that the store rejects, before making it, for a reason
other than the unique indexes (schema validation, a write error the server
reports) is a parameter `fault` of the writing methods; like a duplicate
key, it goes through `HandleExceptions`, which classifies it by its code
alone.

Stored documents are well formed: `_id`, `no` and `name` are their own
fields and never reappear among the other fields (`Store.WellFormed`, part
of `PokemonModel.Valid`). The request bodies keep the same rule.

Two consequences of the source worth stating:
- A duplicate key (code 11000) becomes a `BadRequestException` (lines 92-95).
- `update` lower-cases the patch name in place (line 63) before the spread
  (line 74), so `results` carries the lower-cased name;
  `Service.PokemonService.Update` and `Service.OverlayNormalizedName` state
  this.

## Model

| member | source | states |
|---|---|---|
| `Text.Lower` | src/pokemon/pokemon.service.ts:20 | lower-casing keeps the length and maps each character through the ASCII case map |
| `Text.LowerIdempotent` | src/pokemon/pokemon.service.ts:63 | lower-casing an already lower-cased name changes nothing |
| `Text.LowerExample` | src/pokemon/pokemon.service.ts:47 | `toLowerCase` turns `" Pikachu "` into `" pikachu "`, keeping the spaces |
| `Text.Trim` | src/pokemon/pokemon.service.ts:47 | the trimmed token is empty exactly when the token is all white space; otherwise it neither starts nor ends with white space; trimming a lower-case string gives a lower-case string |
| `Text.TrimPadded` | src/pokemon/pokemon.service.ts:47 | a core with no white space at its ends, padded with white space on both sides, trims back to that core |
| `Text.TrimIdempotent` | src/pokemon/pokemon.service.ts:47 | trimming twice equals trimming once |
| `Entity.Overlay` | src/pokemon/pokemon.service.ts:72-75 | in the spread result, every field the patch carries wins, every other field keeps the record's value, and the id is the record's; when neither side's `attrs` repeats `_id`, `no` or `name`, neither does the result's |
| `Entity.OverlayEmpty` | src/pokemon/pokemon.service.ts:72-75 | an empty patch leaves the record unchanged |
| `Entity.OverlayThen` | src/pokemon/pokemon.service.ts:72-75 | overlaying two patches in turn equals overlaying their combination, with later fields winning |
| `Entity.OverlayIdempotent` | src/pokemon/pokemon.service.ts:72-75 | overlaying the same patch twice equals overlaying it once |
| `Store.FirstIndex` | src/pokemon/pokemon.service.ts:38-48 | a query's hit is the first matching record; no hit means no record matches |
| `Store.FindFirst` | src/pokemon/pokemon.service.ts:38-48 | a single-document query returns a stored record that matches, and finds nothing exactly when no stored record matches |
| `Store.FindByNo` | src/pokemon/pokemon.service.ts:38 | `findOne({ no })` returns a stored record with that number, and finds nothing exactly when no record has it |
| `Store.FindById` | src/pokemon/pokemon.service.ts:42 | `findById` returns the stored record with that id, and finds nothing exactly when no record has it |
| `Store.FindByName` | src/pokemon/pokemon.service.ts:46-48 | `findOne({ name })` returns a stored record with that name, and finds nothing exactly when no record has it |
| `Store.FindStored` | src/pokemon/pokemon.service.ts:38-48 | with unique keys, each stored record is what the number, id and name queries return for its own number, id and name |
| `Store.Without` | src/pokemon/pokemon.service.ts:83 | after removal by id, a record remains exactly when it was stored and has another id |
| `Store.WithoutAbsent` | src/pokemon/pokemon.service.ts:82-88 | removing an id that no record has leaves the collection as it was |
| `Store.WithoutStored` | src/pokemon/pokemon.service.ts:82-88 | removing a stored id takes out exactly that record and keeps all others in their order |
| `Store.WithoutConsistent` | src/pokemon/pokemon.service.ts:83 | removal keeps the unique indexes |
| `Store.DuplicateOnInsert` | src/pokemon/pokemon.service.ts:23-27 | an insert reports a duplicate exactly when some stored record shares the id, the number or the name; the reported key is the shared one |
| `Store.DuplicateOnUpdate` | src/pokemon/pokemon.service.ts:67 | a rewrite reports a duplicate exactly when ANOTHER record shares the number or the name, never the id; the reported key is one such other record actually shares |
| `Store.InsertConsistent` | src/pokemon/pokemon.service.ts:23 | appending a record with no duplicate key keeps the unique indexes |
| `Store.ReplaceById` | src/pokemon/pokemon.service.ts:67 | the rewrite replaces the records with that id and keeps every other record at its position |
| `Store.ReplaceConsistent` | src/pokemon/pokemon.service.ts:67 | rewriting a stored record without a duplicate changes only its position and keeps the unique indexes |
| `Store.PokemonModel.Create` | src/pokemon/pokemon.service.ts:23 | the store appends the document, or fails with code 11000 and the clashing key and changes nothing, or passes on the rejection given as `fault` and changes nothing; unique indexes and well-formed documents kept |
| `Store.PokemonModel.UpdateOne` | src/pokemon/pokemon.service.ts:67 | the store overlays the patch on the record with that id, or fails with 11000 and changes nothing, or passes on the rejection given as `fault` and changes nothing; unique indexes and well-formed documents kept |
| `Store.PokemonModel.FindByIdAndRemove` | src/pokemon/pokemon.service.ts:83 | the store removes the record with that id, if any, and returns it |
| `Resolver.Run` | src/pokemon/pokemon.service.ts:38-48 | one query sent to the store returns a stored record that answers it, and nothing exactly when no stored record does |
| `Resolver.NameKey` | src/pokemon/pokemon.service.ts:47 | the name a token is looked up under is lower case and neither starts nor ends with white space |
| `Resolver.Plan` | src/pokemon/pokemon.service.ts:38-48 | one to three queries are sent, and every query but the last found nothing |
| `Resolver.Resolve` | src/pokemon/pokemon.service.ts:34-54 | a resolved record is a stored record |
| `Resolver.PlanShortCircuits` | src/pokemon/pokemon.service.ts:38-48 | one to three queries are sent, every query before the last found nothing, and the result is what the last query found |
| `Resolver.PlanNumberHit` | src/pokemon/pokemon.service.ts:38-45 | a numeric token that matches a number sends only the number query: no id or name query is made |
| `Resolver.PlanIdQuery` | src/pokemon/pokemon.service.ts:41-42 | the id query is sent exactly when the token is a valid ObjectId and the number step found nothing |
| `Resolver.PlanNameQuery` | src/pokemon/pokemon.service.ts:45-48 | the name query is sent exactly when both earlier steps found nothing, and it asks for the lower-cased, trimmed token |
| `Resolver.ResolveByNumber` | src/pokemon/pokemon.service.ts:38 | a numeric token denoting a stored number returns that record, whatever ids and names exist |
| `Resolver.ResolveById` | src/pokemon/pokemon.service.ts:41-42 | with no number match, a valid ObjectId token returns the record with that id |
| `Resolver.ResolveByName` | src/pokemon/pokemon.service.ts:45-48 | with neither a number nor an id match, the record named by the lower-cased, trimmed token is returned |
| `Resolver.ResolveSound` | src/pokemon/pokemon.service.ts:34-54 | a returned record matches the token under the scheme that answered, and every earlier scheme matched nothing |
| `Resolver.ResolveNone` | src/pokemon/pokemon.service.ts:50-52 | the look-up fails exactly when no scheme addresses any stored record |
| `Resolver.NameKeyExample` | src/pokemon/pokemon.service.ts:47 | `" Pikachu "` is looked up under the name `"pikachu"` |
| `Resolver.ResolvePaddedName` | src/pokemon/pokemon.service.ts:45-48 | when the number and id steps miss, `" Pikachu "` finds the record named `"pikachu"` |
| `Service.NotFoundMessage` | src/pokemon/pokemon.service.ts:52 | the NotFound message contains the token exactly as the caller gave it |
| `Service.UpdatedMessage` | src/pokemon/pokemon.service.ts:71 | the update message contains the pre-update record's name |
| `Service.HandleExceptions` | src/pokemon/pokemon.service.ts:91-100 | every store failure becomes an exception, never NotFound: BadRequest carrying the key exactly for code 11000, otherwise InternalServerError with the fixed message |
| `Service.NormalizeName` | src/pokemon/pokemon.service.ts:62-63 | a present patch name becomes its lower-case form (the truthiness test skips only the empty name, which lower-casing keeps); an absent one stays absent |
| `Service.AppendLowerNames` | src/pokemon/pokemon.service.ts:19-24 | storing a record with a lower-case name keeps every stored name lower case |
| `Service.ReplaceLowerNames` | src/pokemon/pokemon.service.ts:62-67 | rewriting a record with a lower-case name keeps every stored name lower case |
| `Service.OverlayNormalizedName` | src/pokemon/pokemon.service.ts:62-75 | the returned view's name is the lower-cased patch name when the patch has one, and is lower case in any case |
| `Service.CreatePokemonDto.constructor` | src/pokemon/pokemon.service.ts:19-20 | the create request body, a mutable object holding the given number, name and other fields |
| `Service.UpdatePokemonDto.constructor` | src/pokemon/pokemon.service.ts:57-63 | the update request body, a mutable object whose fields may each be absent |
| `Service.UpdatePokemonDto.AsPatch` | src/pokemon/pokemon.service.ts:74 | the spread `...updatePokemonDto` contributes exactly the request's fields, absent ones staying absent |
| `Service.PokemonService.constructor` | src/pokemon/pokemon.service.ts:15-17 | the service keeps the injected store handle (and the library checks) it is given |
| `Service.PokemonService.Create` | src/pokemon/pokemon.service.ts:19-28 | the request's name is lower-cased in place; on success the stored and returned document is the request with that name and the new id; a duplicate gives BadRequest, and any other store failure goes through `HandleExceptions`, with the store unchanged; stored names stay lower case |
| `Service.PokemonService.FindAll` | src/pokemon/pokemon.service.ts:30-32 | every stored record, in store order |
| `Service.PokemonService.FindOne` | src/pokemon/pokemon.service.ts:34-55 | sends exactly the queries of `Plan`, returns the resolved record, or NotFound quoting the token; it changes nothing |
| `Service.PokemonService.Update` | src/pokemon/pokemon.service.ts:57-80 | an unresolved token gives NotFound with store and request unchanged; otherwise the patch name is lower-cased in place and the store rewrites the record, returning ok, a message with the old name and the old record overlaid with the patch; a duplicate gives BadRequest, and any other store failure goes through `HandleExceptions`, with the store unchanged |
| `Service.PokemonService.Remove` | src/pokemon/pokemon.service.ts:82-89 | always returns `{ ok: true, message: "Pokemon deleted" }`; afterwards the record with that id is gone and all other records are unchanged and in order; stored names stay lower case |

## Left out

- `src/seed/seed.service.ts`: an HTTP GET to an external API that returns the listing. It is network I/O with no logic.
- JavaScript's `isNaN(+token)`, the numeric cast in `{ no: token }` and mongoose's `isValidObjectId` are uninterpreted (`Resolver.Externals`). Which strings are numeric (`""`, `" "`, `"0x1A"`) and which are ObjectIds is not modelled. Catalog numbers are integers, so non-integer numbers are not modelled.
- The cast of a valid id string to an ObjectId is the identity: a record's id is compared with the token as a string.
- `Text.Lower` covers ASCII letters only. Full Unicode case mapping and the locale of `toLocaleLowerCase` are not modelled. `toLocaleLowerCase` (create, update) and `toLowerCase` (findOne) are the same function here.
- Store.PokemonModel.Create: a failure after which the write may already have happened (a lost connection, a time-out, a retry by the driver) is not modelled. `fault` is a write the store rejects before making it, so the store is unchanged.
- Store.PokemonModel.UpdateOne: a failure after which the update may already have happened (a lost connection, a time-out, a retry by the driver) is not modelled, for the same reason as `Create`.
- Service.PokemonService.Create and Service.PokemonService.Update: "with the store unchanged" holds for the rejected writes `fault` stands for, not for a connection lost after the write.
- Store failures of the read queries in `findOne` and `findAll` are not modelled. Those queries always answer.
- Service.PokemonService.Remove: does not model a failure of `findByIdAndRemove`, including the CastError mongoose raises for an id that is not a valid ObjectId. `remove` does not catch these, so they reach the caller.
- Service.HandleExceptions: `BadRequest` carries the duplicated key itself, not the `JSON.stringify(error.keyValue)` text of the message.
- `Store.DuplicateOnInsert` checks `_id`, then `name`, then `no`. Which index MongoDB reports first when several clash is a store detail. The model fixes that order.
- `toJSON` serialisation and the `__v` version field are not modelled. The returned view is the record itself.
- Request-body validation happens before the service is called and is not modelled. Mongoose schema validation runs inside the store's `create` and `updateOne`; it is not modelled, and its failures can be passed in as `fault`.
- async/await, NestJS decorators and dependency injection are not modelled. The store handle and the library checks are given to the service's constructor.
- Concurrent requests are not modelled. Each method runs alone against the store.
