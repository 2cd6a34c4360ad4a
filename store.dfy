/** The document store the service is given (a mongoose `Model<Pokemon>`),
    as an in-memory collection in the store's natural order. The store keeps
    `_id`, `no` and `name` unique and reports a violation as a duplicate-key
    error; the queries the service uses return the first match. */
module Store {
  import opened Wrappers
  import opened Entity

  /** MongoDB's error code for a unique-index violation. */
  const DUPLICATE_KEY: int := 11000

  /** The key whose unique index a write would violate (`error.keyValue`). */
  datatype KeyValue = IdValue(id: Id) | NameValue(name: string) | NoValue(no: int)

  /** A failure reported by the store: its code and, for a duplicate key,
      the offending key. */
  datatype StoreError = StoreError(code: int, keyValue: Option<KeyValue>)

  /** Two records that may both be stored: they differ on every unique key. */
  predicate Distinct(a: Pokemon, b: Pokemon)
  {
    a.id != b.id && a.no != b.no && a.name != b.name
  }

  /** The store's unique indexes hold: no two records share an id, a number
      or a name. */
  predicate Consistent(docs: seq<Pokemon>)
  {
    forall i, j :: 0 <= i < j < |docs| ==> Distinct(docs[i], docs[j])
  }

  /** Position of the first record that `matches`, if any. */
  function FirstIndex(docs: seq<Pokemon>, matches: Pokemon -> bool): (r: Option<nat>)
    ensures r.Some? ==> r.value < |docs| && matches(docs[r.value])
    ensures r.Some? ==> forall j :: 0 <= j < r.value ==> !matches(docs[j])
    ensures r.None? ==> forall j :: 0 <= j < |docs| ==> !matches(docs[j])
  {
    if docs == [] then None
    else if matches(docs[0]) then Some(0)
    else match FirstIndex(docs[1..], matches)
      case None => None
      case Some(k) => Some(k + 1)
  }

  /** A single-document query: the first record that `matches`. */
  function FindFirst(docs: seq<Pokemon>, matches: Pokemon -> bool): (r: Option<Pokemon>)
    ensures r.Some? ==> r.value in docs && matches(r.value)
    ensures r.None? <==> forall p :: p in docs ==> !matches(p)
  {
    match FirstIndex(docs, matches)
    case Some(i) => Some(docs[i])
    case None => None
  }

  /** When exactly one record matches, the query returns that record. */
  lemma FindFirstSingle(docs: seq<Pokemon>, matches: Pokemon -> bool, i: nat)
    requires i < |docs| && matches(docs[i])
    requires forall j :: 0 <= j < |docs| && j != i ==> !matches(docs[j])
    ensures FindFirst(docs, matches) == Some(docs[i])
  {
    var k := FirstIndex(docs, matches);
    assert k.Some? && k.value == i;
  }

  /** `findOne({ no })` */
  function FindByNo(docs: seq<Pokemon>, no: int): (r: Option<Pokemon>)
    ensures r.Some? ==> r.value in docs && r.value.no == no
    ensures r.None? <==> forall p :: p in docs ==> p.no != no
  {
    FindFirst(docs, (p: Pokemon) => p.no == no)
  }

  /** `findById(id)` */
  function FindById(docs: seq<Pokemon>, id: Id): (r: Option<Pokemon>)
    ensures r.Some? ==> r.value in docs && r.value.id == id
    ensures r.None? <==> forall p :: p in docs ==> p.id != id
  {
    FindFirst(docs, (p: Pokemon) => p.id == id)
  }

  /** `findOne({ name })` */
  function FindByName(docs: seq<Pokemon>, name: string): (r: Option<Pokemon>)
    ensures r.Some? ==> r.value in docs && r.value.name == name
    ensures r.None? <==> forall p :: p in docs ==> p.name != name
  {
    FindFirst(docs, (p: Pokemon) => p.name == name)
  }

  /** In a consistent store each stored record is found by its own number,
      by its own id and by its own name. */
  lemma FindStored(docs: seq<Pokemon>, i: nat)
    requires Consistent(docs) && i < |docs|
    ensures FindByNo(docs, docs[i].no) == Some(docs[i])
    ensures FindById(docs, docs[i].id) == Some(docs[i])
    ensures FindByName(docs, docs[i].name) == Some(docs[i])
  {
    var p := docs[i];
    forall j | 0 <= j < |docs| && j != i
      ensures Distinct(docs[j], p)
    {
      if j < i { assert Distinct(docs[j], docs[i]); } else { assert Distinct(docs[i], docs[j]); }
    }
    FindFirstSingle(docs, (q: Pokemon) => q.no == p.no, i);
    FindFirstSingle(docs, (q: Pokemon) => q.id == p.id, i);
    FindFirstSingle(docs, (q: Pokemon) => q.name == p.name, i);
  }

  /** The same, for a record given by value. */
  lemma FindMember(docs: seq<Pokemon>, p: Pokemon)
    requires Consistent(docs) && p in docs
    ensures FindByNo(docs, p.no) == Some(p)
    ensures FindById(docs, p.id) == Some(p)
    ensures FindByName(docs, p.name) == Some(p)
  {
    var i :| 0 <= i < |docs| && docs[i] == p;
    FindStored(docs, i);
  }

  /** The records whose id is not `id`, in their order (`findByIdAndRemove`). */
  function Without(docs: seq<Pokemon>, id: Id): (r: seq<Pokemon>)
    ensures |r| <= |docs|
    ensures forall p :: p in r <==> p in docs && p.id != id
  {
    if docs == [] then []
    else if docs[0].id == id then Without(docs[1..], id)
    else [docs[0]] + Without(docs[1..], id)
  }

  /** Removing an id no record has changes nothing. */
  lemma {:induction false} WithoutAbsent(docs: seq<Pokemon>, id: Id)
    requires forall p :: p in docs ==> p.id != id
    ensures Without(docs, id) == docs
  {
    if docs != [] {
      assert docs[0] in docs;
      forall p | p in docs[1..] ensures p.id != id { assert p in docs; }
      WithoutAbsent(docs[1..], id);
      assert docs == [docs[0]] + docs[1..];
    }
  }

  /** In a consistent store, removing the id of the record at position `i`
      removes exactly that record and leaves the others in place. */
  lemma {:induction false} WithoutStored(docs: seq<Pokemon>, i: nat)
    requires Consistent(docs) && i < |docs|
    ensures Without(docs, docs[i].id) == docs[..i] + docs[i + 1..]
  {
    var id := docs[i].id;
    if i == 0 {
      forall p | p in docs[1..] ensures p.id != id {
        var j :| 0 <= j < |docs[1..]| && docs[1..][j] == p;
        assert Distinct(docs[0], docs[j + 1]);
      }
      WithoutAbsent(docs[1..], id);
    } else {
      assert Distinct(docs[0], docs[i]);
      WithoutStored(docs[1..], i - 1);
      assert docs[1..][i - 1] == docs[i];
      assert docs[1..][..i - 1] + docs[1..][i..] == docs[1..i] + docs[i + 1..];
      assert docs[..i] == [docs[0]] + docs[1..i];
    }
  }

  /** Prepending a record keeps the store consistent exactly when it is
      distinct from every record already there. */
  lemma ConsistentCons(p: Pokemon, docs: seq<Pokemon>)
    ensures Consistent([p] + docs) <==> Consistent(docs) && forall q :: q in docs ==> Distinct(p, q)
  {
    var s := [p] + docs;
    if Consistent(s) {
      forall q | q in docs ensures Distinct(p, q) {
        var j :| 0 <= j < |docs| && docs[j] == q;
        assert s[0] == p && s[j + 1] == q;
      }
      forall i, j | 0 <= i < j < |docs| ensures Distinct(docs[i], docs[j]) {
        assert s[i + 1] == docs[i] && s[j + 1] == docs[j];
      }
    }
    if Consistent(docs) && forall q :: q in docs ==> Distinct(p, q) {
      forall i, j | 0 <= i < j < |s| ensures Distinct(s[i], s[j]) {
        if i == 0 { assert s[j] == docs[j - 1]; } else { assert s[i] == docs[i - 1] && s[j] == docs[j - 1]; }
      }
    }
  }

  /** Removing records keeps the unique indexes. */
  lemma {:induction false} WithoutConsistent(docs: seq<Pokemon>, id: Id)
    requires Consistent(docs)
    ensures Consistent(Without(docs, id))
  {
    if docs != [] {
      assert docs == [docs[0]] + docs[1..];
      ConsistentCons(docs[0], docs[1..]);
      WithoutConsistent(docs[1..], id);
      if docs[0].id != id {
        ConsistentCons(docs[0], Without(docs[1..], id));
      }
    }
  }

  /** The key a new record would duplicate, checked in index order
      (`_id`, then `name`, then `no`). */
  function DuplicateOnInsert(docs: seq<Pokemon>, doc: Pokemon): (r: Option<KeyValue>)
    ensures r.None? <==> forall q :: q in docs ==> Distinct(doc, q)
    ensures r == Some(IdValue(doc.id)) <==> exists q :: q in docs && q.id == doc.id
    ensures r.Some? && r.value.NameValue? ==> r.value.name == doc.name && exists q :: q in docs && q.name == doc.name
    ensures r.Some? && r.value.NoValue? ==> r.value.no == doc.no && exists q :: q in docs && q.no == doc.no
  {
    if FindById(docs, doc.id).Some? then Some(IdValue(doc.id))
    else if FindByName(docs, doc.name).Some? then Some(NameValue(doc.name))
    else if FindByNo(docs, doc.no).Some? then Some(NoValue(doc.no))
    else None
  }

  /** The key a rewritten record would duplicate among the OTHER records. */
  function DuplicateOnUpdate(docs: seq<Pokemon>, doc: Pokemon): (r: Option<KeyValue>)
    ensures r.None? <==> forall q :: q in docs && q.id != doc.id ==> q.no != doc.no && q.name != doc.name
    ensures r.Some? ==> !r.value.IdValue?
    ensures r.Some? && r.value.NameValue? ==>
      r.value.name == doc.name && exists q :: q in docs && q.id != doc.id && q.name == doc.name
    ensures r.Some? && r.value.NoValue? ==>
      r.value.no == doc.no && exists q :: q in docs && q.id != doc.id && q.no == doc.no
  {
    DuplicateOnInsert(Without(docs, doc.id), doc)
  }

  /** Appending a record that duplicates no key keeps the store consistent. */
  lemma InsertConsistent(docs: seq<Pokemon>, doc: Pokemon)
    requires Consistent(docs) && DuplicateOnInsert(docs, doc).None?
    ensures Consistent(docs + [doc])
  {
    var s := docs + [doc];
    forall i, j | 0 <= i < j < |s| ensures Distinct(s[i], s[j]) {
      if j == |docs| {
        assert s[i] in docs;
        assert Distinct(doc, s[i]);
      }
    }
  }

  /** Every record with id `id` replaced by `doc` (`updateOne` on a document). */
  function ReplaceById(docs: seq<Pokemon>, id: Id, doc: Pokemon): (r: seq<Pokemon>)
    ensures |r| == |docs|
    ensures forall i :: 0 <= i < |docs| ==> r[i] == if docs[i].id == id then doc else docs[i]
  {
    seq(|docs|, i requires 0 <= i < |docs| => if docs[i].id == id then doc else docs[i])
  }

  /** In a consistent store, replacing a stored record by one with the same id
      that duplicates no other key touches that one position only and keeps
      the store consistent. */
  lemma ReplaceConsistent(docs: seq<Pokemon>, i: nat, doc: Pokemon)
    requires Consistent(docs) && i < |docs| && doc.id == docs[i].id
    requires DuplicateOnUpdate(docs, doc).None?
    ensures ReplaceById(docs, doc.id, doc) == docs[i := doc]
    ensures Consistent(docs[i := doc])
  {
    var s := docs[i := doc];
    forall j | 0 <= j < |docs| && j != i ensures docs[j].id != doc.id && Distinct(doc, docs[j]) {
      if j < i { assert Distinct(docs[j], docs[i]); } else { assert Distinct(docs[i], docs[j]); }
      assert docs[j] in docs;
    }
    forall j, k | 0 <= j < k < |s| ensures Distinct(s[j], s[k]) {
      if j == i { assert Distinct(doc, docs[k]); }
      else if k == i { assert Distinct(doc, docs[j]); }
    }
  }

  /** Every stored document is a well-formed object: the properties `_id`,
      `no` and `name` are its own fields and do not reappear among the
      others. */
  predicate WellFormed(docs: seq<Pokemon>)
  {
    forall p :: p in docs ==> OtherFields(p.attrs)
  }

  /** The store handle. It holds the documents and offers the primitives the
      service calls; every write keeps the unique indexes. */
  class PokemonModel {
    var docs: seq<Pokemon>

    ghost predicate Valid()
      reads this
    {
      Consistent(docs) && WellFormed(docs)
    }

    constructor (docs: seq<Pokemon>)
      requires Consistent(docs) && WellFormed(docs)
      ensures Valid() && this.docs == docs
    {
      this.docs := docs;
    }

    /** `Model.create(doc)`. `fault` stands for a write the store rejects,
        before making it, for a reason outside this model (schema
        validation, a write error the server reports). */
    method Create(doc: Pokemon, fault: Option<StoreError>) returns (err: Option<StoreError>)
      requires Valid() && OtherFields(doc.attrs)
      modifies this
      ensures Valid()
      ensures fault.Some? ==> err == fault && docs == old(docs)
      ensures fault.None? && DuplicateOnInsert(old(docs), doc).Some? ==>
        err == Some(StoreError(DUPLICATE_KEY, DuplicateOnInsert(old(docs), doc))) && docs == old(docs)
      ensures fault.None? && DuplicateOnInsert(old(docs), doc).None? ==>
        err.None? && docs == old(docs) + [doc]
    {
      if fault.Some? {
        return fault;
      }
      var dup := DuplicateOnInsert(docs, doc);
      if dup.Some? {
        return Some(StoreError(DUPLICATE_KEY, dup));
      }
      InsertConsistent(docs, doc);
      docs := docs + [doc];
      err := None;
    }

    /** `document.updateOne(patch)`: overlays `patch` on the record with id
        `id`. A write that would duplicate another record's key is refused;
        an id no record has matches nothing and changes nothing. `fault` is
        a rejected write, as for `Create`. */
    method UpdateOne(id: Id, patch: Patch, fault: Option<StoreError>) returns (err: Option<StoreError>)
      requires Valid() && OtherFields(patch.attrs)
      modifies this
      ensures Valid()
      ensures fault.Some? ==> err == fault && docs == old(docs)
      ensures fault.None? && FindById(old(docs), id).None? ==> err.None? && docs == old(docs)
      ensures fault.None? && FindById(old(docs), id).Some? ==>
        var updated := Overlay(FindById(old(docs), id).value, patch);
        var dup := DuplicateOnUpdate(old(docs), updated);
        && (dup.Some? ==> err == Some(StoreError(DUPLICATE_KEY, dup)) && docs == old(docs))
        && (dup.None? ==> err.None? && docs == ReplaceById(old(docs), id, updated))
    {
      if fault.Some? {
        return fault;
      }
      var target := FindById(docs, id);
      if target.None? {
        return None;
      }
      var updated := Overlay(target.value, patch);
      var dup := DuplicateOnUpdate(docs, updated);
      if dup.Some? {
        return Some(StoreError(DUPLICATE_KEY, dup));
      }
      var i :| 0 <= i < |docs| && docs[i] == target.value;
      ReplaceConsistent(docs, i, updated);
      docs := ReplaceById(docs, id, updated);
      err := None;
    }

    /** `findByIdAndRemove(id)`: removes the record with that id, if any, and
        returns it. */
    method FindByIdAndRemove(id: Id) returns (removed: Option<Pokemon>)
      requires Valid()
      modifies this
      ensures Valid()
      ensures removed == FindById(old(docs), id)
      ensures docs == Without(old(docs), id)
    {
      removed := FindById(docs, id);
      WithoutConsistent(docs, id);
      docs := Without(docs, id);
    }
  }
}
