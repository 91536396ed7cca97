/**
 * SimpleEntityManager: save / find / delete / list over records, built from the
 * EntityMapper and a document store. The store is the in-memory BaseAdapter
 * model; the random UUID that save generates is passed in as `generated`.
 */
module EntityManager {
  import opened Errors
  import opened JavaText
  import opened Values
  import opened DocumentStore
  import opened EntityMapper

  /** The id save persists under: the record's own id unless it is null or blank, else a generated one. */
  function ChooseId(current: Option<string>, generated: string): (id: string)
    ensures current.Some? && !IsBlank(current.value) ==> id == current.value
    ensures current.None? || IsBlank(current.value) ==> id == generated
    ensures !IsBlank(generated) ==> !IsBlank(id)
  {
    if current.None? || IsBlank(current.value) then generated else current.value
  }

  /** What store.getById(collection, id) yields, from the store's state before the call. */
  function GetByIdResult(docs: map<Key, Document>, faulty: set<Hook>, c: string, id: Option<string>): Result<Option<Document>, Error> {
    var invalid := Validate(Some(c), id);
    if invalid.Some? then Err(invalid.value) else Fetched(docs, faulty, c, id.value)
  }

  /** Mapping a throwing function over a list, in order, as a stream's map(...).toList() does. */
  function Collect<T>(rs: seq<Result<T, Error>>): Result<seq<T>, Error> {
    if rs == [] then Ok([])
    else
      match Collect(rs[..|rs| - 1])
      case Err(e) => Err(e)
      case Ok(vs) =>
        match rs[|rs| - 1]
        case Err(e) => Err(e)
        case Ok(v) => Ok(vs + [v])
  }

  /** Collect succeeds exactly when every element does, keeping them in order; otherwise it
      reports the error of the first element that fails. */
  lemma {:induction false} CollectMeaning<T>(rs: seq<Result<T, Error>>)
    ensures Collect(rs).Ok? <==> forall i :: 0 <= i < |rs| ==> rs[i].Ok?
    ensures Collect(rs).Ok? ==> |Collect(rs).value| == |rs| && forall i :: 0 <= i < |rs| ==> Collect(rs).value[i] == rs[i].value
    ensures Collect(rs).Err? ==> exists i :: 0 <= i < |rs| && rs[i] == Err(Collect(rs).error) && forall j :: 0 <= j < i ==> rs[j].Ok?
  {
    if rs != [] {
      var front := rs[..|rs| - 1];
      CollectMeaning(front);
      assert forall i :: 0 <= i < |front| ==> rs[i] == front[i];
      if Collect(front).Err? {
        var i :| 0 <= i < |front| && front[i] == Err(Collect(front).error) && forall j :: 0 <= j < i ==> front[j].Ok?;
        assert rs[i] == Err(Collect(rs).error);
      } else if rs[|rs| - 1].Err? {
        assert rs[|rs| - 1] == Err(Collect(rs).error);
      }
    }
  }

  /** Collect over one more element: the prefix's error stands, else the new element decides. */
  lemma CollectSnoc<T>(rs: seq<Result<T, Error>>, x: Result<T, Error>)
    ensures Collect(rs + [x]) == match Collect(rs)
                                 case Err(e) => Err(e)
                                 case Ok(vs) => (match x case Err(e) => Err(e) case Ok(v) => Ok(vs + [v]))
  {
    assert (rs + [x])[..|rs|] == rs;
  }

  /** An error in a prefix is the error of the whole list: later elements are never looked at. */
  lemma {:induction false} CollectPrefixError<T>(rs: seq<Result<T, Error>>, n: nat)
    requires n <= |rs| && Collect(rs[..n]).Err?
    ensures Collect(rs) == Collect(rs[..n])
    decreases |rs| - n
  {
    if n < |rs| {
      CollectSnoc(rs[..n], rs[n]);
      assert rs[..n + 1] == rs[..n] + [rs[n]];
      CollectPrefixError(rs, n + 1);
    } else {
      assert rs[..n] == rs;
    }
  }

  /** fromMap applied to each listed document, in order. */
  function FromMapEach(t: RecordType, docs: seq<Document>): (rs: seq<Result<seq<Value>, Error>>)
    ensures |rs| == |docs|
  {
    if docs == [] then [] else FromMapEach(t, docs[..|docs| - 1]) + [FromMapResult(t, docs[|docs| - 1])]
  }

  lemma {:induction false} FromMapEachAt(t: RecordType, docs: seq<Document>, i: nat)
    requires i < |docs|
    ensures FromMapEach(t, docs)[i] == FromMapResult(t, docs[i])
  {
    if i < |docs| - 1 {
      var front := docs[..|docs| - 1];
      FromMapEachAt(t, front, i);
      assert FromMapEach(t, docs)[i] == FromMapEach(t, front)[i];
    }
  }

  /** One step along the list: the next element either extends the results or decides the whole. */
  lemma CollectStep<T>(rs: seq<Result<T, Error>>, i: nat, vs: seq<T>)
    requires i < |rs| && Collect(rs[..i]) == Ok(vs)
    ensures rs[i].Ok? ==> Collect(rs[..i + 1]) == Ok(vs + [rs[i].value])
    ensures rs[i].Err? ==> Collect(rs) == Err(rs[i].error)
  {
    assert rs[..i + 1] == rs[..i] + [rs[i]];
    CollectSnoc(rs[..i], rs[i]);
    if rs[i].Err? {
      CollectPrefixError(rs, i + 1);
    }
  }

  /** The loop of list: fromMap on each document, in order, stopping at the first failure. */
  method FromMapAll(t: RecordType, listed: seq<Document>) returns (r: Result<seq<Record>, Error>, ghost vals: seq<seq<Value>>)
    requires WellFormed(t)
    ensures r.Ok? ==> Collect(FromMapEach(t, listed)) == Ok(vals)
    ensures r.Err? ==> Collect(FromMapEach(t, listed)) == Err(r.error)
    ensures r.Ok? ==> |r.value| == |vals| == |listed|
    ensures r.Ok? ==> forall i :: 0 <= i < |listed| ==> fresh(r.value[i])
    ensures r.Ok? ==> forall i :: 0 <= i < |listed| ==> r.value[i].rtype == t && r.value[i].values == vals[i]
  {
    ghost var each := FromMapEach(t, listed);
    var out: seq<Record> := [];
    vals := [];
    var i := 0;
    while i < |listed|
      invariant 0 <= i <= |listed| && |out| == i && |vals| == i
      invariant Collect(each[..i]) == Ok(vals)
      invariant forall j :: 0 <= j < i ==> fresh(out[j])
      invariant forall j :: 0 <= j < i ==> out[j].rtype == t && out[j].values == vals[j]
    {
      var rec := FromMap(t, listed[i]);
      CollectStep(each, i, vals);
      FromMapEachAt(t, listed, i);
      if rec.Err? {
        r := Err(rec.error);
        return;
      }
      out := out + [rec.value];
      vals := vals + [rec.value.values];
      i := i + 1;
    }
    assert each[..i] == each;
    r := Ok(out);
  }

  class SimpleEntityManager {
    const store: MemoryAdapter

    constructor (store: MemoryAdapter)
      ensures this.store == store
    {
      this.store := store;
    }

    /** new SimpleEntityManager(store): a null store is rejected with NullPointerException. */
    static method New(store: MemoryAdapter?) returns (r: Result<SimpleEntityManager, Error>)
      ensures store == null ==> r == Err(NullPointer("store"))
      ensures store != null ==> r.Ok? && fresh(r.value) && r.value.store == store
    {
      if store == null {
        return Err(NullPointer("store"));
      }
      var em := new SimpleEntityManager(store);
      return Ok(em);
    }

    /**
     * save: resolve the collection, then the id; a null or blank id is replaced by the
     * generated one, written into the record; then exactly one updateById with the
     * record's map taken after that write. The same record is returned.
     */
    method Save(entity: Record?, generated: string) returns (r: Result<Record, Error>)
      requires !IsBlank(generated)
      requires entity != null ==> entity.Valid()
      modifies entity, store`docs, store`calls
      ensures entity == null ==> r == Err(NullPointer("entity")) && unchanged(store)
      ensures entity != null ==> entity.Valid()
      ensures entity != null && Collection(entity.rtype).Err? ==>
                r == Err(Collection(entity.rtype).error) && entity.values == old(entity.values) && unchanged(store)
      ensures entity != null && Collection(entity.rtype).Ok? && old(IdValue(entity)).Err? ==>
                r == Err(old(IdValue(entity)).error) && entity.values == old(entity.values) && unchanged(store)
      ensures entity != null && Collection(entity.rtype).Ok? && old(IdValue(entity)).Ok? ==>
                var coll := Collection(entity.rtype).value;
                var current := old(IdValue(entity)).value;
                var id := ChooseId(current, generated);
                var i := IdField(entity.rtype.fields).value;
                var assigns := current.None? || IsBlank(current.value);
                if assigns && !Fits(entity.rtype.fields[i].jtype, Str(id)) then
                  && r == Err(Runtime("Cannot set id", FieldTypeMismatch(entity.rtype.fields[i].name)))
                  && entity.values == old(entity.values) && unchanged(store)
                else
                  var data := Sparse(entity.rtype.fields, entity.values);
                  var invalid := ValidateData(Some(coll), Some(id), Some(data));
                  && entity.values == (if assigns then old(entity.values)[i := Str(id)] else old(entity.values))
                  && IdValue(entity) == Ok(Some(id))
                  && !IsBlank(id)
                  && entity.rtype.fields[i].name in data
                  && (if invalid.Some? then
                        r == Err(invalid.value) && unchanged(store)
                      else
                        && store.calls == old(store.calls) + [HookCall(UpdateHook, coll, id, Some(data))]
                        && (r.Ok? <==> UpsertOutcome(store.faulty).Pass?)
                        && (r.Err? ==> r.error == UpsertOutcome(store.faulty).error)
                        && store.docs == if r.Ok? then old(store.docs)[(coll, id) := data] else old(store.docs))
                  && (r.Ok? ==> r.value == entity)
    {
      if entity == null {
        return Err(NullPointer("entity"));
      }
      var coll := Collection(entity.rtype);
      if coll.Err? {
        return Err(coll.error);
      }
      var current := IdValue(entity);
      if current.Err? {
        return Err(current.error);
      }
      var id: string;
      if current.value.None? || IsBlank(current.value.value) {
        id := generated;
        var written := SetId(entity, id);
        if written.Fail? {
          assert entity.values == old(entity.values);
          return Err(written.error);
        }
      } else {
        id := current.value.value;
      }
      var data := ToMap(entity);
      assert entity.rtype.fields[IdField(entity.rtype.fields).value].name in data;
      var out := store.UpdateById(Some(coll.value), Some(id), Some(data));
      if out.Fail? {
        return Err(out.error);
      }
      return Ok(entity);
    }

    /** find: null checks, the collection, one getById; a stored document goes through fromMap. */
    method Find(t: Option<RecordType>, id: Option<string>) returns (r: Result<Option<Record>, Error>)
      requires t.Some? ==> WellFormed(t.value)
      modifies store`calls
      ensures t.None? ==> r == Err(NullPointer("type")) && store.calls == old(store.calls)
      ensures t.Some? && id.None? ==> r == Err(NullPointer("id")) && store.calls == old(store.calls)
      ensures t.Some? && id.Some? && Collection(t.value).Err? ==>
                r == Err(Collection(t.value).error) && store.calls == old(store.calls)
      ensures t.Some? && id.Some? && Collection(t.value).Ok? ==>
                var coll := Collection(t.value).value;
                var got := GetByIdResult(store.docs, store.faulty, coll, id);
                && store.calls == old(store.calls) +
                     (if Validate(Some(coll), id).None? then [HookCall(GetHook, coll, id.value, None)] else [])
                && (got.Err? ==> r == Err(got.error))
                && (got == Ok(None) ==> r == Ok(None))
                && (got.Ok? && got.value.Some? ==>
                      var made := FromMapResult(t.value, got.value.value);
                      && (r.Ok? <==> made.Ok?)
                      && (r.Ok? ==> r.value.Some? && fresh(r.value.value) && r.value.value.rtype == t.value
                                    && r.value.value.values == made.value)
                      && (r.Err? ==> r.error == made.error))
    {
      if t.None? {
        return Err(NullPointer("type"));
      }
      if id.None? {
        return Err(NullPointer("id"));
      }
      var coll := Collection(t.value);
      if coll.Err? {
        return Err(coll.error);
      }
      var got := store.GetById(Some(coll.value), id);
      if got.Err? {
        return Err(got.error);
      }
      if got.value.None? {
        return Ok(None);
      }
      var rec := FromMap(t.value, got.value.value);
      if rec.Err? {
        return Err(rec.error);
      }
      return Ok(Some(rec.value));
    }

    /** delete: null checks, the collection, then one deleteById; a missing document is no error. */
    method Delete(t: Option<RecordType>, id: Option<string>) returns (out: Outcome<Error>)
      modifies store`docs, store`calls
      ensures t.None? ==> out == Fail(NullPointer("type")) && unchanged(store)
      ensures t.Some? && id.None? ==> out == Fail(NullPointer("id")) && unchanged(store)
      ensures t.Some? && id.Some? && Collection(t.value).Err? ==>
                out == Fail(Collection(t.value).error) && unchanged(store)
      ensures t.Some? && id.Some? && Collection(t.value).Ok? ==>
                var coll := Collection(t.value).value;
                if Validate(Some(coll), id).Some? then
                  out == Fail(Validate(Some(coll), id).value) && unchanged(store)
                else
                  && store.calls == old(store.calls) + [HookCall(DeleteHook, coll, id.value, None)]
                  && out == RemoveOutcome(store.faulty)
                  && store.docs == if out.Pass? then old(store.docs) - {(coll, id.value)} else old(store.docs)
    {
      if t.None? {
        return Fail(NullPointer("type"));
      }
      if id.None? {
        return Fail(NullPointer("id"));
      }
      var coll := Collection(t.value);
      if coll.Err? {
        return Fail(coll.error);
      }
      out := store.DeleteById(Some(coll.value), id);
    }

    /**
     * list: `listed` is what store.list(collection, limit) returned. Each document goes
     * through fromMap, in order; the first failure is thrown.
     */
    method List(t: Option<RecordType>, limit: int, listed: seq<Document>) returns (r: Result<seq<Record>, Error>)
      requires t.Some? ==> WellFormed(t.value)
      ensures t.None? ==> r == Err(NullPointer("type"))
      ensures t.Some? && Collection(t.value).Err? ==> r == Err(Collection(t.value).error)
      ensures t.Some? && Collection(t.value).Ok? ==>
                && (r.Ok? <==> Collect(FromMapEach(t.value, listed)).Ok?)
                && (r.Err? ==> r.error == Collect(FromMapEach(t.value, listed)).error)
      ensures r.Ok? ==> |r.value| == |listed| == |Collect(FromMapEach(t.value, listed)).value|
      ensures r.Ok? ==> forall i :: 0 <= i < |listed| ==>
                && fresh(r.value[i]) && r.value[i].rtype == t.value
                && r.value[i].values == Collect(FromMapEach(t.value, listed)).value[i]
      ensures r.Ok? && |listed| <= limit ==> |r.value| <= limit
    {
      if t.None? {
        return Err(NullPointer("type"));
      }
      var coll := Collection(t.value);
      if coll.Err? {
        return Err(coll.error);
      }
      ghost var vals;
      r, vals := FromMapAll(t.value, listed);
    }
  }

  /**
   * What save writes, find reads back: the document save stores for a valid record turns
   * into the same field values, except that a null field comes back with the no-argument
   * constructor's value for it.
   */
  lemma FindAfterSave(t: RecordType, values: seq<Value>)
    requires WellFormed(t) && t.hasNoArgConstructor && |values| == |t.fields|
    requires forall i :: 0 <= i < |values| ==> Fits(t.fields[i].jtype, values[i])
    ensures FromMapResult(t, Sparse(t.fields, values)).Ok?
    ensures var back := FromMapResult(t, Sparse(t.fields, values)).value;
            && |back| == |values|
            && forall i :: 0 <= i < |values| ==> back[i] == if values[i].Null? then t.fields[i].initial else values[i]
  {
    MapRoundTrip(t, values);
  }
}
