/**
 * BaseAdapter: the template every document-store backend goes through. It
 * validates its arguments, implements create as "insert, and on AlreadyExists
 * fall back to a full upsert", and hands every other operation to exactly one
 * backend hook.
 *
 * The backend is an in-memory map from (collection, id) to document. Each hook
 * listed in `faulty` raises a StoreException instead of touching the map, which
 * stands for the SDK failures the cloud adapters turn into StoreException; the
 * insert hook raises AlreadyExists when the key is present (HTTP 409 in the
 * Cosmos backend). The ghost `calls` log records every hook invocation with its
 * arguments.
 */
module DocumentStore {
  import opened Errors
  import opened JavaText
  import opened Values

  const COLLECTION_EMPTY: string := "collection empty"
  const ID_EMPTY: string := "id empty"
  const DATA_NULL: string := "data null"

  /** validate(c, id): the collection is checked before the id. */
  function Validate(c: Option<string>, id: Option<string>): (r: Option<Error>)
    ensures r.None? <==> c.Some? && !IsBlank(c.value) && id.Some? && !IsBlank(id.value)
    ensures (c.None? || IsBlank(c.value)) ==> r == Some(IllegalArgument(COLLECTION_EMPTY))
    ensures r.Some? && c.Some? && !IsBlank(c.value) ==> r == Some(IllegalArgument(ID_EMPTY))
  {
    if c.None? || IsBlank(c.value) then Some(IllegalArgument(COLLECTION_EMPTY))
    else if id.None? || IsBlank(id.value) then Some(IllegalArgument(ID_EMPTY))
    else None
  }

  /** validate(c, id, d): the two-argument checks first, then a null payload. */
  function ValidateData(c: Option<string>, id: Option<string>, d: Option<Document>): (r: Option<Error>)
    ensures Validate(c, id).Some? ==> r == Validate(c, id)
    ensures r.None? <==> Validate(c, id).None? && d.Some?
    ensures Validate(c, id).None? && d.None? ==> r == Some(IllegalArgument(DATA_NULL))
  {
    var first := Validate(c, id);
    if first.Some? then first
    else if d.None? then Some(IllegalArgument(DATA_NULL))
    else None
  }

  datatype Hook = CreateHook | GetHook | UpdateHook | DeleteHook

  /** One invocation of a backend hook; `data` is None for the hooks that take no payload. */
  datatype HookCall = HookCall(hook: Hook, collection: string, id: string, data: Option<Document>)

  type Key = (string, string)

  /** What the insert hook reports: an injected fault, AlreadyExists for a present key, or success. */
  function InsertOutcome(docs: map<Key, Document>, faulty: set<Hook>, c: string, id: string): Outcome<Error> {
    if CreateHook in faulty then Fail(StoreFailure("create failed"))
    else if (c, id) in docs then Fail(AlreadyExists("Document exists: " + id))
    else Pass
  }

  /** What the upsert hook reports: it only fails when a fault is injected. */
  function UpsertOutcome(faulty: set<Hook>): Outcome<Error> {
    if UpdateHook in faulty then Fail(StoreFailure("update failed")) else Pass
  }

  /** What the read hook returns: a missing document is an empty result, not an error. */
  function Fetched(docs: map<Key, Document>, faulty: set<Hook>, c: string, id: string): Result<Option<Document>, Error> {
    if GetHook in faulty then Err(StoreFailure("get failed"))
    else if (c, id) in docs then Ok(Some(docs[(c, id)]))
    else Ok(None)
  }

  /** What the delete hook reports: deleting a missing document is a silent no-op. */
  function RemoveOutcome(faulty: set<Hook>): Outcome<Error> {
    if DeleteHook in faulty then Fail(StoreFailure("delete failed")) else Pass
  }

  class MemoryAdapter {
    var docs: map<Key, Document>
    const faulty: set<Hook>
    ghost var calls: seq<HookCall>

    constructor (faulty: set<Hook>)
      ensures docs == map[] && this.faulty == faulty && calls == []
    {
      docs := map[];
      this.faulty := faulty;
      calls := [];
    }

    // ==== the four backend hooks ====

    method DoCreate(c: string, id: string, d: Document) returns (out: Outcome<Error>)
      modifies this`docs, this`calls
      ensures calls == old(calls) + [HookCall(CreateHook, c, id, Some(d))]
      ensures out == InsertOutcome(old(docs), faulty, c, id)
      ensures docs == if out.Pass? then old(docs)[(c, id) := d] else old(docs)
    {
      calls := calls + [HookCall(CreateHook, c, id, Some(d))];
      out := InsertOutcome(docs, faulty, c, id);
      if out.Pass? {
        docs := docs[(c, id) := d];
      }
    }

    method DoGet(c: string, id: string) returns (r: Result<Option<Document>, Error>)
      modifies this`calls
      ensures calls == old(calls) + [HookCall(GetHook, c, id, None)]
      ensures r == Fetched(docs, faulty, c, id)
    {
      calls := calls + [HookCall(GetHook, c, id, None)];
      r := Fetched(docs, faulty, c, id);
    }

    method DoUpdate(c: string, id: string, d: Document) returns (out: Outcome<Error>)
      modifies this`docs, this`calls
      ensures calls == old(calls) + [HookCall(UpdateHook, c, id, Some(d))]
      ensures out == UpsertOutcome(faulty)
      ensures docs == if out.Pass? then old(docs)[(c, id) := d] else old(docs)
    {
      calls := calls + [HookCall(UpdateHook, c, id, Some(d))];
      out := UpsertOutcome(faulty);
      if out.Pass? {
        docs := docs[(c, id) := d];
      }
    }

    method DoDelete(c: string, id: string) returns (out: Outcome<Error>)
      modifies this`docs, this`calls
      ensures calls == old(calls) + [HookCall(DeleteHook, c, id, None)]
      ensures out == RemoveOutcome(faulty)
      ensures docs == if out.Pass? then old(docs) - {(c, id)} else old(docs)
    {
      calls := calls + [HookCall(DeleteHook, c, id, None)];
      out := RemoveOutcome(faulty);
      if out.Pass? {
        docs := docs - {(c, id)};
      }
    }

    // ==== the template operations ====

    /**
     * create: after validation, one insert; only when the insert raises AlreadyExists
     * is the same (c, id, d) upserted. Every other failure escapes unchanged, and
     * AlreadyExists never does.
     */
    method Create(c: Option<string>, id: Option<string>, d: Option<Document>) returns (out: Outcome<Error>)
      modifies this`docs, this`calls
      ensures ValidateData(c, id, d).Some? ==>
                out == Fail(ValidateData(c, id, d).value) && docs == old(docs) && calls == old(calls)
      ensures ValidateData(c, id, d).None? ==>
                var insert := HookCall(CreateHook, c.value, id.value, d);
                var upsert := HookCall(UpdateHook, c.value, id.value, d);
                var tried := InsertOutcome(old(docs), faulty, c.value, id.value);
                var stored := if out.Pass? then old(docs)[(c.value, id.value) := d.value] else old(docs);
                && docs == stored
                && if tried.Fail? && tried.error.AlreadyExists? then
                     calls == old(calls) + [insert, upsert] && out == UpsertOutcome(faulty)
                   else
                     calls == old(calls) + [insert] && out == tried
      ensures !(out.Fail? && out.error.AlreadyExists?)
      ensures ValidateData(c, id, d).None? && out.Fail? ==> IsStoreException(out.error)
    {
      var invalid := ValidateData(c, id, d);
      if invalid.Some? {
        return Fail(invalid.value);
      }
      out := DoCreate(c.value, id.value, d.value);
      if out.Fail? && out.error.AlreadyExists? {
        out := DoUpdate(c.value, id.value, d.value);
      }
    }

    /** getById: validation, then the read hook, whose result is returned as it is. */
    method GetById(c: Option<string>, id: Option<string>) returns (r: Result<Option<Document>, Error>)
      modifies this`calls
      ensures Validate(c, id).Some? ==> r == Err(Validate(c, id).value) && calls == old(calls)
      ensures Validate(c, id).None? ==>
                && calls == old(calls) + [HookCall(GetHook, c.value, id.value, None)]
                && r == Fetched(docs, faulty, c.value, id.value)
    {
      var invalid := Validate(c, id);
      if invalid.Some? {
        return Err(invalid.value);
      }
      r := DoGet(c.value, id.value);
    }

    /** updateById: validation, then exactly one upsert replacing the whole document. */
    method UpdateById(c: Option<string>, id: Option<string>, d: Option<Document>) returns (out: Outcome<Error>)
      modifies this`docs, this`calls
      ensures ValidateData(c, id, d).Some? ==>
                out == Fail(ValidateData(c, id, d).value) && docs == old(docs) && calls == old(calls)
      ensures ValidateData(c, id, d).None? ==>
                && calls == old(calls) + [HookCall(UpdateHook, c.value, id.value, d)]
                && out == UpsertOutcome(faulty)
                && docs == if out.Pass? then old(docs)[(c.value, id.value) := d.value] else old(docs)
      ensures ValidateData(c, id, d).None? && out.Fail? ==> IsStoreException(out.error)
    {
      var invalid := ValidateData(c, id, d);
      if invalid.Some? {
        return Fail(invalid.value);
      }
      out := DoUpdate(c.value, id.value, d.value);
    }

    /** deleteById: validation, then exactly one delete; a missing document is no error. */
    method DeleteById(c: Option<string>, id: Option<string>) returns (out: Outcome<Error>)
      modifies this`docs, this`calls
      ensures Validate(c, id).Some? ==>
                out == Fail(Validate(c, id).value) && docs == old(docs) && calls == old(calls)
      ensures Validate(c, id).None? ==>
                && calls == old(calls) + [HookCall(DeleteHook, c.value, id.value, None)]
                && out == RemoveOutcome(faulty)
                && docs == if out.Pass? then old(docs) - {(c.value, id.value)} else old(docs)
      ensures Validate(c, id).None? && out.Fail? ==> IsStoreException(out.error)
    {
      var invalid := Validate(c, id);
      if invalid.Some? {
        return Fail(invalid.value);
      }
      out := DoDelete(c.value, id.value);
    }
  }
}
