/**
 * EntityMapper: maps annotated records to and from documents. Reflection is
 * replaced by an explicit descriptor per record type: the @Entity collection
 * binding (if any), the declared fields in declaration order with their Java
 * types and @Id marks, the values the no-argument constructor leaves in them,
 * and whether such a constructor exists.
 */
module EntityMapper {
  import opened Errors
  import opened JavaText
  import opened Values

  /** A field's declared Java type; `primitive` tells int from Integer, long from Long, boolean from Boolean. */
  datatype JType =
    | StringT
    | IntT(primitive: bool)
    | LongT(primitive: bool)
    | BoolT(primitive: bool)
    | ListT
    | MapT
    | ObjectT

  predicate IsPrimitive(t: JType) {
    (t.IntT? || t.LongT? || t.BoolT?) && t.primitive
  }

  /** Field.set accepts v for a field declared with type t: null only for reference types, else a value of t's class. */
  predicate Fits(t: JType, v: Value) {
    if v.Null? then !IsPrimitive(t)
    else match t
      case StringT => v.Str?
      case IntT(_) => v.Int?
      case LongT(_) => v.Long?
      case BoolT(_) => v.Bool?
      case ListT => v.List?
      case MapT => v.Obj?
      case ObjectT => true
  }

  /** t.isAssignableFrom(v.getClass()) for a non-null v; a primitive type is assignable from no class. */
  predicate Assignable(t: JType, v: Value) {
    match t
    case StringT => v.Str?
    case IntT(p) => !p && v.Int?
    case LongT(p) => !p && v.Long?
    case BoolT(p) => !p && v.Bool?
    case ListT => v.List?
    case MapT => v.Obj?
    case ObjectT => true
  }

  datatype FieldDecl = FieldDecl(name: string, jtype: JType, isId: bool, initial: Value)

  datatype RecordType = RecordType(
    name: string,                  // the class's binary name, as Class.getName gives it
    collection: Option<string>,    // @Entity(collection = ...), None when the annotation is missing
    fields: seq<FieldDecl>,        // the declared instance fields, in declaration order
    hasNoArgConstructor: bool)

  /** What Java guarantees of a class: distinct field names, and initial values its fields can hold. */
  predicate WellFormed(t: RecordType) {
    && (forall i, j :: 0 <= i < j < |t.fields| ==> t.fields[i].name != t.fields[j].name)
    && (forall i :: 0 <= i < |t.fields| ==> Fits(t.fields[i].jtype, t.fields[i].initial))
  }

  /** An instance of a record type; `values[i]` is the current value of declared field i. */
  class Record {
    const rtype: RecordType
    var values: seq<Value>

    ghost predicate Valid()
      reads this
    {
      && WellFormed(rtype)
      && |values| == |rtype.fields|
      && forall i :: 0 <= i < |values| ==> Fits(rtype.fields[i].jtype, values[i])
    }

    constructor (rtype: RecordType, values: seq<Value>)
      requires WellFormed(rtype) && |values| == |rtype.fields|
      requires forall i :: 0 <= i < |values| ==> Fits(rtype.fields[i].jtype, values[i])
      ensures this.rtype == rtype && this.values == values
      ensures Valid()
    {
      this.rtype := rtype;
      this.values := values;
    }
  }

  /** collection: the @Entity binding, or IllegalArgumentException when the type has none. */
  function Collection(t: RecordType): (r: Result<string, Error>)
    ensures r.Ok? <==> t.collection.Some?
    ensures r.Ok? ==> r.value == t.collection.value
    ensures r.Err? ==> r.error == IllegalArgument("Missing @Entity on " + t.name)
  {
    match t.collection
    case Some(c) => Ok(c)
    case None => Err(IllegalArgument("Missing @Entity on " + t.name))
  }

  /** idField: the first declared field marked @Id. */
  function IdField(fields: seq<FieldDecl>): (r: Option<nat>)
    ensures r.Some? ==> r.value < |fields| && fields[r.value].isId
    ensures r.Some? ==> forall j :: 0 <= j < r.value ==> !fields[j].isId
    ensures r.None? ==> forall j :: 0 <= j < |fields| ==> !fields[j].isId
  {
    if fields == [] then None
    else if fields[0].isId then Some(0)
    else match IdField(fields[1..])
      case None => None
      case Some(k) => Some(k + 1)
  }

  function NoIdField(t: RecordType): Error {
    IllegalState("No @Id field in " + t.name)
  }

  /** idValue: the id field's value as a string, None when it is null; without an id field,
      a RuntimeException wrapping the IllegalStateException. */
  function IdValue(e: Record): (r: Result<Option<string>, Error>)
    requires e.Valid()
    reads e
    ensures IdField(e.rtype.fields).None? ==> r == Err(Runtime("Cannot get id", NoIdField(e.rtype)))
    ensures IdField(e.rtype.fields).Some? ==>
              var v := e.values[IdField(e.rtype.fields).value];
              && r.Ok?
              && (r.value.None? <==> v.Null?)
              && (v.Str? ==> r.value == Some(v.s))
              && (!v.Null? ==> r.value == Some(ToText(v)))
  {
    match IdField(e.rtype.fields)
    case None => Err(Runtime("Cannot get id", NoIdField(e.rtype)))
    case Some(i) => Ok(if e.values[i].Null? then None else Some(ToText(e.values[i])))
  }

  /** setId: writes the id field in place and nothing else. Field.set refuses a String for an id
      field of another type. */
  method SetId(e: Record, id: string) returns (out: Outcome<Error>)
    requires e.Valid()
    modifies e
    ensures e.Valid()
    ensures IdField(e.rtype.fields).None? ==>
              out == Fail(Runtime("Cannot set id", NoIdField(e.rtype))) && e.values == old(e.values)
    ensures IdField(e.rtype.fields).Some? ==>
              var i := IdField(e.rtype.fields).value;
              if Fits(e.rtype.fields[i].jtype, Str(id)) then
                out == Pass && e.values == old(e.values)[i := Str(id)]
              else
                && out == Fail(Runtime("Cannot set id", FieldTypeMismatch(e.rtype.fields[i].name)))
                && e.values == old(e.values)
  {
    var f := IdField(e.rtype.fields);
    if f.None? {
      return Fail(Runtime("Cannot set id", NoIdField(e.rtype)));
    }
    var i := f.value;
    if !Fits(e.rtype.fields[i].jtype, Str(id)) {
      return Fail(Runtime("Cannot set id", FieldTypeMismatch(e.rtype.fields[i].name)));
    }
    e.values := e.values[i := Str(id)];
    out := Pass;
  }

  /** The document toMap builds from fields and their values, in declaration order. */
  function Sparse(fields: seq<FieldDecl>, values: seq<Value>): Document
    requires |fields| == |values|
  {
    if fields == [] then map[]
    else
      var n := |fields| - 1;
      var m := Sparse(fields[..n], values[..n]);
      if values[n].Null? then m else m[fields[n].name := values[n]]
  }

  function NonNullNames(fields: seq<FieldDecl>, values: seq<Value>): set<string>
    requires |fields| == |values|
  {
    set i | 0 <= i < |fields| && !values[i].Null? :: fields[i].name
  }

  /** With distinct field names, the sparse map holds exactly the non-null fields, each under its name. */
  lemma {:induction false} SparseHoldsNonNullFields(fields: seq<FieldDecl>, values: seq<Value>)
    requires |fields| == |values|
    requires forall i, j :: 0 <= i < j < |fields| ==> fields[i].name != fields[j].name
    ensures Sparse(fields, values).Keys == NonNullNames(fields, values)
    ensures forall i :: 0 <= i < |fields| && !values[i].Null? ==> Sparse(fields, values)[fields[i].name] == values[i]
  {
    if fields != [] {
      var n := |fields| - 1;
      SparseHoldsNonNullFields(fields[..n], values[..n]);
      var m := Sparse(fields[..n], values[..n]);
      assert NonNullNames(fields, values) ==
        NonNullNames(fields[..n], values[..n]) + (if values[n].Null? then {} else {fields[n].name});
      forall i | 0 <= i < n && !values[i].Null?
        ensures Sparse(fields, values)[fields[i].name] == values[i]
      {
        assert fields[..n][i] == fields[i] && values[..n][i] == values[i];
      }
    }
  }

  /** toMap: one entry per non-null field, keyed by the field's name; null fields are left out. */
  method ToMap(e: Record) returns (m: Document)
    requires e.Valid()
    ensures m == Sparse(e.rtype.fields, e.values)
    ensures m.Keys == NonNullNames(e.rtype.fields, e.values)
    ensures forall i :: 0 <= i < |e.values| && !e.values[i].Null? ==> m[e.rtype.fields[i].name] == e.values[i]
  {
    var fields := e.rtype.fields;
    m := map[];
    var i := 0;
    while i < |fields|
      invariant 0 <= i <= |fields|
      invariant m == Sparse(fields[..i], e.values[..i])
    {
      assert fields[..i + 1][..i] == fields[..i] && e.values[..i + 1][..i] == e.values[..i];
      var v := e.values[i];
      if !v.Null? {
        m := m[fields[i].name := v];
      }
      i := i + 1;
    }
    assert fields[..i] == fields && e.values[..i] == e.values;
    SparseHoldsNonNullFields(fields, e.values);
  }

  /**
   * convert: the closed conversion table applied when a stored value's class does not
   * match the field's type: to String by toString, to int/long by decimal parsing, to
   * boolean by "equals true ignoring case"; other targets keep the value.
   */
  function Convert(v: Value, t: JType): (r: Result<Value, Error>)
    ensures v.Null? ==> r == Ok(Null)
    ensures r.Err? ==> (t.IntT? || t.LongT?) && r.error == NumberFormat(ToText(v))
    ensures r.Ok? && !v.Null? && (t.StringT? || t.IntT? || t.LongT? || t.BoolT?) ==> Fits(t, r.value)
    ensures t.ListT? || t.MapT? || t.ObjectT? ==> r == Ok(v)
    ensures !v.Null? && t.StringT? ==> r == Ok(Str(ToText(v)))
    ensures !v.Null? && t.IntT? ==>
              && (r.Ok? <==> ParseInt(ToText(v)).Some?)
              && (r.Ok? ==> r.value == Int(ParseInt(ToText(v)).value))
    ensures !v.Null? && t.LongT? ==>
              && (r.Ok? <==> ParseLong(ToText(v)).Some?)
              && (r.Ok? ==> r.value == Long(ParseLong(ToText(v)).value))
    ensures !v.Null? && t.BoolT? ==> r == Ok(Bool(EqualsIgnoreCase(ToText(v), "true")))
  {
    if v.Null? then Ok(Null)
    else match t
      case StringT => Ok(Str(ToText(v)))
      case IntT(_) =>
        (match ParseInt(ToText(v))
         case None => Err(NumberFormat(ToText(v)))
         case Some(x) => Ok(Int(x)))
      case LongT(_) =>
        (match ParseLong(ToText(v))
         case None => Err(NumberFormat(ToText(v)))
         case Some(x) => Ok(Long(x)))
      case BoolT(_) => Ok(Bool(EqualsIgnoreCase(ToText(v), "true")))
      case _ => Ok(v)
  }

  /** What fromMap leaves in one field: the constructor's value when the map has no entry of
      that name, otherwise the stored value, converted when its class does not match. */
  function StoredValue(f: FieldDecl, m: Document): (r: Result<Value, Error>)
    ensures f.name !in m ==> r == Ok(f.initial)
    ensures f.name in m && r.Ok? ==> Fits(f.jtype, r.value)
    ensures f.name in m && Assignable(f.jtype, m[f.name]) ==> r == Ok(m[f.name])
    ensures f.name in m && !m[f.name].Null? && !Assignable(f.jtype, m[f.name]) ==>
              var c := Convert(m[f.name], f.jtype);
              && (c.Err? ==> r == c)
              && (c.Ok? ==> r == if Fits(f.jtype, c.value) then c else Err(FieldTypeMismatch(f.name)))
    ensures f.name in m && m[f.name].Null? ==>
              r == if IsPrimitive(f.jtype) then Err(FieldTypeMismatch(f.name)) else Ok(Null)
  {
    if f.name !in m then Ok(f.initial)
    else
      var raw := m[f.name];
      var converted := if !raw.Null? && !Assignable(f.jtype, raw) then Convert(raw, f.jtype) else Ok(raw);
      if converted.Err? then converted
      else if Fits(f.jtype, converted.value) then converted
      else Err(FieldTypeMismatch(f.name))
  }

  /** The field values fromMap produces, or the error of the first field (in declaration order) that fails. */
  function FieldValues(fields: seq<FieldDecl>, m: Document): Result<seq<Value>, Error> {
    if fields == [] then Ok([])
    else match StoredValue(fields[0], m)
      case Err(e) => Err(e)
      case Ok(v) =>
        match FieldValues(fields[1..], m)
        case Err(e) => Err(e)
        case Ok(vs) => Ok([v] + vs)
  }

  /** fromMap succeeds exactly when every field's stored value does, keeps them in declaration
      order, and otherwise fails with the first failing field's error. */
  lemma {:induction false} FieldValuesMeaning(fields: seq<FieldDecl>, m: Document)
    ensures FieldValues(fields, m).Ok? <==> forall i :: 0 <= i < |fields| ==> StoredValue(fields[i], m).Ok?
    ensures FieldValues(fields, m).Ok? ==>
              && |FieldValues(fields, m).value| == |fields|
              && forall i :: 0 <= i < |fields| ==> StoredValue(fields[i], m) == Ok(FieldValues(fields, m).value[i])
    ensures FieldValues(fields, m).Err? ==>
              exists i :: 0 <= i < |fields| && StoredValue(fields[i], m) == Err(FieldValues(fields, m).error)
                          && forall j :: 0 <= j < i ==> StoredValue(fields[j], m).Ok?
  {
    if fields != [] {
      var rest := fields[1..];
      FieldValuesMeaning(rest, m);
      assert forall i :: 1 <= i < |fields| ==> fields[i] == rest[i - 1];
      if StoredValue(fields[0], m).Ok? && FieldValues(rest, m).Err? {
        var i :| 0 <= i < |rest| && StoredValue(rest[i], m) == Err(FieldValues(rest, m).error)
                 && forall j :: 0 <= j < i ==> StoredValue(rest[j], m).Ok?;
        assert StoredValue(fields[i + 1], m) == Err(FieldValues(fields, m).error);
      }
    }
  }

  /** The first field that fails decides the error; the fields after it are not looked at. */
  lemma {:induction false} FieldValuesFirstError(fields: seq<FieldDecl>, m: Document, i: nat)
    requires i < |fields| && StoredValue(fields[i], m).Err?
    requires forall j :: 0 <= j < i ==> StoredValue(fields[j], m).Ok?
    ensures FieldValues(fields, m) == Err(StoredValue(fields[i], m).error)
  {
    if i > 0 {
      var rest := fields[1..];
      assert forall j :: 0 <= j < i - 1 ==> rest[j] == fields[j + 1];
      FieldValuesFirstError(rest, m, i - 1);
    }
  }

  function CannotCreate(t: RecordType): string {
    "Cannot create " + t.name
  }

  /** What fromMap yields: the new instance's field values, or the RuntimeException it throws. */
  function FromMapResult(t: RecordType, m: Document): (r: Result<seq<Value>, Error>)
    ensures r.Err? ==> r.error.Runtime? && r.error.message == CannotCreate(t)
  {
    if !t.hasNoArgConstructor then Err(Runtime(CannotCreate(t), NoDefaultConstructor(t.name)))
    else match FieldValues(t.fields, m)
      case Ok(vs) => Ok(vs)
      case Err(e) => Err(Runtime(CannotCreate(t), e))
  }

  /**
   * fromMap: a new instance from the no-argument constructor, then, field by field in
   * declaration order, the value stored under the field's name. Fields the map does not
   * name keep the constructor's value; map keys that name no field are ignored. Any
   * failure surfaces as RuntimeException("Cannot create <type>").
   */
  method FromMap(t: RecordType, m: Document) returns (r: Result<Record, Error>)
    requires WellFormed(t)
    ensures r.Ok? <==> FromMapResult(t, m).Ok?
    ensures r.Ok? ==> fresh(r.value) && r.value.Valid() && r.value.rtype == t
    ensures r.Ok? ==> r.value.values == FromMapResult(t, m).value
    ensures r.Err? ==> r.error == FromMapResult(t, m).error
  {
    if !t.hasNoArgConstructor {
      return Err(Runtime(CannotCreate(t), NoDefaultConstructor(t.name)));
    }
    var fields := t.fields;
    var obj := new Record(t, seq(|fields|, k requires 0 <= k < |fields| => fields[k].initial));
    var i := 0;
    while i < |fields|
      invariant 0 <= i <= |fields|
      invariant |obj.values| == |fields| && obj.rtype == t
      invariant forall j :: 0 <= j < i ==> StoredValue(fields[j], m) == Ok(obj.values[j])
      invariant forall j :: i <= j < |fields| ==> obj.values[j] == fields[j].initial
    {
      var f := fields[i];
      if f.name in m {
        var val := m[f.name];
        if !val.Null? && !Assignable(f.jtype, val) {
          var converted := Convert(val, f.jtype);
          if converted.Err? {
            assert StoredValue(f, m) == Err(converted.error);
            FieldValuesFirstError(fields, m, i);
            return Err(Runtime(CannotCreate(t), converted.error));
          }
          val := converted.value;
        }
        if !Fits(f.jtype, val) {
          assert StoredValue(f, m) == Err(FieldTypeMismatch(f.name));
          FieldValuesFirstError(fields, m, i);
          return Err(Runtime(CannotCreate(t), FieldTypeMismatch(f.name)));
        }
        obj.values := obj.values[i := val];
      }
      i := i + 1;
    }
    FieldValuesMeaning(fields, m);
    assert obj.values == FieldValues(fields, m).value;
    return Ok(obj);
  }

  /** Entries under names that no field has do not change what fromMap produces. */
  lemma IgnoresUnknownKeys(fields: seq<FieldDecl>, m: Document, extra: Document)
    requires forall i :: 0 <= i < |fields| ==> fields[i].name !in extra
    ensures FieldValues(fields, m + extra) == FieldValues(fields, m)
  {
    forall i | 0 <= i < |fields| ensures StoredValue(fields[i], m + extra) == StoredValue(fields[i], m) {
      var f := fields[i];
      assert f.name in m + extra <==> f.name in m;
      if f.name in m {
        assert (m + extra)[f.name] == m[f.name];
      }
    }
    FieldValuesDependOnStoredValues(fields, m + extra, m);
  }

  lemma {:induction false} FieldValuesDependOnStoredValues(fields: seq<FieldDecl>, m1: Document, m2: Document)
    requires forall i :: 0 <= i < |fields| ==> StoredValue(fields[i], m1) == StoredValue(fields[i], m2)
    ensures FieldValues(fields, m1) == FieldValues(fields, m2)
  {
    if fields != [] {
      FieldValuesDependOnStoredValues(fields[1..], m1, m2);
    }
  }

  /** A value printed by toString and read back by convert for its own field type is unchanged. */
  lemma {:induction false} ConvertOwnText(t: JType, v: Value)
    requires !v.Null? && Fits(t, v)
    ensures Convert(v, t) == Ok(v)
  {
    match t
    case IntT(_) => DecimalRoundTrip(v.i, INT32_MIN, INT32_MAX);
    case LongT(_) => DecimalRoundTrip(v.l, INT64_MIN, INT64_MAX);
    case BoolT(_) =>
      if !v.b {
        assert !EqualsIgnoreCase("false", "true");
      }
    case _ =>
  }

  /**
   * fromMap(type, toMap(e)) reproduces every non-null field of e, the id field included;
   * the fields that were null hold what the constructor leaves in them.
   */
  lemma MapRoundTrip(t: RecordType, values: seq<Value>)
    requires WellFormed(t) && |values| == |t.fields|
    requires forall i :: 0 <= i < |values| ==> Fits(t.fields[i].jtype, values[i])
    ensures FieldValues(t.fields, Sparse(t.fields, values)).Ok?
    ensures var back := FieldValues(t.fields, Sparse(t.fields, values)).value;
            |back| == |values| && forall i :: 0 <= i < |values| ==> back[i] == if values[i].Null? then t.fields[i].initial else values[i]
  {
    var fields := t.fields;
    var m := Sparse(fields, values);
    SparseHoldsNonNullFields(fields, values);
    FieldValuesMeaning(fields, m);
    forall i | 0 <= i < |fields|
      ensures StoredValue(fields[i], m) == Ok(if values[i].Null? then fields[i].initial else values[i])
    {
      var f := fields[i];
      if values[i].Null? {
        assert forall j :: 0 <= j < |fields| && fields[j].name == f.name ==> j == i;
        assert f.name !in m;
      } else {
        assert f.name in NonNullNames(fields, values);
        assert m[f.name] == values[i];
        if !Assignable(f.jtype, values[i]) {
          ConvertOwnText(f.jtype, values[i]);
        }
      }
    }
  }

  /** The demo's User record: collection "Users", @Id String id first, then name and email. */
  const USER: RecordType := RecordType(
    "rs.uns.ftn.clouddbadapter.demo.User",
    Some("Users"),
    [ FieldDecl("id", StringT, true, Null),
      FieldDecl("name", StringT, false, Null),
      FieldDecl("email", StringT, false, Null) ],
    true)

  lemma UserDescriptor()
    ensures WellFormed(USER)
    ensures Collection(USER) == Ok("Users")
    ensures IdField(USER.fields) == Some(0)
  {
  }
}
