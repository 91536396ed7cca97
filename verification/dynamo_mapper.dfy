/**
 * DynamoMapper: converts documents and their values to and from DynamoDB's
 * tagged attribute values (NUL / S / N / BOOL / L / M).
 */
module DynamoMapper {
  import opened Errors
  import opened JavaText
  import opened Values

  /** An AttributeValue with exactly one of its members set. */
  datatype Attr =
    | NUL
    | S(s: string)
    | N(n: string)
    | BOOL(b: bool)
    | L(items: seq<Attr>)
    | M(entries: map<string, Attr>)

  const ID_KEY: string := "id"
  const UNSUPPORTED: string := "Unsupported type for Dynamo mapping: "

  /** The values toAttr can encode: everything but objects of other classes, at any depth. */
  predicate Supported(v: Value) {
    match v
    case Other(_, _) => false
    case List(xs) => forall k :: 0 <= k < |xs| ==> Supported(xs[k])
    case Obj(m) => forall key :: key in m ==> Supported(m[key])
    case _ => true
  }

  /** toAttr on a supported value: numbers as their decimal text, lists element-wise in order,
      maps entry-wise. */
  function Encode(v: Value): Attr
    requires Supported(v)
  {
    match v
    case Null => NUL
    case Str(s) => S(s)
    case Int(i) => N(IntToDecimal(i))
    case Long(l) => N(IntToDecimal(l))
    case Dbl(t) => N(t)
    case Bool(b) => BOOL(b)
    case List(xs) => L(seq(|xs|, k requires 0 <= k < |xs| => Encode(xs[k])))
    case Obj(m) => M(map key | key in m :: Encode(m[key]))
  }

  /** toAttr: an unsupported value anywhere inside v makes it throw IllegalArgumentException. */
  function ToAttr(v: Value): (r: Result<Attr, Error>)
    ensures r.Ok? <==> Supported(v)
    ensures r.Err? ==> r.error == IllegalArgument(UNSUPPORTED)
    ensures v.Null? ==> r == Ok(NUL)
    ensures v.Str? ==> r == Ok(S(v.s))
    ensures v.Bool? ==> r == Ok(BOOL(v.b))
    ensures v.Int? ==> r == Ok(N(IntToDecimal(v.i)))
    ensures v.Long? ==> r == Ok(N(IntToDecimal(v.l)))
    ensures v.List? && r.Ok? ==>
              && r.value.L? && |r.value.items| == |v.items|
              && forall k :: 0 <= k < |v.items| ==> ToAttr(v.items[k]) == Ok(r.value.items[k])
    ensures v.Obj? && r.Ok? ==>
              && r.value.M? && r.value.entries.Keys == v.entries.Keys
              && forall key :: key in v.entries ==> ToAttr(v.entries[key]) == Ok(r.value.entries[key])
  {
    if Supported(v) then Ok(Encode(v)) else Err(IllegalArgument(UNSUPPORTED))
  }

  /** The N branch of fromAttr: text with '.' is a Double; otherwise a long that is
      narrowed to an int when it fits; text that is no long comes back as it is. */
  function DecodeNumber(t: string): Value {
    if '.' in t then Dbl(t)
    else match ParseLong(t)
      case None => Str(t)
      case Some(l) => if INT32_MIN <= l <= INT32_MAX then Int(l) else Long(l)
  }

  /** fromAttr, testing the members in the order nul, s, n, bool, l, m. */
  function FromAttr(a: Attr): Value {
    match a
    case NUL => Null
    case S(s) => Str(s)
    case N(t) => DecodeNumber(t)
    case BOOL(b) => Bool(b)
    case L(xs) => List(seq(|xs|, k requires 0 <= k < |xs| => FromAttr(xs[k])))
    case M(m) => Obj(map key | key in m :: FromAttr(m[key]))
  }

  /** A Long is read back as an Integer exactly when it fits in 32 bits. */
  lemma NarrowsLong(l: Int64)
    ensures ToAttr(Long(l)).Ok?
    ensures FromAttr(ToAttr(Long(l)).value) == if INT32_MIN <= l <= INT32_MAX then Int(l) else Long(l)
  {
    DecimalHasNoPoint(l);
    DecimalRoundTrip(l, INT64_MIN, INT64_MAX);
  }

  /** Number text without '.' that Long.parseLong rejects comes back as the raw string. */
  lemma UnparsableNumberIsRaw(t: string)
    requires '.' !in t && ParseLong(t).None?
    ensures FromAttr(N(t)) == Str(t)
  {
  }

  /** The values that survive an encode/decode round trip unchanged: no Double, no other
      class, and no Long that would be narrowed to an Integer. */
  predicate Canonical(v: Value) {
    match v
    case Other(_, _) => false
    case Dbl(_) => false
    case Long(l) => !(INT32_MIN <= l <= INT32_MAX)
    case List(xs) => forall k :: 0 <= k < |xs| ==> Canonical(xs[k])
    case Obj(m) => forall key :: key in m ==> Canonical(m[key])
    case _ => true
  }

  lemma {:induction false} RoundTrip(v: Value)
    requires Canonical(v)
    ensures Supported(v) && FromAttr(Encode(v)) == v
  {
    match v
    case Int(i) =>
      DecimalHasNoPoint(i);
      DecimalRoundTrip(i, INT64_MIN, INT64_MAX);
    case Long(l) =>
      NarrowsLong(l);
    case List(xs) =>
      forall k | 0 <= k < |xs| ensures Supported(xs[k]) && FromAttr(Encode(xs[k])) == xs[k] {
        RoundTrip(xs[k]);
      }
      assert FromAttr(Encode(v)).items == xs;
    case Obj(m) =>
      forall key | key in m ensures Supported(m[key]) && FromAttr(Encode(m[key])) == m[key] {
        RoundTrip(m[key]);
      }
      assert FromAttr(Encode(v)).entries == m;
    case _ =>
  }

  /** The item toAttributes builds: every data entry encoded, and "id" set to the id parameter. */
  function EncodeDocument(id: string, data: Document): map<string, Attr>
    requires forall k :: k in data && k != ID_KEY ==> Supported(data[k])
  {
    map k | k in data.Keys + {ID_KEY} :: if k == ID_KEY then S(id) else Encode(data[k])
  }

  function DecodeDocument(item: map<string, Attr>): Document {
    map k | k in item :: FromAttr(item[k])
  }

  /** A document of canonical values comes back with its "id" entry replaced by the id. */
  lemma DocumentRoundTrip(id: string, data: Document)
    requires forall k :: k in data && k != ID_KEY ==> Canonical(data[k])
    ensures forall k :: k in data && k != ID_KEY ==> Supported(data[k])
    ensures DecodeDocument(EncodeDocument(id, data)) == data[ID_KEY := Str(id)]
  {
    forall k | k in data && k != ID_KEY ensures Supported(data[k]) && FromAttr(Encode(data[k])) == data[k] {
      RoundTrip(data[k]);
    }
    assert DecodeDocument(EncodeDocument(id, data)) == data[ID_KEY := Str(id)];
  }

  /** toAttributes: the id parameter is authoritative over any "id" entry of the data. */
  method ToAttributes(id: string, data: Document) returns (r: Result<map<string, Attr>, Error>)
    ensures r.Ok? <==> forall k :: k in data && k != ID_KEY ==> Supported(data[k])
    ensures r.Err? ==> r.error == IllegalArgument(UNSUPPORTED)
    ensures r.Ok? ==> r.value.Keys == data.Keys + {ID_KEY} && r.value[ID_KEY] == S(id)
    ensures r.Ok? ==> forall k :: k in data && k != ID_KEY ==> r.value[k] == Encode(data[k])
    ensures r.Ok? ==> r.value == EncodeDocument(id, data)
  {
    var out := map[ID_KEY := S(id)];
    var todo := data.Keys;
    while todo != {}
      invariant todo <= data.Keys
      invariant out.Keys == data.Keys - todo + {ID_KEY}
      invariant out[ID_KEY] == S(id)
      invariant forall k :: k in data.Keys - todo && k != ID_KEY ==> Supported(data[k]) && out[k] == Encode(data[k])
      decreases todo
    {
      var k :| k in todo;
      todo := todo - {k};
      if k == ID_KEY {
        continue;
      }
      var a := ToAttr(data[k]);
      if a.Err? {
        return Err(a.error);
      }
      out := out[k := a.value];
    }
    return Ok(out);
  }

  /** fromAttributes: the key set is kept and each value is decoded on its own. */
  method FromAttributes(item: map<string, Attr>) returns (r: Document)
    ensures r.Keys == item.Keys
    ensures forall k :: k in item ==> r[k] == FromAttr(item[k])
  {
    r := map[];
    var todo := item.Keys;
    while todo != {}
      invariant todo <= item.Keys
      invariant r.Keys == item.Keys - todo
      invariant forall k :: k in r ==> r[k] == FromAttr(item[k])
      decreases todo
    {
      var k :| k in todo;
      todo := todo - {k};
      r := r[k := FromAttr(item[k])];
    }
  }
}
