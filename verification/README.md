# cloud-db-adapter, modelled in Dafny

cloud-db-adapter is a provider-neutral document store for Java. Its core pieces are:

- a template adapter (`BaseAdapter`). It validates arguments, turns `create` into
  "insert, and on `AlreadyExists` upsert", and hands every other operation to one
  backend hook.
- a codec from JSON-like values to DynamoDB attribute values (`DynamoMapper`).
- a reflection-based mapper from annotated records to documents (`EntityMapper`).
- a small object manager on top of these (`SimpleEntityManager`).
- the provider-name parser (`Provider.parse`).
- the console's `key=value, ...` line parser (`ConsoleApp.parseKVP`).

This project models those pieces and proves what they promise.

| file | module | models |
|---|---|---|
| errors.dfy | `Errors` | `Option`, `Result`, `Outcome` (a `void` method that returns or throws), and the Java exceptions as a datatype |
| java_text.dfy | `JavaText` | `String.isBlank`, `trim`, `toLowerCase`, `equalsIgnoreCase`, `Integer/Long.toString`, `parseInt`/`parseLong` |
| values.dfy | `Values` | the objects that flow through `Map<String, Object>`, and their `toString` |
| base_adapter.dfy | `DocumentStore` | `BaseAdapter` as the class `MemoryAdapter` over an in-memory map from (collection, id) to document |
| dynamo_mapper.dfy | `DynamoMapper` | `toAttr`/`fromAttr` as recursive functions, `toAttributes`/`fromAttributes` as loops |
| entity_mapper.dfy | `EntityMapper` | records as a class `Record` over a `RecordType` descriptor that replaces reflection, plus `toMap`, `fromMap`, `setId` and `convert` |
| entity_manager.dfy | `EntityManager` | `SimpleEntityManager` over a `MemoryAdapter` |
| provider.dfy | `Providers` | `Provider` and `parse` |
| kvp.dfy | `KeyValueLine` | `parseKVP` |

## How the model works

**Backend.** The backend behind `BaseAdapter`'s four hooks is a map.
- Each hook named in the adapter's `faulty` set raises a `StoreException` instead of touching the map.
- The insert hook raises `AlreadyExists` when the key is present, which is what HTTP 409 means in the Cosmos adapter.
- A ghost log `calls` records every hook call with its arguments. The contracts use it to say which hook ran, how often, and with what.

**Records.** Reflection is replaced by a descriptor, `RecordType`. It holds:
- the class name;
- the `@Entity` collection, if the class has one;
- the declared fields in declaration order: name, Java type, `@Id` mark, and the value the no-argument constructor leaves in the field;
- whether a no-argument constructor exists.

A `Record` is an instance of such a type. Its field values are a `seq` that `setId` and `fromMap` write in place.

**Errors.** Java `null` arguments are `Option` values. Thrown exceptions are `Err`/`Fail` values of the datatype `Error`. The messages the source writes are kept word for word.

## Model

| member | source | states |
|---|---|---|
| DocumentStore.Validate | src/main/java/rs/uns/ftn/clouddbadapter/store/BaseAdapter.java:47-50 | passes exactly when collection and id are both non-null and non-blank; a bad collection always reports "collection empty", even when the id is bad too; otherwise "id empty" |
| DocumentStore.ValidateData | src/main/java/rs/uns/ftn/clouddbadapter/store/BaseAdapter.java:51-54 | the collection/id error comes first; with those valid, passes exactly when the data is non-null, else "data null" |
| DocumentStore.MemoryAdapter.DoCreate | src/main/java/rs/uns/ftn/clouddbadapter/store/BaseAdapter.java:41 | the insert hook: logs one CreateHook call; stores the document only on success; AlreadyExists exactly when the key is present and no fault is injected |
| DocumentStore.MemoryAdapter.DoGet | src/main/java/rs/uns/ftn/clouddbadapter/store/BaseAdapter.java:42 | the read hook: logs one GetHook call; a missing document is an empty result, not an error |
| DocumentStore.MemoryAdapter.DoUpdate | src/main/java/rs/uns/ftn/clouddbadapter/store/BaseAdapter.java:43 | the upsert hook: logs one UpdateHook call; replaces the whole document unless it fails |
| DocumentStore.MemoryAdapter.DoDelete | src/main/java/rs/uns/ftn/clouddbadapter/store/BaseAdapter.java:44 | the delete hook: logs one DeleteHook call; removes the key, and deleting a missing key is no error |
| DocumentStore.MemoryAdapter.Create | src/main/java/rs/uns/ftn/clouddbadapter/store/BaseAdapter.java:13-20 | invalid arguments fail before any hook runs, and store and log stay unchanged. A successful insert is the only call. AlreadyExists triggers exactly one upsert with the same (c, id, d), whose outcome is the result. Any other insert failure escapes unchanged with no fallback. AlreadyExists never escapes, and past validation only store exceptions do, with the modelled backend |
| DocumentStore.MemoryAdapter.GetById | src/main/java/rs/uns/ftn/clouddbadapter/store/BaseAdapter.java:23-26 | validation first, with no hook call on failure; otherwise exactly one read-hook call with the same (c, id), whose result is returned as it is |
| DocumentStore.MemoryAdapter.UpdateById | src/main/java/rs/uns/ftn/clouddbadapter/store/BaseAdapter.java:29-32 | validation with data first, leaving the state unchanged on failure; otherwise exactly one upsert-hook call with the same (c, id, d), and with the modelled backend only a store exception can escape it |
| DocumentStore.MemoryAdapter.DeleteById | src/main/java/rs/uns/ftn/clouddbadapter/store/BaseAdapter.java:35-38 | validation first, with data never inspected; otherwise exactly one delete-hook call with the same (c, id), and with the modelled backend only a store exception can escape it |
| DynamoMapper.ToAttr | src/main/java/rs/uns/ftn/clouddbadapter/store/dynamo/DynamoMapper.java:36-56 | succeeds exactly when no value of another class occurs at any depth, else IllegalArgumentException. null maps to NUL, String to S, Integer/Long to N of the decimal text, Boolean to BOOL. A list is encoded element-wise with length and order kept; a map entry-wise with the same keys |
| DynamoMapper.NarrowsLong | src/main/java/rs/uns/ftn/clouddbadapter/store/dynamo/DynamoMapper.java:64-69 | a Long read back from its encoding is an Integer exactly when it fits in 32 bits, and is otherwise the same Long |
| DynamoMapper.UnparsableNumberIsRaw | src/main/java/rs/uns/ftn/clouddbadapter/store/dynamo/DynamoMapper.java:63-72 | number text without '.' that is no valid 64-bit integer decodes to the raw string, not to an error |
| DynamoMapper.RoundTrip | src/main/java/rs/uns/ftn/clouddbadapter/store/dynamo/DynamoMapper.java:36-82 | fromAttr(toAttr(v)) == v for every value built from null, strings, booleans, Integers, Longs outside the 32-bit range, and lists and maps of those |
| DynamoMapper.DocumentRoundTrip | src/main/java/rs/uns/ftn/clouddbadapter/store/dynamo/DynamoMapper.java:18-34 | decoding the item toAttributes builds gives back the document, with its "id" entry replaced by S(id) decoded |
| DynamoMapper.Encode | src/main/java/rs/uns/ftn/clouddbadapter/store/dynamo/DynamoMapper.java:36-56 | no contract of its own: toAttr on a supported value. `ToAttr` states it case by case, and `RoundTrip` and `NarrowsLong` state that fromAttr undoes it |
| DynamoMapper.DecodeNumber | src/main/java/rs/uns/ftn/clouddbadapter/store/dynamo/DynamoMapper.java:61-73 | no contract of its own: fromAttr's N branch. `NarrowsLong` states the Integer/Long choice and `UnparsableNumberIsRaw` the raw-string fallback |
| DynamoMapper.FromAttr | src/main/java/rs/uns/ftn/clouddbadapter/store/dynamo/DynamoMapper.java:58-82 | no contract of its own: `RoundTrip` states that it inverts toAttr on canonical values, `NarrowsLong` and `UnparsableNumberIsRaw` state its number branch, and `FromAttributes` applies it to every attribute |
| DynamoMapper.EncodeDocument | src/main/java/rs/uns/ftn/clouddbadapter/store/dynamo/DynamoMapper.java:18-26 | no contract of its own: the item toAttributes builds. `ToAttributes` is proved to compute it, and `DocumentRoundTrip` states that decoding it gives the document back with its "id" replaced |
| DynamoMapper.DecodeDocument | src/main/java/rs/uns/ftn/clouddbadapter/store/dynamo/DynamoMapper.java:28-34 | no contract of its own: the document fromAttributes builds. `FromAttributes` states its keys and values, and `DocumentRoundTrip` states that it inverts EncodeDocument |
| DynamoMapper.ToAttributes | src/main/java/rs/uns/ftn/clouddbadapter/store/dynamo/DynamoMapper.java:18-26 | the keys are data's keys plus "id"; "id" maps to S(id) whatever the data holds under "id"; every other key maps to toAttr of its value; fails exactly when some non-id value is unsupported |
| DynamoMapper.FromAttributes | src/main/java/rs/uns/ftn/clouddbadapter/store/dynamo/DynamoMapper.java:28-34 | the key set is preserved and each value is decoded on its own by fromAttr |
| EntityMapper.Fits | src/main/java/rs/uns/ftn/clouddbadapter/entity/EntityMapper.java:81 | no contract of its own: the values `Field.set` (here and in `setId`, line 50) stores into a field of the type without widening: null only for a reference type, otherwise a value of exactly that type's class. `WellFormed`, `SetId` and `StoredValue` use it. It is narrower than `Field.set`, which also widens, for example an Integer into a primitive `long` field. The gap never shows, because `Assignable` is false for every primitive type, so `convert` always produces the exact boxed class before `set` |
| EntityMapper.Assignable | src/main/java/rs/uns/ftn/clouddbadapter/entity/EntityMapper.java:78 | no contract of its own: `isAssignableFrom` of the value's class. A primitive type is assignable from no class, and Object from every class. `StoredValue` states when it sends a value through `convert` |
| EntityMapper.Collection | src/main/java/rs/uns/ftn/clouddbadapter/entity/EntityMapper.java:17-22 | succeeds exactly when the type has an @Entity binding, and returns its collection; otherwise IllegalArgumentException "Missing @Entity on <type>" |
| EntityMapper.IdField | src/main/java/rs/uns/ftn/clouddbadapter/entity/EntityMapper.java:25-33 | the index of the first field marked @Id, none before it marked; None exactly when no field is marked |
| EntityMapper.IdValue | src/main/java/rs/uns/ftn/clouddbadapter/entity/EntityMapper.java:36-44 | with no @Id field, RuntimeException "Cannot get id" wrapping the IllegalStateException; otherwise None exactly when the id field is null, and else the field value's toString text (a String id as it is) |
| EntityMapper.SetId | src/main/java/rs/uns/ftn/clouddbadapter/entity/EntityMapper.java:47-54 | writes the id into the id field and changes no other field; with no @Id field, or an id field that cannot hold a String, fails with RuntimeException "Cannot set id" and changes nothing |
| EntityMapper.ToMap | src/main/java/rs/uns/ftn/clouddbadapter/entity/EntityMapper.java:57-67 | the key set is exactly the names of the non-null fields, each mapping to the field's value; null fields are omitted |
| EntityMapper.Sparse | src/main/java/rs/uns/ftn/clouddbadapter/entity/EntityMapper.java:57-67 | no contract of its own: the map toMap builds. `ToMap` is proved to compute it, and `SparseHoldsNonNullFields` states that it holds exactly the non-null fields |
| EntityMapper.FieldValues | src/main/java/rs/uns/ftn/clouddbadapter/entity/EntityMapper.java:74-83 | no contract of its own: fromMap's field loop. `FieldValuesMeaning`, `FieldValuesFirstError` and `FieldValuesDependOnStoredValues` state what it yields |
| EntityMapper.SparseHoldsNonNullFields | src/main/java/rs/uns/ftn/clouddbadapter/entity/EntityMapper.java:57-67 | with distinct field names, the map toMap builds holds exactly the non-null fields, each under its own name |
| EntityMapper.Convert | src/main/java/rs/uns/ftn/clouddbadapter/entity/EntityMapper.java:90-97 | null stays null. A String target gives the value's toString text. An int (long) target gives parseInt (parseLong) of that text, and fails with NumberFormatException exactly when that parse fails. A boolean target gives true exactly when the text equals "true" ignoring case. List, Map and Object targets return the value unchanged |
| EntityMapper.StoredValue | src/main/java/rs/uns/ftn/clouddbadapter/entity/EntityMapper.java:75-81 | a field the map does not name keeps the constructor's value. A named field gets the stored value when its class is assignable. Otherwise a non-null value goes through convert: its error is the result, and a converted value the field cannot hold is a type mismatch. A stored null is a type mismatch exactly for a primitive field |
| EntityMapper.FieldValuesMeaning | src/main/java/rs/uns/ftn/clouddbadapter/entity/EntityMapper.java:74-83 | fromMap's field loop succeeds exactly when every field's stored value does, and then keeps them in declaration order; otherwise it fails with the error of the first field that fails |
| EntityMapper.FieldValuesFirstError | src/main/java/rs/uns/ftn/clouddbadapter/entity/EntityMapper.java:74-85 | the first failing field decides the error; later fields are never looked at |
| EntityMapper.FromMapResult | src/main/java/rs/uns/ftn/clouddbadapter/entity/EntityMapper.java:85-87 | every failure of fromMap surfaces as RuntimeException "Cannot create <type>" |
| EntityMapper.FromMap | src/main/java/rs/uns/ftn/clouddbadapter/entity/EntityMapper.java:71-88 | fails exactly as FromMapResult says. Success needs a no-argument constructor and every field to succeed, and gives a fresh record of the type holding exactly those field values |
| EntityMapper.IgnoresUnknownKeys | src/main/java/rs/uns/ftn/clouddbadapter/entity/EntityMapper.java:74-75 | map entries under names that no field has do not change what fromMap produces |
| EntityMapper.FieldValuesDependOnStoredValues | src/main/java/rs/uns/ftn/clouddbadapter/entity/EntityMapper.java:74-83 | the field loop's result depends only on each field's stored value |
| EntityMapper.ConvertOwnText | src/main/java/rs/uns/ftn/clouddbadapter/entity/EntityMapper.java:90-95 | a non-null value that its field type can hold comes back unchanged from convert to that type: toString and parse are inverse |
| EntityMapper.MapRoundTrip | src/main/java/rs/uns/ftn/clouddbadapter/entity/EntityMapper.java:57-83 | fromMap's field loop over toMap(e) succeeds and reproduces every non-null field of e, the id field included; null fields hold the constructor's value (FindAfterSave adds the no-argument constructor and so states it for fromMap itself) |
| EntityMapper.UserDescriptor | src/main/java/rs/uns/ftn/clouddbadapter/demo/User.java:9-15 | the User descriptor is well formed, bound to collection "Users", and its id field is the first field |
| EntityManager.ChooseId | src/main/java/rs/uns/ftn/clouddbadapter/orm/SimpleEntityManager.java:28-32 | a non-blank own id is kept; a null or blank one is replaced by the generated id; the result is non-blank whenever the generated id is |
| EntityManager.SimpleEntityManager.New | src/main/java/rs/uns/ftn/clouddbadapter/orm/SimpleEntityManager.java:17-19 | a null store is rejected with NullPointerException "store"; otherwise a fresh manager over that store |
| EntityManager.SimpleEntityManager.Save | src/main/java/rs/uns/ftn/clouddbadapter/orm/SimpleEntityManager.java:22-39 | a null entity gets NullPointerException. A missing collection, then a failing id read, each fail before any store call. A null or blank id is replaced by the generated one in the record, and only the id field changes. Then comes exactly one updateById (never create) of the map taken after that write, which includes the id field. The result is the same record, whose id is now non-blank |
| EntityManager.SimpleEntityManager.Find | src/main/java/rs/uns/ftn/clouddbadapter/orm/SimpleEntityManager.java:42-47 | a null type, then a null id, gets NullPointerException; a missing collection fails before any call. Then exactly one getById: empty exactly when it returns empty, its error when it fails, otherwise fromMap of the stored document |
| EntityManager.SimpleEntityManager.Delete | src/main/java/rs/uns/ftn/clouddbadapter/orm/SimpleEntityManager.java:50-55 | a null type or id gets NullPointerException, and a missing collection fails, all before any store call; otherwise exactly one deleteById(collection, id); deleting a missing document is no error |
| EntityManager.SimpleEntityManager.List | src/main/java/rs/uns/ftn/clouddbadapter/orm/SimpleEntityManager.java:58-64 | a null type gets NullPointerException, and a missing collection fails. Otherwise every listed document goes through fromMap, in order and with the same count, and the first failure is thrown. At most `limit` results when the store honours the limit |
| EntityManager.FromMapAll | src/main/java/rs/uns/ftn/clouddbadapter/orm/SimpleEntityManager.java:61-63 | the stream map of list: one fresh record per document, in order, holding that document's fromMap values; the first failure in list order is the error |
| EntityManager.Collect | src/main/java/rs/uns/ftn/clouddbadapter/orm/SimpleEntityManager.java:61-63 | no contract of its own: the stream's map-and-collect. `CollectMeaning`, `CollectPrefixError` and `CollectStep` state what it yields |
| EntityManager.CollectMeaning | src/main/java/rs/uns/ftn/clouddbadapter/orm/SimpleEntityManager.java:61-63 | mapping a throwing function over a list succeeds exactly when every element does, keeping order and count; otherwise it fails with the first element's error |
| EntityManager.CollectPrefixError | src/main/java/rs/uns/ftn/clouddbadapter/orm/SimpleEntityManager.java:61-63 | a failure in a prefix is the failure of the whole list |
| EntityManager.CollectStep | src/main/java/rs/uns/ftn/clouddbadapter/orm/SimpleEntityManager.java:61-63 | one more element either extends the collected results or decides the error of the whole list |
| EntityManager.FromMapEach | src/main/java/rs/uns/ftn/clouddbadapter/orm/SimpleEntityManager.java:62 | the stream's `map(m -> fromMap(type, m))`: one result per listed document; `FromMapEachAt` states which |
| EntityManager.FromMapEachAt | src/main/java/rs/uns/ftn/clouddbadapter/orm/SimpleEntityManager.java:62 | the i-th mapped element is fromMap of the i-th listed document |
| EntityManager.FindAfterSave | src/main/java/rs/uns/ftn/clouddbadapter/orm/SimpleEntityManager.java:35-46 | for a type with a no-argument constructor, fromMap(type, toMap(e)) succeeds: the document save writes for a record is read back by find with the same non-null field values, and null fields come back as the constructor leaves them |
| Providers.OfKey | src/main/java/rs/uns/ftn/clouddbadapter/core/Provider.java:8-12 | a key selects the provider whose key it is, and no provider when it is none of "aws", "gcp", "azure" |
| Providers.Parse | src/main/java/rs/uns/ftn/clouddbadapter/core/Provider.java:6-14 | null is AWS. Otherwise it succeeds exactly when the trimmed, lower-cased text is a provider's key, and yields that provider. Every failure is IllegalArgumentException "Unknown provider: " quoting the input as given |
| Providers.KeyIsLowerName | src/main/java/rs/uns/ftn/clouddbadapter/core/Provider.java:4-11 | each key is its constant's name in lower case |
| Providers.ParseName | src/main/java/rs/uns/ftn/clouddbadapter/core/Provider.java:4-11 | parse(p.name()) returns p for every constant |
| Providers.TrimLower | src/main/java/rs/uns/ftn/clouddbadapter/core/Provider.java:8 | trimming and lower-casing commute |
| Providers.SameKeySameChoice | src/main/java/rs/uns/ftn/clouddbadapter/core/Provider.java:8-12 | only the trimmed, lower-cased text decides the outcome |
| Providers.ParseIgnoresCase | src/main/java/rs/uns/ftn/clouddbadapter/core/Provider.java:8 | two spellings that differ only in letter case parse to the same provider, or both fail |
| Providers.ParseIgnoresPadding | src/main/java/rs/uns/ftn/clouddbadapter/core/Provider.java:8 | leading and trailing characters up to U+0020 do not change the outcome |
| Providers.ParseBlankFails | src/main/java/rs/uns/ftn/clouddbadapter/core/Provider.java:12 | the empty string, and any string of characters up to U+0020, is rejected rather than defaulting |
| KeyValueLine.SplitAt | src/main/java/rs/uns/ftn/clouddbadapter/demo/ConsoleApp.java:168 | the pieces contain no separator and joined with it give back the text |
| KeyValueLine.DropTrailingEmpty | src/main/java/rs/uns/ftn/clouddbadapter/demo/ConsoleApp.java:168 | a prefix of the pieces whose last piece is non-empty, and everything dropped is empty |
| KeyValueLine.SplitCommas | src/main/java/rs/uns/ftn/clouddbadapter/demo/ConsoleApp.java:168 | no segment contains a comma, and a line without a comma is its own only segment. For a line with a comma, the segments followed by some run of empty pieces, joined with commas, give back the line, and the last segment (if any) is non-empty |
| KeyValueLine.SplitFirst | src/main/java/rs/uns/ftn/clouddbadapter/demo/ConsoleApp.java:169 | None exactly when there is no '='; otherwise the text is key + "=" + value with no '=' in the key |
| KeyValueLine.SplitsAtFirstEquals | src/main/java/rs/uns/ftn/clouddbadapter/demo/ConsoleApp.java:169 | only the first '=' splits: everything after it, further '=' included, is the value |
| KeyValueLine.Entry | src/main/java/rs/uns/ftn/clouddbadapter/demo/ConsoleApp.java:169-170 | a segment contributes no entry exactly when its trimmed text has no '=' |
| KeyValueLine.EntryTrims | src/main/java/rs/uns/ftn/clouddbadapter/demo/ConsoleApp.java:169-170 | the key and the value are the trimmed text before and after the first '=' of the trimmed segment |
| KeyValueLine.Pairs | src/main/java/rs/uns/ftn/clouddbadapter/demo/ConsoleApp.java:168-170 | one entry (or none) per comma segment, so as many entries as segments; `PairsAt` states that the i-th is the i-th segment's |
| KeyValueLine.Fold | src/main/java/rs/uns/ftn/clouddbadapter/demo/ConsoleApp.java:168-171 | no contract of its own: the puts in order. `FoldKeys`, `LastWins`, `FoldValuesAreStrings` and `FoldStep` state what it yields |
| KeyValueLine.Parsed | src/main/java/rs/uns/ftn/clouddbadapter/demo/ConsoleApp.java:165-173 | no contract of its own: the map parseKVP returns. `ParseKvp` is proved to compute it, and the Fold rows state its keys and values |
| KeyValueLine.PairsAt | src/main/java/rs/uns/ftn/clouddbadapter/demo/ConsoleApp.java:168-170 | the i-th entry is the entry of the i-th segment |
| KeyValueLine.FoldStep | src/main/java/rs/uns/ftn/clouddbadapter/demo/ConsoleApp.java:168-171 | one more segment puts its entry, when it has one, over the map so far |
| KeyValueLine.ParseKvp | src/main/java/rs/uns/ftn/clouddbadapter/demo/ConsoleApp.java:165-173 | a null or blank line gives the empty map; otherwise one put per comma segment in order, the map Parsed describes |
| KeyValueLine.FoldValuesAreStrings | src/main/java/rs/uns/ftn/clouddbadapter/demo/ConsoleApp.java:170 | every value in the result is a string; nothing is converted to a number |
| KeyValueLine.FoldKeys | src/main/java/rs/uns/ftn/clouddbadapter/demo/ConsoleApp.java:168-171 | a key is present exactly when some segment's entry names it |
| KeyValueLine.LastWins | src/main/java/rs/uns/ftn/clouddbadapter/demo/ConsoleApp.java:170 | for duplicate keys, the last segment that names the key decides its value |
| JavaText.IntToDecimal | src/main/java/rs/uns/ftn/clouddbadapter/store/dynamo/DynamoMapper.java:39-40 | a leading '-' exactly for a negative number, then decimal digits without a leading zero (unless the number is 0) whose value is the magnitude; `DecimalRoundTrip` and `DecimalHasNoPoint` state that it parses back and has no '.' |
| JavaText.Trim | src/main/java/rs/uns/ftn/clouddbadapter/core/Provider.java:8 | no contract of its own: `TrimRemovesPaddingOnly` states that it removes the padding and nothing more, and `TrimPadded` that extra padding does not change it |
| JavaText.IsBlank | src/main/java/rs/uns/ftn/clouddbadapter/store/BaseAdapter.java:48-49 | no contract of its own: `String.isBlank`, every character satisfying `IsWhitespace`. `Validate` and `ChooseId` state how blank arguments are treated |
| Values.ToText | src/main/java/rs/uns/ftn/clouddbadapter/entity/EntityMapper.java:40 | no contract of its own: `toString`. `IdValue` and `Convert` state where it is used, and `ConvertOwnText` that parsing its text gives back the number or boolean |
| JavaText.DecimalRoundTrip | src/main/java/rs/uns/ftn/clouddbadapter/entity/EntityMapper.java:93-94 | parseInt/parseLong of what Integer/Long.toString printed gives the number back whenever it is in range |
| JavaText.DecimalHasNoPoint | src/main/java/rs/uns/ftn/clouddbadapter/store/dynamo/DynamoMapper.java:64 | a printed integer never contains '.', so fromAttr reads it as an integer |
| JavaText.NatToDecimal | src/main/java/rs/uns/ftn/clouddbadapter/store/dynamo/DynamoMapper.java:39-40 | the printed digits are decimal digits whose value is the number, with no leading zero unless the number is 0 |
| JavaText.TrimPadded | src/main/java/rs/uns/ftn/clouddbadapter/core/Provider.java:8 | padding of characters up to U+0020 on either side does not change what trim returns |
| JavaText.TrimStart | src/main/java/rs/uns/ftn/clouddbadapter/core/Provider.java:8 | trim's leading half keeps a suffix that is empty or starts with a character above U+0020 |
| JavaText.TrimEnd | src/main/java/rs/uns/ftn/clouddbadapter/core/Provider.java:8 | trim's trailing half keeps a prefix that is empty or ends with a character above U+0020 |
| JavaText.TrimStartDropsPadding | src/main/java/rs/uns/ftn/clouddbadapter/core/Provider.java:8 | what the leading half removes consists of characters up to U+0020 only |
| JavaText.TrimEndDropsPadding | src/main/java/rs/uns/ftn/clouddbadapter/core/Provider.java:8 | what the trailing half removes consists of characters up to U+0020 only |
| JavaText.TrimRemovesPaddingOnly | src/main/java/rs/uns/ftn/clouddbadapter/core/Provider.java:8 | trim returns the text between its leading and trailing runs of characters up to U+0020: it removes padding and nothing more, and the rest neither starts nor ends with padding |
| JavaText.ParseDecimal | src/main/java/rs/uns/ftn/clouddbadapter/entity/EntityMapper.java:93-94 | parseInt/parseLong (`ParseInt` and `ParseLong` apply it to the 32-bit and 64-bit range): an optional sign followed by at least one ASCII digit denotes its value, which is returned when it is in range; every other text, and an out-of-range value, fails |
| JavaText.ToLower | src/main/java/rs/uns/ftn/clouddbadapter/core/Provider.java:8 | lower-casing keeps the length and maps each character on its own by `LowerChar` |
| JavaText.EqualsIgnoreCase | src/main/java/rs/uns/ftn/clouddbadapter/entity/EntityMapper.java:95 | no contract of its own: `equalsIgnoreCase`, which `Boolean.parseBoolean` applies to "true": equal lengths and equal characters after `LowerChar`. `Convert` states its use for boolean fields |

## Left out

- The Cosmos, DynamoDB and Firestore adapters are calls into vendor SDKs. Only the in-memory backend is modelled. Its fault set stands for the SDK failures those adapters turn into `StoreException`, and `AlreadyExists` for their HTTP 409, `ConditionalCheckFailedException` (store/dynamo/DynamoDbAdapter.java:65-66) and "Already exists" checks.
- DocumentStore.MemoryAdapter.Create, DocumentStore.MemoryAdapter.UpdateById, DocumentStore.MemoryAdapter.DeleteById: the clause that only store exceptions escape past validation holds for the modelled backend only. The DynamoDB adapter calls `toAttributes` outside its `try` block (store/dynamo/DynamoDbAdapter.java:55, 89), so the codec's IllegalArgumentException for an unsupported value escapes `create` and `updateById` there. The Firestore adapter likewise calls `create(data)` outside its `try` block (store/firestore/FirestoreAdapter.java:32), so whatever the SDK's data conversion throws there escapes too. The model does not capture either.
- `DocumentStore.list` has no implementation in `BaseAdapter`. `List` takes the documents `store.list(collection, limit)` returned as its parameter `listed`, so the limit is only stated as a bound that holds when the store honours it.
- `UUID.randomUUID()` is the parameter `generated` of `Save`, which must be non-blank, as a UUID's text is.
- Doubles: a `Double` is kept as its decimal text (`Dbl`). `Double.toString` and `Double.parseDouble` are not modelled.
- DynamoMapper.DecodeNumber: number text containing '.' always decodes to `Dbl`. The source falls back to the raw string when `Double.parseDouble` rejects the text, and the model does not.
- DynamoMapper.FromAttr: the model reads an unset `AttributeValue` accessor as absent, so exactly one member of each `Attr` is set and the branches are tried in the source's order. The SDK's own accessor behaviour is not part of this model. In particular, whether an unset `l()` or `m()` returns null or an empty collection is not modelled. If an unset `l()` returns an empty list, the list branch at DynamoMapper.java:75 would catch every map, binary and set value, and the model does not capture that.
- DynamoMapper.FromAttr: the binary and set kinds of `AttributeValue` are not in `Attr`. Under the reading above they would reach the source's final `return null`, and that case is not modelled.
- DynamoMapper.ToAttr: the message of the unsupported-type exception omits the `v.getClass()` suffix.
- `String.valueOf` on non-string map keys is not modelled: nested map keys are strings.
- Values.ToText: the `toString` of a non-empty map (HashMap iteration order) is a fixed placeholder, "{...}". It matters when such a map is converted to a String, int, long or boolean field. It also matters when an Object-typed id field holds a non-empty map: `idValue` then returns the placeholder, and `save` uses it as the key it stores the document under.
- JavaText.ToLower, JavaText.EqualsIgnoreCase: `toLowerCase` and `equalsIgnoreCase` are modelled on ASCII letters. This is exact for the words compared here ("aws", "gcp", "azure", "true").
- JavaText.ParseDecimal: `Integer.parseInt` and `Long.parseLong` accept ASCII digits only. The non-ASCII Unicode digits Java also accepts are not modelled.
- Null arguments to the `EntityMapper` helpers (`collection(null)` and the like) are not modelled: the manager checks its arguments first.
- `Class.getDeclaredFields` promises no order. The model assumes declaration order, and that order decides which `@Id` field `idField` finds first and which field's error `fromMap` reports first.
- Record field types are String, the boxed and primitive int/long/boolean, List, Map and Object. Other declared types are not modelled. Neither are static and synthetic fields, which `getDeclaredFields` would also return.
- EntityMapper.FromMapResult: its contract states only the error form; what it yields on success is stated by `FieldValuesMeaning`.
- Concurrency and last-write-wins races between callers are not modelled: nothing in the code coordinates them.
- Console I/O, the menus and `pickProvider` of `ConsoleApp` are not part of this model. Neither are `Main`, `DocumentStoreFactory` (environment lookup and construction) or `ManualDemoTest`.
