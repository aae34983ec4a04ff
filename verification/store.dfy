/**
 * database/database.py, class Database: one MongoDB collection, held in memory.
 *
 * A collection is a sequence of records in natural (insertion) order; `find_one` and the
 * single-document updates act on the first record that matches the key, as MongoDB does
 * for a collection scan. Every write is given twice: as a function from the old records to
 * the new ones (or to the error the server or Python would raise), and as a method of the
 * `Database` class that performs it in place.
 */
module Store {
  import opened Wrappers

  /** The BSON values the bot stores. */
  datatype Value =
    | Null
    | Bool(b: bool)
    | Int(i: int)
    | Str(s: string)
    | Binary(bytes: seq<bv8>)
    | Time(millis: int)
    | Arr(items: seq<Value>)
    | Doc(fields: map<string, Value>)

  type Record = map<string, Value>

  /** A primary key such as `{"user_id": user_id}`: one field compared for equality. */
  datatype Key = Key(field: string, value: Value)

  /**
   * The array an update names: a top-level field (`"students"`) or a field of one element
   * of a top-level array (`f"students.{i}.tasks"`); an index of `None` is rendered "None".
   */
  datatype ArrayPath =
    | Field(name: string)
    | Nested(outer: string, index: Option<nat>, inner: string)
  {
    /** The top-level field the path starts from. */
    function Root(): string
    {
      if Field? then name else outer
    }
  }

  /** What the server reports, or what Python raises, instead of a result. */
  datatype DbError =
    | NoRecord                  // subscripting the `None` that `find_one` returned
    | MissingField(name: string) // a KeyError on a record or a dict
    | BadIndex(index: int)      // an IndexError on a list
    | NotAnArray(path: ArrayPath)
    | BadPath(path: ArrayPath)
    | PathConflict(name: string)

  predicate Matches(r: Record, key: Key)
  {
    key.field in r && r[key.field] == key.value
  }

  /** The record a single-document operation acts on: the first one matching `key`. */
  function FirstMatch(rs: seq<Record>, key: Key): (r: Option<nat>)
    ensures r.Some? ==> r.value < |rs| && Matches(rs[r.value], key)
    ensures r.Some? ==> forall j | 0 <= j < r.value :: !Matches(rs[j], key)
    ensures r.None? <==> forall j | 0 <= j < |rs| :: !Matches(rs[j], key)
  {
    if |rs| == 0 then None
    else if Matches(rs[0], key) then Some(0)
    else
      match FirstMatch(rs[1..], key)
      case None => None
      case Some(i) => Some(i + 1)
  }

  /** A matching record with no match before it is the first match. */
  lemma FirstMatchAt(rs: seq<Record>, key: Key, i: nat)
    requires i < |rs| && Matches(rs[i], key)
    requires forall j | 0 <= j < i :: !Matches(rs[j], key)
    ensures FirstMatch(rs, key) == Some(i)
  {
    var r := FirstMatch(rs, key);
    assert r.Some?;
    assert !(r.value < i) && !(i < r.value);
  }

  /** `find_one(query)` */
  function FindOne(rs: seq<Record>, key: Key): (r: Option<Record>)
    ensures r.Some? ==> r.value in rs && Matches(r.value, key)
    ensures r.None? <==> forall j | 0 <= j < |rs| :: !Matches(rs[j], key)
  {
    match FirstMatch(rs, key)
    case None => None
    case Some(i) => Some(rs[i])
  }

  /**
   * A Python `datetime`, counted in microseconds, as pymongo encodes it into a BSON date:
   * whole milliseconds, the microseconds below a millisecond dropped.
   */
  function BsonMillis(micros: int): (ms: int)
    ensures ms * 1000 <= micros < ms * 1000 + 1000
  {
    micros / 1000
  }

  /** The queries `find` is given: everything, one equality, or a half-open window of BSON dates. */
  datatype Query =
    | All
    | Equals(key: Key)
    | Between(field: string, from: int, until: int)

  predicate Selects(q: Query, r: Record)
  {
    match q
    case All => true
    case Equals(key) => Matches(r, key)
    case Between(f, from, until) => f in r && r[f].Time? && from <= r[f].millis < until
  }

  /** `find(query)`: the selected records, in natural order. */
  function Find(rs: seq<Record>, q: Query): (out: seq<Record>)
    ensures forall r :: r in out <==> r in rs && Selects(q, r)
    ensures |out| <= |rs|
  {
    if |rs| == 0 then []
    else
      var rest := Find(rs[1..], q);
      assert forall r :: r in rs <==> r == rs[0] || r in rs[1..];
      if Selects(q, rs[0]) then [rs[0]] + rest else rest
  }

  /** `find` keeps the natural order: finding in two halves and concatenating is finding in the whole. */
  lemma {:induction false} FindConcat(a: seq<Record>, b: seq<Record>, q: Query)
    ensures Find(a + b, q) == Find(a, q) + Find(b, q)
  {
    if |a| > 0 {
      assert (a + b)[1..] == a[1..] + b;
      FindConcat(a[1..], b, q);
    } else {
      assert a + b == b;
    }
  }

  // ---------------------------------------------------------------------------
  // upload: replace_one(primary_key, data, upsert=True)

  function Uploaded(rs: seq<Record>, key: Key, data: Record): (out: seq<Record>)
    ensures |out| == if FirstMatch(rs, key).Some? then |rs| else |rs| + 1
    ensures data in out
  {
    match FirstMatch(rs, key)
    case None => rs + [data]
    case Some(i) =>
      assert rs[i := data][i] == data;
      rs[i := data]
  }

  /** Only the first matching record is replaced, wholesale; every other record keeps its place and value. */
  lemma UploadedKeepsOthers(rs: seq<Record>, key: Key, data: Record)
    ensures var out := Uploaded(rs, key, data);
      forall j | 0 <= j < |rs| :: out[j] == rs[j] || (FirstMatch(rs, key) == Some(j) && out[j] == data)
  {
  }

  /** After an upload whose data carries the key, looking the key up gives back exactly that data. */
  lemma UploadedFindOne(rs: seq<Record>, key: Key, data: Record)
    requires Matches(data, key)
    ensures FindOne(Uploaded(rs, key, data), key) == Some(data)
  {
    var out := Uploaded(rs, key, data);
    match FirstMatch(rs, key)
    case None =>
      assert out[|rs|] == data;
      assert forall j | 0 <= j < |rs| :: out[j] == rs[j];
    case Some(i) =>
      assert out[i] == data;
      assert forall j | 0 <= j < i :: out[j] == rs[j];
  }

  /** No two records share a value of `field`. */
  predicate UniqueOn(rs: seq<Record>, field: string)
  {
    forall i, j | 0 <= i < j < |rs| && field in rs[i] && field in rs[j] :: rs[i][field] != rs[j][field]
  }

  /** Uploading on a key field keeps that field unique across the collection. */
  lemma UploadedUnique(rs: seq<Record>, key: Key, data: Record)
    requires UniqueOn(rs, key.field) && Matches(data, key)
    ensures UniqueOn(Uploaded(rs, key, data), key.field)
  {
    var out := Uploaded(rs, key, data);
    var f := key.field;
    match FirstMatch(rs, key)
    case None =>
      forall i, j | 0 <= i < j < |out| && f in out[i] && f in out[j] ensures out[i][f] != out[j][f] {
        if j == |rs| {
          assert !Matches(rs[i], key);
        }
      }
    case Some(k) =>
      forall i, j | 0 <= i < j < |out| && f in out[i] && f in out[j] ensures out[i][f] != out[j][f] {
        if i == k {
          assert rs[k][f] == key.value;
        } else if j == k {
          assert rs[k][f] == key.value;
        }
      }
  }

  // ---------------------------------------------------------------------------
  // update: update_one(primary_key, {"$set": info}, upsert=True)

  function FieldsSet(rs: seq<Record>, key: Key, info: Record): (out: seq<Record>)
    ensures |out| == if FirstMatch(rs, key).Some? then |rs| else |rs| + 1
  {
    match FirstMatch(rs, key)
    case None => rs + [map[key.field := key.value] + info]
    case Some(i) => rs[i := rs[i] + info]
  }

  /**
   * `$set` writes the given fields into the record the key finds and keeps its other fields;
   * when none matches it inserts the key's equality field together with the given fields.
   * The other records are untouched.
   */
  lemma UpdateSetsFields(rs: seq<Record>, key: Key, info: Record)
    requires key.field !in info || info[key.field] == key.value
    ensures var out := FieldsSet(rs, key, info);
      && FindOne(out, key).Some?
      && var r := FindOne(out, key).value;
      && (forall f | f in info :: f in r && r[f] == info[f])
      && (match FindOne(rs, key)
          case Some(prior) => forall f | f in prior && f !in info :: f in r && r[f] == prior[f]
          case None => r.Keys == info.Keys + {key.field})
    ensures var out := FieldsSet(rs, key, info);
      forall j | 0 <= j < |rs| && FirstMatch(rs, key) != Some(j) :: out[j] == rs[j]
  {
    match FirstMatch(rs, key)
    case None =>
      SetInserts(rs, key, info);
    case Some(i) =>
      SetOverwrites(rs, key, info, i);
  }

  /** `$set` with no matching record appends the key's field and the given fields. */
  lemma SetInserts(rs: seq<Record>, key: Key, info: Record)
    requires FirstMatch(rs, key).None?
    requires key.field !in info || info[key.field] == key.value
    ensures var out := FieldsSet(rs, key, info);
      && FindOne(out, key) == Some(map[key.field := key.value] + info)
      && forall j | 0 <= j < |rs| :: out[j] == rs[j]
  {
    var out := FieldsSet(rs, key, info);
    assert forall j | 0 <= j < |rs| :: out[j] == rs[j];
    FirstMatchAt(out, key, |rs|);
  }

  /** `$set` on the record at `i` merges the given fields into it. */
  lemma SetOverwrites(rs: seq<Record>, key: Key, info: Record, i: nat)
    requires FirstMatch(rs, key) == Some(i)
    requires key.field !in info || info[key.field] == key.value
    ensures var out := FieldsSet(rs, key, info);
      && FindOne(out, key) == Some(rs[i] + info)
      && forall j | 0 <= j < |rs| && j != i :: out[j] == rs[j]
  {
    var out := FieldsSet(rs, key, info);
    assert forall j | 0 <= j < i :: out[j] == rs[j];
    FirstMatchAt(out, key, i);
  }

  /** With `upsert=True` the server always reports one matched or inserted record: `update` returns true. */
  lemma UpdateAlwaysFinds(rs: seq<Record>, key: Key, info: Record)
    requires key.field !in info || info[key.field] == key.value
    ensures FindOne(FieldsSet(rs, key, info), key).Some?
  {
    UpdateSetsFields(rs, key, info);
  }

  // ---------------------------------------------------------------------------
  // Arrays inside a record

  /** The array a path names: `None` when the field is absent, an error when the path cannot be followed. */
  function ArrayAt(r: Record, p: ArrayPath): Result<Option<seq<Value>>, DbError>
  {
    match p
    case Field(name) =>
      if name !in r then Success(None)
      else if r[name].Arr? then Success(Some(r[name].items))
      else Failure(NotAnArray(p))
    case Nested(outer, index, inner) =>
      if index.None? || outer !in r || !r[outer].Arr? then Failure(BadPath(p))
      else if index.value >= |r[outer].items| || !r[outer].items[index.value].Doc? then Failure(BadPath(p))
      else
        var element := r[outer].items[index.value].fields;
        if inner !in element then Success(None)
        else if element[inner].Arr? then Success(Some(element[inner].items))
        else Failure(NotAnArray(p))
  }

  /** The record with the array at `p` set to `items` and everything else as before. */
  function WithArray(r: Record, p: ArrayPath, items: seq<Value>): (out: Record)
    requires ArrayAt(r, p).Success?
    ensures ArrayAt(out, p) == Success(Some(items))
    ensures out.Keys == r.Keys + {p.Root()}
    ensures forall f | f in r && f != p.Root() :: out[f] == r[f]
  {
    match p
    case Field(name) => r[name := Arr(items)]
    case Nested(outer, index, inner) =>
      var outerItems := r[outer].items;
      var element := outerItems[index.value].fields;
      r[outer := Arr(outerItems[index.value := Doc(element[inner := Arr(items)])])]
  }

  /** Setting a nested array changes only that one element of the outer array, and only its `inner` field. */
  lemma WithNestedArrayFrame(r: Record, outer: string, i: nat, inner: string, items: seq<Value>)
    requires ArrayAt(r, Nested(outer, Some(i), inner)).Success?
    ensures var out := WithArray(r, Nested(outer, Some(i), inner), items);
      && out[outer].Arr? && |out[outer].items| == |r[outer].items|
      && (forall j | 0 <= j < |r[outer].items| && j != i :: out[outer].items[j] == r[outer].items[j])
      && out[outer].items[i].Doc?
      && out[outer].items[i].fields.Keys == r[outer].items[i].fields.Keys + {inner}
      && forall f | f in r[outer].items[i].fields && f != inner ::
           out[outer].items[i].fields[f] == r[outer].items[i].fields[f]
  {
  }

  /** Setting the same array twice is setting it to the second value. */
  lemma WithArrayTwice(r: Record, p: ArrayPath, first: seq<Value>, second: seq<Value>)
    requires ArrayAt(r, p).Success?
    ensures WithArray(WithArray(r, p, first), p, second) == WithArray(r, p, second)
  {
    match p
    case Field(name) =>
    case Nested(outer, index, inner) =>
      var items := r[outer].items;
      var element := items[index.value].fields;
      var once := WithArray(r, p, first);
      assert once[outer].items[index.value].fields == element[inner := Arr(first)];
      assert element[inner := Arr(first)][inner := Arr(second)] == element[inner := Arr(second)];
      assert items[index.value := Doc(element[inner := Arr(first)])][index.value := Doc(element[inner := Arr(second)])]
          == items[index.value := Doc(element[inner := Arr(second)])];
  }

  /** A `$pull` condition: a document is matched field by field, any other value by equality. */
  datatype Condition =
    | FieldsEqual(fields: map<string, Value>)
    | Equal(value: Value)

  predicate ElementMatches(x: Value, c: Condition)
  {
    match c
    case FieldsEqual(fields) => x.Doc? && forall f | f in fields :: f in x.fields && x.fields[f] == fields[f]
    case Equal(v) => x == v
  }

  /** The condition `{"$pull": {array: element}}` uses for an element taken from an array. */
  function ConditionFor(element: Value): (c: Condition)
    ensures ElementMatches(element, c)
  {
    if element.Doc? then FieldsEqual(element.fields) else Equal(element)
  }

  /** The array without the elements matching `c`, the others in their order. */
  function Removed(items: seq<Value>, c: Condition): (out: seq<Value>)
    ensures |out| <= |items|
    ensures forall x | x in out :: x in items && !ElementMatches(x, c)
    ensures forall x | x in items && !ElementMatches(x, c) :: x in out
  {
    if |items| == 0 then []
    else
      var rest := Removed(items[1..], c);
      assert forall x | x in items :: x == items[0] || x in items[1..];
      if ElementMatches(items[0], c) then rest else [items[0]] + rest
  }

  /** `$pull` keeps the order of what it leaves: pulling from two halves is pulling from the whole. */
  lemma {:induction false} RemovedConcat(a: seq<Value>, b: seq<Value>, c: Condition)
    ensures Removed(a + b, c) == Removed(a, c) + Removed(b, c)
  {
    if |a| > 0 {
      assert (a + b)[1..] == a[1..] + b;
      RemovedConcat(a[1..], b, c);
    } else {
      assert a + b == b;
    }
  }

  /** With nothing to match, `$pull` leaves the array as it was. */
  lemma {:induction false} RemovedNothing(items: seq<Value>, c: Condition)
    requires forall x | x in items :: !ElementMatches(x, c)
    ensures Removed(items, c) == items
  {
    if |items| > 0 {
      assert items[0] in items;
      assert forall x | x in items[1..] :: x in items;
      RemovedNothing(items[1..], c);
      assert items == [items[0]] + items[1..];
    }
  }

  /** `$addToSet` of one element: appended only when no equal element is present. */
  function AddedToSet(items: seq<Value>, x: Value): (out: seq<Value>)
    ensures x in out
    ensures forall y | y in items :: y in out
    ensures x in items ==> out == items
    ensures x !in items ==> |out| == |items| + 1 && out[..|items|] == items
  {
    if x in items then items else items + [x]
  }

  // ---------------------------------------------------------------------------
  // array_append: update_one(primary_key, {"$push": {array_name: {"$each": elements}}})

  /** The records after the push, or the server's error; no match means nothing changes. */
  function Pushed(rs: seq<Record>, key: Key, p: ArrayPath, elements: seq<Value>): Result<seq<Record>, DbError>
  {
    match FirstMatch(rs, key)
    case None => Success(rs)
    case Some(i) =>
      match ArrayAt(rs[i], p)
      case Failure(e) => Failure(e)
      case Success(current) =>
        var items := if current.Some? then current.value else [];
        Success(rs[i := WithArray(rs[i], p, items + elements)])
  }

  /**
   * `$push` with `$each` appends the elements at the end of the named array (created when
   * absent), in argument order and without looking for duplicates. Only that array of the
   * first matching record changes; with no matching record nothing changes.
   */
  lemma PushAppendsAtEnd(rs: seq<Record>, key: Key, p: ArrayPath, elements: seq<Value>)
    ensures FirstMatch(rs, key).None? ==> Pushed(rs, key, p, elements) == Success(rs)
    ensures Pushed(rs, key, p, elements).Success? && FirstMatch(rs, key).Some? ==>
      var i := FirstMatch(rs, key).value;
      var out := Pushed(rs, key, p, elements).value;
      && |out| == |rs|
      && (forall j | 0 <= j < |rs| && j != i :: out[j] == rs[j])
      && ArrayAt(rs[i], p).Success?
      && var before := ArrayAt(rs[i], p).value;
      && ArrayAt(out[i], p) == Success(Some((if before.Some? then before.value else []) + elements))
      && forall f | f in rs[i] && f != p.Root() :: out[i][f] == rs[i][f]
  {
  }

  /** A push that does not touch the key's own field leaves the same record the first match. */
  lemma PushKeepsFirstMatch(rs: seq<Record>, key: Key, p: ArrayPath, elements: seq<Value>)
    requires FirstMatch(rs, key).Some? && key.field != p.Root()
    requires Pushed(rs, key, p, elements).Success?
    ensures FirstMatch(Pushed(rs, key, p, elements).value, key) == FirstMatch(rs, key)
  {
    var i := PushedAt(rs, key, p, elements);
  }

  /** Where a push that keeps the key lands, and what the array there holds afterwards. */
  lemma PushedAt(rs: seq<Record>, key: Key, p: ArrayPath, elements: seq<Value>) returns (i: nat)
    requires FirstMatch(rs, key).Some? && key.field != p.Root()
    requires Pushed(rs, key, p, elements).Success?
    ensures FirstMatch(rs, key) == Some(i) && ArrayAt(rs[i], p).Success?
    ensures var out := Pushed(rs, key, p, elements).value;
      && FirstMatch(out, key) == Some(i)
      && var before := ArrayAt(rs[i], p).value;
      && ArrayAt(out[i], p) == Success(Some((if before.Some? then before.value else []) + elements))
  {
    i := FirstMatch(rs, key).value;
    var out := Pushed(rs, key, p, elements).value;
    PushAppendsAtEnd(rs, key, p, elements);
    assert out[i][key.field] == rs[i][key.field];
    assert forall j | 0 <= j < i :: out[j] == rs[j];
    FirstMatchAt(out, key, i);
  }

  lemma AppendTwice(items: seq<Value>, x: Value)
    ensures items + [x] + [x] == items + [x, x]
  {
  }

  /** A push succeeds when the array it names can be followed in the first matching record. */
  lemma PushSucceeds(rs: seq<Record>, key: Key, p: ArrayPath, elements: seq<Value>, i: nat)
    requires FirstMatch(rs, key) == Some(i) && ArrayAt(rs[i], p).Success?
    ensures Pushed(rs, key, p, elements).Success?
  {
  }

  /**
   * Pushing the same element twice leaves it at the end of the array twice, and the same
   * record stays the first match.
   */
  lemma PushTwiceDuplicates(rs: seq<Record>, key: Key, p: ArrayPath, x: Value)
    requires FirstMatch(rs, key).Some? && key.field != p.Root()
    requires Pushed(rs, key, p, [x]).Success?
    ensures var once := Pushed(rs, key, p, [x]).value;
      && Pushed(once, key, p, [x]).Success?
      && var i := FirstMatch(rs, key).value;
      && var twice := Pushed(once, key, p, [x]).value;
      && FirstMatch(twice, key) == Some(i)
      && var before := ArrayAt(rs[i], p).value;
      && ArrayAt(twice[i], p) == Success(Some((if before.Some? then before.value else []) + [x, x]))
  {
    var i := PushedAt(rs, key, p, [x]);
    var before := ArrayAt(rs[i], p).value;
    var items := if before.Some? then before.value else [];
    var once := Pushed(rs, key, p, [x]).value;
    PushSucceeds(once, key, p, [x], i);
    var i' := PushedAt(once, key, p, [x]);
    AppendTwice(items, x);
  }

  // ---------------------------------------------------------------------------
  // array_remove: update_one(primary_key, {"$pull": {array_name: array_key}})

  /** The records after the pull, or the server's error; a missing array or no match changes nothing. */
  function Pulled(rs: seq<Record>, key: Key, p: ArrayPath, c: Condition): Result<seq<Record>, DbError>
  {
    match FirstMatch(rs, key)
    case None => Success(rs)
    case Some(i) =>
      match ArrayAt(rs[i], p)
      case Failure(e) => Failure(e)
      case Success(None) => Success(rs)
      case Success(Some(items)) => Success(rs[i := WithArray(rs[i], p, Removed(items, c))])
  }

  /**
   * `$pull` deletes every element matching the condition from the named array of the first
   * matching record and keeps the rest in order; everything else is unchanged.
   */
  lemma PullRemovesAll(rs: seq<Record>, key: Key, p: ArrayPath, c: Condition)
    ensures FirstMatch(rs, key).None? ==> Pulled(rs, key, p, c) == Success(rs)
    ensures Pulled(rs, key, p, c).Success? && FirstMatch(rs, key).Some? ==>
      var i := FirstMatch(rs, key).value;
      var out := Pulled(rs, key, p, c).value;
      && |out| == |rs|
      && (forall j | 0 <= j < |rs| && j != i :: out[j] == rs[j])
      && ArrayAt(rs[i], p).Success?
      && match ArrayAt(rs[i], p).value
         case None => out[i] == rs[i]
         case Some(items) =>
           && ArrayAt(out[i], p) == Success(Some(Removed(items, c)))
           && forall f | f in rs[i] && f != p.Root() :: out[i][f] == rs[i][f]
  {
  }

  /** Where a pull that keeps the key lands; the same record stays the first match. */
  lemma PulledAt(rs: seq<Record>, key: Key, p: ArrayPath, c: Condition) returns (i: nat)
    requires FirstMatch(rs, key).Some? && key.field != p.Root()
    requires Pulled(rs, key, p, c).Success?
    ensures FirstMatch(rs, key) == Some(i) && ArrayAt(rs[i], p).Success?
    ensures var out := Pulled(rs, key, p, c).value;
      && FirstMatch(out, key) == Some(i)
      && out == match ArrayAt(rs[i], p).value
                case None => rs
                case Some(items) => rs[i := WithArray(rs[i], p, Removed(items, c))]
  {
    i := FirstMatch(rs, key).value;
    var out := Pulled(rs, key, p, c).value;
    PullRemovesAll(rs, key, p, c);
    assert out[i][key.field] == rs[i][key.field];
    assert forall j | 0 <= j < i :: out[j] == rs[j];
    FirstMatchAt(out, key, i);
  }

  // ---------------------------------------------------------------------------
  // move_element: find_one, record[array_from][element_id], then
  // update(primary_key, {"$pull": {array_from: element}, "$addToSet": {array_to: element}})

  /** Python's `items[index]`, negative indices counting from the end. */
  function PyIndex(items: seq<Value>, index: int): (r: Result<Value, DbError>)
    ensures r.Success? <==> -|items| <= index < |items|
    ensures r.Success? ==> r.value in items
  {
    if 0 <= index < |items| then Success(items[index])
    else if -|items| <= index < 0 then Success(items[|items| + index])
    else Failure(BadIndex(index))
  }

  function Moved(rs: seq<Record>, key: Key, from: string, index: int, to: string): Result<seq<Record>, DbError>
  {
    match FirstMatch(rs, key)
    case None => Failure(NoRecord)
    case Some(i) =>
      var r := rs[i];
      if from !in r then Failure(MissingField(from))
      else if !r[from].Arr? then Failure(NotAnArray(Field(from)))
      else
        match PyIndex(r[from].items, index)
        case Failure(e) => Failure(e)
        case Success(element) =>
          if from == to then Failure(PathConflict(from))
          else if to in r && !r[to].Arr? then Failure(NotAnArray(Field(to)))
          else
            var target := if to in r then r[to].items else [];
            var pulled := r[from := Arr(Removed(r[from].items, ConditionFor(element)))];
            Success(rs[i := pulled[to := Arr(AddedToSet(target, element))]])
  }

  /**
   * A successful move takes the element at `index` (Python indexing), removes from
   * `from` every element the pull condition matches (all copies of it among them), and
   * adds it to `to` unless an equal element is already there. Nothing else changes.
   */
  lemma MoveSpec(rs: seq<Record>, key: Key, from: string, index: int, to: string)
    requires Moved(rs, key, from, index, to).Success?
    ensures var i := FirstMatch(rs, key).value;
      var out := Moved(rs, key, from, index, to).value;
      && from in rs[i] && rs[i][from].Arr?
      && var items := rs[i][from].items;
      && -|items| <= index < |items|
      && var element := PyIndex(items, index).value;
      && var target := if to in rs[i] then rs[i][to].items else [];
      && |out| == |rs|
      && (forall j | 0 <= j < |rs| && j != i :: out[j] == rs[j])
      && out[i][from] == Arr(Removed(items, ConditionFor(element)))
      && element !in out[i][from].items
      && out[i][to] == Arr(AddedToSet(target, element))
      && element in out[i][to].items
      && forall f | f in rs[i] && f != from && f != to :: out[i][f] == rs[i][f]
  {
  }

  /** Moving within one array is the server's conflicting-path error. */
  lemma MoveToSameArrayFails(rs: seq<Record>, key: Key, name: string, index: int)
    requires FirstMatch(rs, key).Some?
    requires var r := rs[FirstMatch(rs, key).value]; name in r && r[name].Arr? && 0 <= index < |r[name].items|
    ensures Moved(rs, key, name, index, name) == Failure(PathConflict(name))
  {
  }

  // ---------------------------------------------------------------------------

  /** One collection of the database, updated in place. */
  class Database {
    var records: seq<Record>

    constructor (initial: seq<Record>)
      ensures records == initial
    {
      records := initial;
    }

    /** `upload(primary_key, data)` */
    method Upload(key: Key, data: Record)
      modifies this
      ensures records == Uploaded(old(records), key, data)
    {
      records := Uploaded(records, key, data);
    }

    /** `update(primary_key, info)`: always reports success, since the upsert matches or inserts one record. */
    method Update(key: Key, info: Record) returns (ok: bool)
      modifies this
      ensures records == FieldsSet(old(records), key, info)
      ensures ok
    {
      records := FieldsSet(records, key, info);
      ok := true;
    }

    /** `array_append(primary_key, array_name, *elements)`: true iff a record matched. */
    method ArrayAppend(key: Key, p: ArrayPath, elements: seq<Value>) returns (r: Result<bool, DbError>)
      modifies this
      ensures Pushed(old(records), key, p, elements).Success? ==>
        r == Success(FirstMatch(old(records), key).Some?) && records == Pushed(old(records), key, p, elements).value
      ensures Pushed(old(records), key, p, elements).Failure? ==>
        r == Failure(Pushed(old(records), key, p, elements).error) && records == old(records)
    {
      match Pushed(records, key, p, elements)
      case Success(out) =>
        r := Success(FirstMatch(records, key).Some?);
        records := out;
      case Failure(e) =>
        r := Failure(e);
    }

    /** `array_remove(primary_key, array_name, array_key)`: true iff a record matched. */
    method ArrayRemove(key: Key, p: ArrayPath, c: Condition) returns (r: Result<bool, DbError>)
      modifies this
      ensures Pulled(old(records), key, p, c).Success? ==>
        r == Success(FirstMatch(old(records), key).Some?) && records == Pulled(old(records), key, p, c).value
      ensures Pulled(old(records), key, p, c).Failure? ==>
        r == Failure(Pulled(old(records), key, p, c).error) && records == old(records)
    {
      match Pulled(records, key, p, c)
      case Success(out) =>
        r := Success(FirstMatch(records, key).Some?);
        records := out;
      case Failure(e) =>
        r := Failure(e);
    }

    /** `move_element(primary_key, array_from, element_id, array_to)`: true once the update ran. */
    method MoveElement(key: Key, from: string, index: int, to: string) returns (r: Result<bool, DbError>)
      modifies this
      ensures Moved(old(records), key, from, index, to).Success? ==>
        r == Success(true) && records == Moved(old(records), key, from, index, to).value
      ensures Moved(old(records), key, from, index, to).Failure? ==>
        r == Failure(Moved(old(records), key, from, index, to).error) && records == old(records)
    {
      match Moved(records, key, from, index, to)
      case Success(out) =>
        r := Success(true);
        records := out;
      case Failure(e) =>
        r := Failure(e);
    }
  }
}
