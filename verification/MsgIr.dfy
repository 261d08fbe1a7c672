/** The decoded payload: a slot store filled sparsely for required fields or by flattening a whole object. */
module MsgIr {
  import opened Wrappers
  import opened Text
  import opened Values
  import opened Expressions

  // ----- paths into objects -----

  /** From a value down the remaining segments; only objects have members. */
  function Walk(j: Json, segments: seq<string>): Option<Json> {
    if segments == [] then Some(j)
    else if j.Object? && Get(j.entries, segments[0]).Some? then Walk(Get(j.entries, segments[0]).value, segments[1..])
    else None
  }

  function LookupPath(entries: seq<(string, Json)>, segments: seq<string>): Option<Json> {
    if segments == [] || Get(entries, segments[0]).None? then None
    else Walk(Get(entries, segments[0]).value, segments[1..])
  }

  method LookupJsonPath(entries: seq<(string, Json)>, segments: seq<string>) returns (found: Option<Json>)
    ensures found == LookupPath(entries, segments)
  {
    if segments == [] || Get(entries, segments[0]).None? {
      return None;
    }
    var current := Get(entries, segments[0]).value;
    for i := 1 to |segments|
      invariant LookupPath(entries, segments) == Walk(current, segments[i..])
    {
      assert segments[i..][0] == segments[i] && segments[i..][1..] == segments[i + 1..];
      if !current.Object? || Get(current.entries, segments[i]).None? {
        return None;
      }
      current := Get(current.entries, segments[i]).value;
    }
    return Some(current);
  }

  function Converted(j: Option<Json>): Option<Payload> {
    match j
    case Some(v) => Some(FromJson(v))
    case None => None
  }

  /** A dotted key read directly from the parsed object. */
  function FieldAtPath(entries: seq<(string, Json)>, key: string): Option<Payload> {
    Converted(LookupPath(entries, Split(key, '.')))
  }

  // ----- the store -----

  type Fields = map<string, Payload>

  class MsgIr {
    var slotByKey: map<string, nat>
    var values: seq<Option<Payload>>

    /** Every key has a slot of its own. */
    ghost predicate Valid()
      reads this
    {
      && (forall k :: k in slotByKey ==> slotByKey[k] < |values|)
      && (forall k, l :: k in slotByKey && l in slotByKey && k != l ==> slotByKey[k] != slotByKey[l])
    }

    function GetKey(key: string): Option<Payload>
      reads this
    {
      if key in slotByKey && slotByKey[key] < |values| then values[slotByKey[key]] else None
    }

    /** The stored fields as a map. */
    function View(): (fields: Fields)
      reads this
      ensures forall k :: GetKey(k) == if k in fields then Some(fields[k]) else None
    {
      map k | k in slotByKey && GetKey(k).Some? :: GetKey(k).value
    }

    lemma ViewIs(fields: Fields)
      requires forall k :: GetKey(k) == if k in fields then Some(fields[k]) else None
      ensures View() == fields
    {
      assert forall k :: k in View() <==> GetKey(k).Some?;
    }

    constructor ()
      ensures Valid() && View() == map[]
    {
      slotByKey, values := map[], [];
    }

    constructor WithSparseLayout(fields: seq<Field>)
      ensures Valid() && View() == map[]
      ensures forall i :: 0 <= i < |fields| ==> fields[i].key in slotByKey
    {
      var slots: map<string, nat> := map[];
      for slot := 0 to |fields|
        invariant forall k :: k in slots ==> slots[k] < slot && fields[slots[k]].key == k
        invariant forall i :: 0 <= i < slot ==> fields[i].key in slots
      {
        slots := slots[fields[slot].key := slot];
      }
      slotByKey := slots;
      values := seq(|fields|, _ => None);
    }

    method Insert(key: string, value: Payload)
      requires Valid()
      modifies this
      ensures Valid() && View() == old(View())[key := value]
    {
      if key in slotByKey {
        values := values[slotByKey[key] := Some(value)];
      } else {
        slotByKey := slotByKey[key := |values|];
        values := values + [Some(value)];
      }
      assert GetKey(key) == Some(value);
      assert forall k :: k != key ==> GetKey(k) == old(GetKey(k));
      ViewIs(old(View())[key := value]);
    }

    /** Writes a field of the layout. */
    method InsertSparse(field: Field, value: Payload)
      requires Valid() && field.key in slotByKey
      modifies this`values
      ensures Valid() && View() == old(View())[field.key := value]
    {
      values := values[slotByKey[field.key] := Some(value)];
      assert GetKey(field.key) == Some(value);
      assert forall k :: k != field.key ==> GetKey(k) == old(GetKey(k));
      ViewIs(old(View())[field.key := value]);
    }

    /** Writes a value under its path and, for an object, every member under its own dotted path. */
    method Flatten(path: string, value: Payload)
      requires Valid()
      modifies this
      ensures Valid() && View() == FlattenValue(old(View()), path, value)
      decreases value, 1
    {
      Insert(path, value);
      if value.PObject? {
        for i := 0 to |value.entries|
          invariant Valid()
          invariant View() == FlattenMembers(old(View())[path := value], path + ".", value, i)
        {
          Flatten(path + "." + value.entries[i].0, value.entries[i].1);
        }
      }
    }
  }

  /** Full decoding of an object. */
  method FromJsonObject(entries: seq<(string, Json)>) returns (ir: MsgIr)
    ensures fresh(ir) && ir.Valid()
    ensures ir.View() == FlattenMembers(map[], "", FromJson(Object(entries)), |entries|)
  {
    ir := new MsgIr();
    ghost var whole := FromJson(Object(entries));
    for i := 0 to |entries|
      invariant fresh(ir) && ir.Valid()
      invariant ir.View() == FlattenMembers(map[], "", whole, i)
    {
      assert whole.entries[i] == (entries[i].0, FromJson(entries[i].1)) && "" + entries[i].0 == entries[i].0;
      ir.Flatten(entries[i].0, FromJson(entries[i].1));
    }
  }

  /** Sparse decoding of an object: exactly the required keys whose paths lead somewhere. */
  method FromJsonObjectSparse(entries: seq<(string, Json)>, fields: seq<Field>) returns (ir: MsgIr)
    requires forall i :: 0 <= i < |fields| ==> fields[i] == FieldFromKey(fields[i].key)
    ensures fresh(ir) && ir.Valid()
    ensures forall k :: ir.GetKey(k) == if HasKey(fields, k) then FieldAtPath(entries, k) else None
  {
    ir := new MsgIr.WithSparseLayout(fields);
    for i := 0 to |fields|
      invariant fresh(ir) && ir.Valid()
      invariant forall j :: 0 <= j < |fields| ==> fields[j].key in ir.slotByKey
      invariant ir.View() == Looked(entries, fields[..i])
    {
      assert fields[..i + 1][..i] == fields[..i];
      var found := LookupJsonPath(entries, fields[i].segments);
      if found.Some? {
        ir.InsertSparse(fields[i], FromJson(found.value));
      }
    }
    assert fields[..|fields|] == fields;
    forall k ensures ir.GetKey(k) == if HasKey(fields, k) then FieldAtPath(entries, k) else None {
      LookedHolds(entries, fields, k);
    }
  }

  ghost predicate HasKey(fields: seq<Field>, key: string) {
    exists i :: 0 <= i < |fields| && fields[i].key == key
  }

  /** The fields looked up one after the other. */
  ghost function Looked(entries: seq<(string, Json)>, fields: seq<Field>): Fields {
    if fields == [] then map[]
    else
      var n := |fields| - 1;
      var store, found := Looked(entries, fields[..n]), LookupPath(entries, fields[n].segments);
      if found.Some? then store[fields[n].key := FromJson(found.value)] else store
  }

  lemma {:induction false} LookedHolds(entries: seq<(string, Json)>, fields: seq<Field>, key: string)
    requires forall i :: 0 <= i < |fields| ==> fields[i] == FieldFromKey(fields[i].key)
    ensures key in Looked(entries, fields) <==> HasKey(fields, key) && FieldAtPath(entries, key).Some?
    ensures key in Looked(entries, fields) ==> Looked(entries, fields)[key] == FieldAtPath(entries, key).value
  {
    if fields != [] {
      var n := |fields| - 1;
      LookedHolds(entries, fields[..n], key);
      assert HasKey(fields, key) <==> HasKey(fields[..n], key) || fields[n].key == key by {
        if HasKey(fields[..n], key) {
          var i :| 0 <= i < n && fields[..n][i].key == key;
          assert fields[i].key == key;
        }
        if i :| 0 <= i < |fields| && fields[i].key == key && i < n {
          assert fields[..n][i].key == key;
        }
      }
    }
  }

  // ----- what flattening writes -----

  ghost function FlattenValue(store: Fields, path: string, value: Payload): Fields
    decreases value, if value.PObject? then |value.entries| + 1 else 0
  {
    if value.PObject? then FlattenMembers(store[path := value], path + ".", value, |value.entries|)
    else store[path := value]
  }

  /** The store after the first n members of an object. */
  ghost function FlattenMembers(store: Fields, prefix: string, whole: Payload, n: nat): Fields
    requires whole.PObject? && n <= |whole.entries|
    decreases whole, n
  {
    if n == 0 then store
    else
      var (key, value) := whole.entries[n - 1];
      FlattenValue(FlattenMembers(store, prefix, whole, n - 1), prefix + key, value)
  }
}
