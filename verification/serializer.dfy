/**
 * Schema-driven translation between wire payloads and entity records
 * (src/serializer/index.js). A schema lists the entity's fields with the
 * name of each field's type; the per-type transforms themselves are passed
 * in as functions of (field type name, value).
 */
module Serializer {
  import opened Values
  import opened Utils

  /** `Object.entries(schema)`: (field name, field type name), in order. */
  type Schema = seq<(string, string)>

  /** A transform's `unserialize` or `serialize`, chosen by field type name. */
  type Transform = (string, Value) -> Value

  /** The field names of a schema object are distinct. */
  predicate WellFormed(schema: Schema) {
    forall i, j :: 0 <= i < j < |schema| ==> schema[i].0 != schema[j].0
  }

  function FieldNames(schema: Schema): set<string> {
    set i | 0 <= i < |schema| :: schema[i].0
  }

  /**
   * The record the `forEach` over the schema fills: each schema field set to
   * its transform applied to `entity?.[field]`.
   */
  function Fields(schema: Schema, transform: Transform, entity: Value): Record
    decreases |schema|
  {
    if schema == [] then map[]
    else
      var (key, fieldType) := schema[|schema| - 1];
      Fields(schema[..|schema| - 1], transform, entity)[key := transform(fieldType, Prop(entity, key))]
  }

  lemma FieldNamesSnoc(schema: Schema)
    requires schema != []
    ensures FieldNames(schema) == FieldNames(schema[..|schema| - 1]) + {schema[|schema| - 1].0}
  {
    var front := schema[..|schema| - 1];
    forall k | k in FieldNames(schema) ensures k in FieldNames(front) + {schema[|schema| - 1].0} {
      var i :| 0 <= i < |schema| && schema[i].0 == k;
      if i < |front| { assert front[i] == schema[i]; }
    }
    forall k | k in FieldNames(front) ensures k in FieldNames(schema) {
      var i :| 0 <= i < |front| && front[i].0 == k;
      assert schema[i] == front[i];
    }
  }

  lemma FieldsShape(schema: Schema, transform: Transform, entity: Value)
    requires WellFormed(schema)
    ensures Fields(schema, transform, entity).Keys == FieldNames(schema)
    ensures forall i :: 0 <= i < |schema| ==>
      Fields(schema, transform, entity)[schema[i].0] == transform(schema[i].1, Prop(entity, schema[i].0))
  {
    FieldsKeys(schema, transform, entity);
    FieldsAt(schema, transform, entity);
  }

  lemma {:induction false} FieldsKeys(schema: Schema, transform: Transform, entity: Value)
    ensures Fields(schema, transform, entity).Keys == FieldNames(schema)
    decreases |schema|
  {
    if schema != [] {
      FieldsKeys(schema[..|schema| - 1], transform, entity);
      FieldNamesSnoc(schema);
    }
  }

  lemma {:induction false} FieldsAt(schema: Schema, transform: Transform, entity: Value)
    requires WellFormed(schema)
    ensures forall i :: 0 <= i < |schema| ==>
      && schema[i].0 in Fields(schema, transform, entity)
      && Fields(schema, transform, entity)[schema[i].0] == transform(schema[i].1, Prop(entity, schema[i].0))
    decreases |schema|
  {
    if schema != [] {
      var front := schema[..|schema| - 1];
      var (key, fieldType) := schema[|schema| - 1];
      assert WellFormed(front) by {
        forall i, j | 0 <= i < j < |front| ensures front[i].0 != front[j].0 {
          assert front[i] == schema[i] && front[j] == schema[j];
        }
      }
      FieldsAt(front, transform, entity);
      var before := Fields(front, transform, entity);
      assert Fields(schema, transform, entity) == before[key := transform(fieldType, Prop(entity, key))];
      forall i | 0 <= i < |schema|
        ensures && schema[i].0 in Fields(schema, transform, entity)
                && Fields(schema, transform, entity)[schema[i].0] == transform(schema[i].1, Prop(entity, schema[i].0))
      {
        if i < |front| {
          assert front[i] == schema[i];
          assert schema[i].0 != key;
        }
      }
    }
  }

  // ---------------------------------------------------------------------
  // Payload to records

  /** What `unserializeEntity` returns: null when the translated id is empty. */
  function UnserializedEntity(schema: Schema, unserialize: Transform, entity: Value): Option<Record> {
    var result := Fields(schema, unserialize, entity);
    if IsEmpty(IdOf(result)) then None else Some(result)
  }

  /** `unserializeEntity`: fills a fresh record field by field. */
  method UnserializeEntity(schema: Schema, unserialize: Transform, entity: Value) returns (r: Option<Record>)
    ensures r == UnserializedEntity(schema, unserialize, entity)
  {
    var result: Record := map[];
    var i := 0;
    while i < |schema|
      invariant 0 <= i <= |schema|
      invariant result == Fields(schema[..i], unserialize, entity)
    {
      var (key, fieldType) := schema[i];
      result := result[key := unserialize(fieldType, Prop(entity, key))];
      assert schema[..i + 1][..i] == schema[..i];
      i := i + 1;
    }
    assert schema[..i] == schema;
    if IsEmpty(IdOf(result)) {
      r := None;
    } else {
      r := Some(result);
    }
  }

  /**
   * An unserialized entity has exactly the schema's fields, each the field's
   * transform of the incoming value; it is null exactly when the schema has
   * no id field or the translated id is empty.
   */
  lemma UnserializedEntityShape(schema: Schema, unserialize: Transform, entity: Value)
    requires WellFormed(schema)
    ensures var r := UnserializedEntity(schema, unserialize, entity);
      && ("id" !in FieldNames(schema) ==> r == None)
      && (forall i :: 0 <= i < |schema| && schema[i].0 == "id" ==>
            (r == None <==> IsEmpty(unserialize(schema[i].1, Prop(entity, "id")))))
      && (r.Some? ==> r.value.Keys == FieldNames(schema))
      && (r.Some? ==> forall i :: 0 <= i < |schema| ==>
            r.value[schema[i].0] == unserialize(schema[i].1, Prop(entity, schema[i].0)))
  {
    FieldsShape(schema, unserialize, entity);
  }

  /** The payload translated for one entity or for a list of them. */
  datatype Unserialized = One(entity: Option<Record>) | Many(entities: seq<Option<Record>>)

  /**
   * `unserializePayload(typeName, payload, true)`: the entity under the type
   * name, or else under its plural; null when neither is truthy. Reading a
   * key of a null or undefined payload throws.
   */
  function UnserializeSingle(schema: Schema, unserialize: Transform, typeName: string, payload: Value)
    : Result<Option<Record>>
  {
    if payload == Null || payload == Undefined then Err(TypeError)
    else
      var entity := Or(Prop(payload, typeName), Prop(payload, Pluralize(typeName)));
      if !Truthy(entity) then Ok(None)
      else Ok(UnserializedEntity(schema, unserialize, entity))
  }

  /**
   * `unserializePayload(typeName, payload, false)`: the list under the
   * plural, or else under the type name; `[]` when neither is truthy;
   * mapping over anything but an array throws.
   */
  function UnserializeList(schema: Schema, unserialize: Transform, typeName: string, payload: Value)
    : Result<seq<Option<Record>>>
  {
    if payload == Null || payload == Undefined then Err(TypeError)
    else
      var entities := Or(Prop(payload, Pluralize(typeName)), Prop(payload, typeName));
      if !Truthy(entities) then Ok([])
      else if !entities.Arr? then Err(TypeError)
      else Ok(seq(|entities.items|, i requires 0 <= i < |entities.items| =>
                  UnserializedEntity(schema, unserialize, entities.items[i])))
  }

  function UnserializePayload(schema: Schema, unserialize: Transform, typeName: string, payload: Value,
                              isSingle: bool): (r: Result<Unserialized>)
    ensures r.Ok? ==> (r.value.One? <==> isSingle)
    ensures payload == Null || payload == Undefined ==> r == Err(TypeError)
  {
    if isSingle then
      match UnserializeSingle(schema, unserialize, typeName, payload)
      case Ok(entity) => Ok(One(entity))
      case Err(e) => Err(e)
    else
      match UnserializeList(schema, unserialize, typeName, payload)
      case Ok(entities) => Ok(Many(entities))
      case Err(e) => Err(e)
  }

  /**
   * The key choice of a single payload: the type name wins when truthy, the
   * plural is the fallback, and neither gives null.
   */
  lemma SingleKeyChoice(schema: Schema, unserialize: Transform, typeName: string, fields: map<string, Value>)
    ensures var payload := Obj(fields);
      var singular := Prop(payload, typeName);
      var plural := Prop(payload, Pluralize(typeName));
      var r := UnserializeSingle(schema, unserialize, typeName, payload);
      && (Truthy(singular) ==> r == Ok(UnserializedEntity(schema, unserialize, singular)))
      && (!Truthy(singular) && Truthy(plural) ==> r == Ok(UnserializedEntity(schema, unserialize, plural)))
      && (!Truthy(singular) && !Truthy(plural) ==> r == Ok(None))
  {
  }

  /**
   * The key choice of a list payload: the plural wins when truthy, the type
   * name is the fallback, neither gives `[]`, and an array gives one
   * translated entity per element, in order.
   */
  lemma ListKeyChoice(schema: Schema, unserialize: Transform, typeName: string, fields: map<string, Value>)
    ensures var payload := Obj(fields);
      var plural := Prop(payload, Pluralize(typeName));
      var singular := Prop(payload, typeName);
      var chosen := if Truthy(plural) then plural else singular;
      var r := UnserializeList(schema, unserialize, typeName, payload);
      && (!Truthy(plural) && !Truthy(singular) ==> r == Ok([]))
      && (Truthy(chosen) && chosen.Arr? ==>
            r.Ok? && |r.value| == |chosen.items| &&
            forall i :: 0 <= i < |chosen.items| ==>
              r.value[i] == UnserializedEntity(schema, unserialize, chosen.items[i]))
      && (Truthy(chosen) && !chosen.Arr? ==> r == Err(TypeError))
  {
  }

  /** `unserializeMeta`: `payload?.meta`. */
  function UnserializeMeta(payload: Value): (r: Value)
    ensures payload.Obj? && "meta" in payload.fields ==> r == payload.fields["meta"]
    ensures payload.Obj? && "meta" !in payload.fields ==> r == Undefined
    ensures !payload.Obj? ==> r == Undefined
  {
    Prop(payload, "meta")
  }

  // ---------------------------------------------------------------------
  // Records to payload

  /** What `serializeEntity` returns: the id field is dropped when empty. */
  function SerializedEntity(schema: Schema, serialize: Transform, entity: Value): Record {
    var result := Fields(schema, serialize, entity);
    if IsEmpty(IdOf(result)) then result - {"id"} else result
  }

  /** `serializeEntity`: fills a fresh record field by field, then drops an empty id. */
  method SerializeEntity(schema: Schema, serialize: Transform, entity: Value) returns (r: Record)
    ensures r == SerializedEntity(schema, serialize, entity)
  {
    r := map[];
    var i := 0;
    while i < |schema|
      invariant 0 <= i <= |schema|
      invariant r == Fields(schema[..i], serialize, entity)
    {
      var (key, fieldType) := schema[i];
      r := r[key := serialize(fieldType, Prop(entity, key))];
      assert schema[..i + 1][..i] == schema[..i];
      i := i + 1;
    }
    assert schema[..i] == schema;
    if IsEmpty(IdOf(r)) {
      r := r - {"id"};
    }
  }

  /**
   * A serialized entity keeps every schema field, each the field's
   * transform of the record's value, except an id whose serialized value is
   * empty, which is removed.
   */
  lemma SerializedEntityShape(schema: Schema, serialize: Transform, entity: Value)
    requires WellFormed(schema)
    ensures var r := SerializedEntity(schema, serialize, entity);
      && (forall i :: 0 <= i < |schema| && schema[i].0 != "id" ==>
            schema[i].0 in r && r[schema[i].0] == serialize(schema[i].1, Prop(entity, schema[i].0)))
      && (forall i :: 0 <= i < |schema| && schema[i].0 == "id" ==>
            ("id" in r <==> !IsEmpty(serialize(schema[i].1, Prop(entity, "id")))))
      && r.Keys <= FieldNames(schema)
      && (forall k :: k in r ==> !(k == "id" && IsEmpty(r[k])))
  {
    FieldsShape(schema, serialize, entity);
  }

  /** `serializePayload`: null for a falsy entity, else `{ [typeName]: entity }`. */
  function SerializePayload(schema: Schema, serialize: Transform, typeName: string, entity: Value): (r: Value)
    ensures !Truthy(entity) <==> r == Null
    ensures Truthy(entity) ==> r.Obj? && r.fields.Keys == {typeName}
  {
    if !Truthy(entity) then Null
    else Obj(map[typeName := Obj(SerializedEntity(schema, serialize, entity))])
  }

  /**
   * Round trip: when the two transforms undo each other on a record's values
   * and its id survives serialization, translating the serialized payload
   * back gives the record itself.
   */
  lemma RoundTrip(schema: Schema, unserialize: Transform, serialize: Transform, typeName: string, rec: Record)
    requires WellFormed(schema)
    requires rec.Keys == FieldNames(schema)
    requires forall i :: 0 <= i < |schema| ==>
      unserialize(schema[i].1, serialize(schema[i].1, rec[schema[i].0])) == rec[schema[i].0]
    requires "id" in rec && !IsEmpty(rec["id"])
    requires forall i :: 0 <= i < |schema| && schema[i].0 == "id" ==> !IsEmpty(serialize(schema[i].1, rec["id"]))
    ensures UnserializeSingle(schema, unserialize, typeName, SerializePayload(schema, serialize, typeName, Obj(rec)))
            == Ok(Some(rec))
  {
    var written := Fields(schema, serialize, Obj(rec));
    FieldsShape(schema, serialize, Obj(rec));
    assert "id" in FieldNames(schema);
    var k :| 0 <= k < |schema| && schema[k].0 == "id";
    assert !IsEmpty(IdOf(written));
    assert SerializedEntity(schema, serialize, Obj(rec)) == written;
    var payload := SerializePayload(schema, serialize, typeName, Obj(rec));
    assert Prop(payload, typeName) == Obj(written);
    var read := Fields(schema, unserialize, Obj(written));
    FieldsShape(schema, unserialize, Obj(written));
    forall f | f in rec ensures read[f] == rec[f] {
      var i :| 0 <= i < |schema| && schema[i].0 == f;
      assert Prop(Obj(written), f) == serialize(schema[i].1, rec[f]);
    }
    assert read == rec;
  }
}
