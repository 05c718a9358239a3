/**
 What the output schema of a subagent task accepts (orchestration.rs, `from_plan_step` and `validate_schema_value`).
 */
module OutputSchemas {
  import opened JsonValues
  import opened TaskTypes

  predicate IsTextArray(value: Json) {
    value.Array? && forall i :: 0 <= i < |value.items| ==> value.items[i].Text?
  }

  /** An object of a text `answer` and a list of texts `evidence`, and nothing else. */
  predicate IsSubagentOutput(data: Json) {
    && data.Object?
    && (match Get(data, "answer") case Some(answer) => answer.Text? case None => false)
    && (match Get(data, "evidence") case Some(evidence) => IsTextArray(evidence) case None => false)
    && forall i :: 0 <= i < |data.fields| ==> data.fields[i].key in {"answer", "evidence"}
  }

  function EvidenceSchema(): Json {
    Object([Field("items", StringSchema()), Field("type", Text("array"))])
  }

  function SubagentProperties(): seq<Field> {
    [Field("answer", StringSchema()), Field("evidence", EvidenceSchema())]
  }

  lemma FirstField(f: Field, rest: seq<Field>, key: string)
    ensures FieldOf([f] + rest, key) == if f.key == key then Some(f.value) else FieldOf(rest, key)
  {
    assert ([f] + rest)[1..] == rest;
  }

  lemma TextKeys()
    ensures "type" != "items" && "type" != "required" && "type" != "properties" && "type" != "additionalProperties"
    ensures "required" != "properties" && "required" != "additionalProperties"
    ensures "properties" != "additionalProperties" && "answer" != "evidence"
    ensures "items" != "required" && "items" != "properties" && "items" != "additionalProperties"
  {
    assert |"type"| == 4 && |"items"| == 5 && |"required"| == 8 && |"properties"| == 10;
    assert |"additionalProperties"| == 20 && |"answer"| == 6 && |"evidence"| == 8;
  }

  lemma StringSchemaFields()
    ensures Get(StringSchema(), "type") == Some(Text("string")) && Get(StringSchema(), "items") == None
  {
    TextKeys();
    FirstField(Field("type", Text("string")), [], "type");
    FirstField(Field("type", Text("string")), [], "items");
    assert [Field("type", Text("string"))] == [Field("type", Text("string"))] + [];
  }

  lemma StringSchemaAccepts(data: Json)
    ensures Conforms(StringSchema(), data) <==> data.Text?
  {
    StringSchemaFields();
  }

  lemma EvidenceSchemaFields()
    ensures Get(EvidenceSchema(), "type") == Some(Text("array"))
    ensures Get(EvidenceSchema(), "items") == Some(StringSchema())
  {
    TextKeys();
    var items, kind := Field("items", StringSchema()), Field("type", Text("array"));
    assert EvidenceSchema().fields == [items] + [kind] && [kind] == [kind] + [];
    FirstField(items, [kind], "type");
    FirstField(items, [kind], "items");
    FirstField(kind, [], "type");
  }

  lemma EvidenceSchemaAccepts(data: Json)
    ensures Conforms(EvidenceSchema(), data) <==> IsTextArray(data)
  {
    EvidenceSchemaFields();
    if data.Array? {
      forall i | 0 <= i < |data.items|
        ensures Conforms(StringSchema(), data.items[i]) <==> data.items[i].Text?
      {
        StringSchemaAccepts(data.items[i]);
      }
    }
  }

  lemma PropertyOf(key: string)
    ensures FieldOf(SubagentProperties(), key)
         == if key == "answer" then Some(StringSchema())
            else if key == "evidence" then Some(EvidenceSchema()) else None
  {
    var a, e := Field("answer", StringSchema()), Field("evidence", EvidenceSchema());
    assert SubagentProperties() == [a] + [e] && [e] == [e] + [];
    FirstField(a, [e], key);
    FirstField(e, [], key);
  }

  lemma FourFields(a: Field, b: Field, c: Field, d: Field, key: string)
    ensures FieldOf([a, b, c, d], key)
         == if key == a.key then Some(a.value) else if key == b.key then Some(b.value)
            else if key == c.key then Some(c.value) else if key == d.key then Some(d.value) else None
  {
    assert [a, b, c, d] == [a] + [b, c, d] && [b, c, d] == [b] + [c, d] && [c, d] == [c] + [d] && [d] == [d] + [];
    FirstField(a, [b, c, d], key);
    FirstField(b, [c, d], key);
    FirstField(c, [d], key);
    FirstField(d, [], key);
  }

  lemma SubagentSchemaField(key: string)
    ensures Get(SubagentSchema(), key)
         == if key == "additionalProperties" then Some(Boolean(false))
            else if key == "properties" then Some(Object(SubagentProperties()))
            else if key == "required" then Some(Array([Text("answer"), Text("evidence")]))
            else if key == "type" then Some(Text("object")) else None
  {
    FourFields(Field("additionalProperties", Boolean(false)), Field("properties", Object(SubagentProperties())),
               Field("required", Array([Text("answer"), Text("evidence")])), Field("type", Text("object")), key);
  }

  lemma SubagentSchemaFields()
    ensures ReadsAsSubagentSchema(SubagentSchema())
  {
    TextKeys();
    SubagentSchemaField("type");
    SubagentSchemaField("required");
    SubagentSchemaField("additionalProperties");
    SubagentSchemaField("items");
    SubagentSchemaField("properties");
  }

  /** Which fields `validate_schema_value` reads in the subagent schema. */
  predicate ReadsAsSubagentSchema(schema: Json) {
    && Get(schema, "type") == Some(Text("object"))
    && Get(schema, "required") == Some(Array([Text("answer"), Text("evidence")]))
    && Get(schema, "additionalProperties") == Some(Boolean(false))
    && Get(schema, "items") == None
    && Properties(schema) == SubagentProperties()
  }

  predicate FieldConforms(schema: Json, field: Field) {
    match FieldOf(Properties(schema), field.key)
    case Some(inner) => Conforms(inner, field.value)
    case None => true
  }

  lemma FieldConformsMeans(schema: Json, field: Field)
    requires ReadsAsSubagentSchema(schema) && field.key in {"answer", "evidence"}
    ensures FieldConforms(schema, field)
       <==> if field.key == "answer" then field.value.Text? else IsTextArray(field.value)
  {
    PropertyOf(field.key);
    StringSchemaAccepts(field.value);
    EvidenceSchemaAccepts(field.value);
  }

  lemma KeysAreProperties(fields: seq<Field>)
    ensures KeysListed(SubagentProperties(), fields)
       <==> (forall i :: 0 <= i < |fields| ==> fields[i].key in {"answer", "evidence"})
  {
    forall i | 0 <= i < |fields|
      ensures FieldOf(SubagentProperties(), fields[i].key).Some? <==> fields[i].key in {"answer", "evidence"}
    {
      PropertyOf(fields[i].key);
    }
  }

  predicate HasNames(data: Json, names: seq<Json>) {
    forall i :: 0 <= i < |names| ==> names[i].Text? ==> Get(data, names[i].text).Some?
  }

  lemma HasBothNames(data: Json)
    ensures HasNames(data, [Text("answer"), Text("evidence")])
       <==> Get(data, "answer").Some? && Get(data, "evidence").Some?
  {
    var names := [Text("answer"), Text("evidence")];
    assert names[0] == Text("answer") && names[1] == Text("evidence");
  }

  /** Conforming to the subagent schema, spelled out. */
  lemma ConformsMeans(schema: Json, data: Json)
    requires ReadsAsSubagentSchema(schema)
    ensures Conforms(schema, data) <==>
              && data.Object? && Get(data, "answer").Some? && Get(data, "evidence").Some?
              && KeysListed(SubagentProperties(), data.fields)
              && (forall i :: 0 <= i < |data.fields| ==> FieldConforms(schema, data.fields[i]))
  {
    HasBothNames(data);
    if data.Object? {
      ObjectConforms(schema, data);
    }
  }

  predicate KeysListed(properties: seq<Field>, fields: seq<Field>) {
    forall i :: 0 <= i < |fields| ==> FieldOf(properties, fields[i].key).Some?
  }

  lemma ObjectConforms(schema: Json, data: Json)
    requires ReadsAsSubagentSchema(schema) && data.Object?
    ensures Conforms(schema, data) <==>
              && HasNames(data, [Text("answer"), Text("evidence")]) && KeysListed(Properties(schema), data.fields)
              && (forall i :: 0 <= i < |data.fields| ==> FieldConforms(schema, data.fields[i]))
  {
  }

  lemma AcceptedIsOutput(schema: Json, data: Json)
    requires ReadsAsSubagentSchema(schema) && Conforms(schema, data)
    ensures IsSubagentOutput(data)
  {
    ConformsMeans(schema, data);
    KeysAreProperties(data.fields);
    TextKeys();
    var a :| 0 <= a < |data.fields| && data.fields[a] == Field("answer", Get(data, "answer").value);
    var e :| 0 <= e < |data.fields| && data.fields[e] == Field("evidence", Get(data, "evidence").value);
    FieldConformsMeans(schema, data.fields[a]);
    FieldConformsMeans(schema, data.fields[e]);
  }

  lemma OutputIsAccepted(schema: Json, data: Json)
    requires ReadsAsSubagentSchema(schema) && data.Object? && DistinctKeys(data.fields) && IsSubagentOutput(data)
    ensures Conforms(schema, data)
  {
    ConformsMeans(schema, data);
    KeysAreProperties(data.fields);
    forall i | 0 <= i < |data.fields| ensures FieldConforms(schema, data.fields[i]) {
      FieldAt(data.fields, i);
      FieldConformsMeans(schema, data.fields[i]);
    }
  }

  /** The schema every subagent task gets accepts exactly the objects of a text answer and a list of text evidence. */
  lemma SubagentSchemaAccepts(data: Json)
    requires data.Object? ==> DistinctKeys(data.fields)
    ensures Conforms(SubagentSchema(), data) <==> IsSubagentOutput(data)
  {
    SubagentSchemaFields();
    if Conforms(SubagentSchema(), data) {
      AcceptedIsOutput(SubagentSchema(), data);
    } else if IsSubagentOutput(data) {
      OutputIsAccepted(SubagentSchema(), data);
    }
  }
}
