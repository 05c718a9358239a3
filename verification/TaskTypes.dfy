/** Child-task specifications, results and node states (orchestration.rs). */
module TaskTypes {
  import opened Names
  import opened JsonValues

  datatype NodeState = Queued | Ready | Running | Succeeded | Failed | Cancelled | Unknown | Blocked | Stale

  datatype OrchestrationError =
    | Cycle
    | MissingNode
    | DuplicateTask
    | UnknownRecordRetained
    | MissingEvidence
    | StaleResult
    | UnknownResult
    | UnverifiedWrite
    | OutputSchemaViolation

  datatype Outcome = Ok | Err(error: OrchestrationError)

  datatype ChildTaskSpec = ChildTaskSpec(
    taskId: Name,
    dependencies: seq<Name>,
    provider: Name,
    workspace: Name,
    environment: Name,
    snapshot: nat,
    outputSchema: Json)

  datatype ChildTaskResult = ChildTaskResult(
    data: Json,
    evidence: seq<string>,
    snapshot: nat,
    changeSets: seq<string>,
    acceptanceVerified: bool,
    stale: bool,
    unknown: bool,
    writes: bool)
  {
    function Validate(expectedSnapshot: nat): Outcome {
      if |evidence| == 0 then Err(MissingEvidence)
      else if snapshot != expectedSnapshot || stale then Err(StaleResult)
      else if unknown then Err(UnknownResult)
      else if writes && (|changeSets| == 0 || !acceptanceVerified) then Err(UnverifiedWrite)
      else Ok
    }

    function ValidateFor(spec: ChildTaskSpec): Outcome {
      if Validate(spec.snapshot) != Ok then Validate(spec.snapshot)
      else if Conforms(spec.outputSchema, data) then Ok
      else Err(OutputSchemaViolation)
    }
  }

  /** What a worker sends back: a result or the reason there is none. */
  datatype Report = Produced(result: ChildTaskResult) | NoResult

  predicate TypeMatches(name: string, data: Json) {
    match name
    case "object" => data.Object?
    case "array" => data.Array?
    case "string" => data.Text?
    case "number" => data.Number?
    case "integer" => data.Number? && data.integer
    case "boolean" => data.Boolean?
    case "null" => data.Null?
    case _ => false
  }

  function Properties(schema: Json): seq<Field> {
    match Get(schema, "properties")
    case Some(Object(fields)) => fields
    case _ => []
  }

  /** `validate_schema_value`: the data fits the schema.  Display paths are left out. */
  predicate Conforms(schema: Json, data: Json)
    decreases data
  {
    && (match Get(schema, "type")
        case Some(Text(name)) => TypeMatches(name, data)
        case _ => true)
    && (data.Object? ==>
          && (match Get(schema, "required")
              case Some(Array(names)) =>
                forall i :: 0 <= i < |names| ==> names[i].Text? ==> Get(data, names[i].text).Some?
              case _ => true)
          && (Get(schema, "additionalProperties") == Some(Boolean(false)) ==>
                forall i :: 0 <= i < |data.fields| ==> FieldOf(Properties(schema), data.fields[i].key).Some?)
          && forall i :: 0 <= i < |data.fields| ==>
               match FieldOf(Properties(schema), data.fields[i].key)
               case Some(inner) => Conforms(inner, data.fields[i].value)
               case None => true)
    && (data.Array? ==>
          match Get(schema, "items")
          case Some(items) => forall i :: 0 <= i < |data.items| ==> Conforms(items, data.items[i])
          case None => true)
  }

  function StringSchema(): Json {
    Object([Field("type", Text("string"))])
  }

  /** The schema `from_plan_step` gives every subagent task. */
  function SubagentSchema(): Json {
    Object([
      Field("additionalProperties", Boolean(false)),
      Field("properties", Object([
        Field("answer", StringSchema()),
        Field("evidence", Object([Field("items", StringSchema()), Field("type", Text("array"))]))])),
      Field("required", Array([Text("answer"), Text("evidence")])),
      Field("type", Text("object"))])
  }
}
