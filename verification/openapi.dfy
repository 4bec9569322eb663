/** The shapes of the OpenAPI documents the gateway reads from each table service and the
    document it serves at `/openapi.json`. Only the parts the gateway looks at are structured;
    everything it copies without looking is an uninterpreted JSON value. A JSON object whose
    keys the gateway iterates is a sequence of (key, value) pairs in document order. */
module OpenApi {
  import opened Wrappers

  datatype Json =
    | JNull
    | JBool(b: bool)
    | JNumber(n: int)
    | JString(s: string)
    | JArray(items: seq<Json>)
    | JObject(fields: seq<(string, Json)>)

  /** A value stored under a path item: an operation object (its optional `tags` list and the
      rest of it), or a value that is not an object (`parameters`, `summary`, ...). */
  datatype PathValue =
    | Operation(tags: Option<seq<string>>, details: Json)
    | NotAnObject(value: Json)

  /** A path item: `null`, or an object whose entries are its operations and other values. */
  datatype PathItem = NullItem | Item(entries: seq<(string, PathValue)>)

  datatype Components = Components(schemas: Option<seq<(string, Json)>>)

  /** A table service's OpenAPI document; `None` stands for a missing (or null) key. */
  datatype Spec = Spec(components: Option<Components>, paths: Option<seq<(string, PathItem)>>)

  /** An entry of the aggregated `tags` list, `{"name": name}`. */
  datatype Tag = Tag(name: string)

  datatype Info = Info(title: string, version: string, description: string)

  /** The aggregated document; `componentSchemas` is `components.schemas`, the only key of
      `components`. */
  datatype Document = Document(
    openapi: string,
    xSource: string,
    info: Info,
    paths: map<string, PathItem>,
    tags: seq<Tag>,
    servers: seq<Json>,
    componentSchemas: map<string, Json>)
}
