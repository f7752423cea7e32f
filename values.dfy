/**
 The values the configuration manager reads and writes: JSON values (as far
 as the settings file needs them), server launch configurations, the server
 and profile records of the registries, and the state of a JSON file on disk.
 */
module Values {

  datatype Option<+T> = None | Some(value: T)
  {
    function GetOr(default: T): T
    {
      match this
      case Some(v) => v
      case None => default
    }
  }

  datatype Result<+T, +E> = Ok(value: T) | Err(error: E)

  /** A JSON value. Numbers are decimals; JSON has no NaN, so `real` covers them. */
  datatype JsonValue =
    | JNull
    | JBool(b: bool)
    | JNumber(x: real)
    | JString(s: string)
    | JArray(items: seq<JsonValue>)
    | JObject(fields: map<string, JsonValue>)

  /** JavaScript truthiness of a parsed JSON value: null, false, 0 and "" are falsy. */
  predicate Truthy(v: JsonValue)
    ensures !Truthy(v) <==> v == JNull || v == JBool(false) || v == JNumber(0.0) || v == JString("")
  {
    match v
    case JNull => false
    case JBool(b) => b
    case JNumber(x) => x != 0.0
    case JString(s) => s != ""
    case JArray(_) => true
    case JObject(_) => true
  }

  /** How a server is launched; copied verbatim into the project config. */
  datatype LaunchConfig = LaunchConfig(
    transport: string,
    command: string,
    args: seq<string>,
    env: Option<map<string, string>>)

  datatype Server = Server(
    name: string,
    description: string,
    tags: seq<string>,
    config: LaunchConfig,
    tools: seq<string>)

  datatype Profile = Profile(
    name: string,
    description: string,
    servers: seq<string>)

  /** What reading a JSON file yields: no file, a file that fails to read or parse, or its parsed content. */
  datatype Stored<T> = Missing | Unparsable | Parsed(value: T)
}
