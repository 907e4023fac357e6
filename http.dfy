/** Shared vocabulary of the views: optional values, parsed JSON bodies,
    JSON responses and the incoming request. */
module Http {

  datatype Option<+T> = None | Some(value: T)

  /** A JSON document as `json.loads` returns it. */
  datatype JsonValue =
    | JNull
    | JBool(b: bool)
    | JInt(i: int)
    | JFloat(x: real)
    | JString(s: string)
    | JArray(items: seq<JsonValue>)
    | JObject(fields: map<string, JsonValue>)

  /** Python truthiness of a decoded JSON value (`if not prompt:`). */
  predicate Truthy(v: JsonValue) {
    match v
    case JNull => false
    case JBool(b) => b
    case JInt(i) => i != 0
    case JFloat(x) => x != 0.0
    case JString(s) => s != ""
    case JArray(items) => items != []
    case JObject(fields) => fields != map[]
  }

  /** Python's name for the type a JSON value decodes to. */
  function PyTypeName(v: JsonValue): string {
    match v
    case JNull => "NoneType"
    case JBool(_) => "bool"
    case JInt(_) => "int"
    case JFloat(_) => "float"
    case JString(_) => "str"
    case JArray(_) => "list"
    case JObject(_) => "dict"
  }

  /** The value a JSON object holds under key, if any.  Python's lookup
      gives None both for an absent key and for a JSON null; `Falsy`
      treats the two alike. */
  function DictGet(fields: map<string, JsonValue>, key: string): Option<JsonValue> {
    if key in fields then Some(fields[key]) else None
  }

  /** The value read from a JSON object is absent, null or falsy. */
  predicate Falsy(v: Option<JsonValue>) {
    v.None? || !Truthy(v.value)
  }

  /** Message of the AttributeError raised by `data.get` on a non-dict. */
  function NoGetMessage(v: JsonValue): string {
    "'" + PyTypeName(v) + "' object has no attribute 'get'"
  }

  /** The request body after `json.loads(request.body.decode('utf-8'))`:
      either the exception text of a failed decode or the document. */
  datatype Body = Undecodable(error: string) | Json(value: JsonValue)

  datatype ResponseBody =
    | ErrorBody(error: string)
    | GeneratedBody(response: string)

  /** What a view hands back to Django: a `JsonResponse`, or an exception
      that escapes the view (Django then answers with its own 500 page). */
  datatype Response =
    | JsonResponse(status: int, body: ResponseBody)
    | Unhandled(exception: string)

  /** The incoming request.  Only `user_id` is assigned by the views: the
      token gate copies the payload's `id` claim into it, whatever JSON value
      that claim holds; it is absent until then. */
  class Request {
    const httpMethod: string
    const authorization: Option<string>
    const body: Body
    var userId: Option<JsonValue>

    constructor (httpMethod: string, authorization: Option<string>, body: Body)
      ensures this.httpMethod == httpMethod && this.authorization == authorization
      ensures this.body == body && userId == None
    {
      this.httpMethod := httpMethod;
      this.authorization := authorization;
      this.body := body;
      userId := None;
    }
  }
}
