/**
 * What the three route handlers exchange with their callers and with the
 * services they call: request bodies as JSON values, thrown errors, schema
 * issues, the JSON responses with their status codes, and the process
 * environment the handlers read.
 */
module Http {
  import opened Wrappers

  /** The kinds of schema issue the request schemas can report. */
  datatype IssueCode =
    | InvalidType                               // missing, or not of the expected JSON type
    | InvalidUrl                                // a string that is not a URL
    | InvalidUnion                              // none of the alternatives of a union matched
    | TooSmall(minimum: nat, message: string)   // a string shorter than the minimum
    | TooBig(maximum: nat)                      // a string longer than the maximum

  /** One schema issue, at the top-level field `path` ("" for the body itself). */
  datatype Issue = Issue(path: string, code: IssueCode)

  /**
   * The `error` text of a failed response: either a literal text, or the text
   * the schema library composes from its list of issues (whose exact
   * characters are not part of this model).
   */
  datatype Message = Text(text: string) | SchemaIssues(issues: seq<Issue>)

  /**
   * A thrown JavaScript value; `message` is present when the value is an
   * object whose `message` property is a string.
   */
  datatype Thrown = Thrown(message: Option<Message>)

  /** The message the handlers' catch blocks report for a thrown value. */
  function MessageOr(e: Thrown, fallback: string): Message {
    e.message.GetOr(Text(fallback))
  }

  /** A JSON response: a success payload (status 200) or `{ error }` with a status code. */
  datatype Response<T> = Ok(payload: T) | Err(status: nat, error: Message)

  /** What a handler answered, and the one outbound call it made, if any. */
  datatype Exchange<T, C> = Exchange(response: Response<T>, call: Option<C>)

  /** A top-level field value of a JSON request body: a string or anything else. */
  datatype JsonValue = JString(s: string) | JOther

  /** A parsed JSON request body: an object with its fields, or any non-object value. */
  datatype JsonBody = JObject(fields: map<string, JsonValue>) | JNonObject

  /** The environment variables the handlers read; None when unset. */
  datatype Env = Env(openaiKey: Option<string>, openaiModel: Option<string>, transcribeModel: Option<string>)

  /** A JavaScript string value that is truthy: present and not empty. */
  predicate Truthy(v: Option<string>) {
    v.Some? && v.value != ""
  }

  /** `v || d` for an optional string v. */
  function OrElse(v: Option<string>, d: string): string {
    if Truthy(v) then v.value else d
  }

  const MissingKeyMessage: string := "Missing OPENAI_API_KEY in environment."
}
