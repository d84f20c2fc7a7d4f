/** What both constructors do with their arguments before normalizing. */
module ClientInput {
  import opened Wrappers

  /** The error thrown when `splittedUrl[1]` is undefined and `.replace` is called on it. */
  datatype ConstructError = ReplaceOnUndefined

  /**
   * How a template literal or `String.prototype.concat` prints an optional
   * string: a present string as itself, an omitted one as "undefined", so
   * the two cannot be told apart afterwards.
   */
  function TemplateText(v: Option<string>): (t: string)
    ensures v.Some? ==> t == v.value
    ensures t == "undefined" <==> v.None? || v.value == "undefined"
  {
    match v
    case Some(s) => s
    case None => "undefined"
  }

  /** The string handed to `normalizeUrl`: the base URL, one '/', then the endpoint text. */
  function JoinedUrl(baseUrl: string, endpoint: Option<string>): (u: string)
    ensures |u| == |baseUrl| + 1 + |TemplateText(endpoint)|
    ensures u[..|baseUrl|] == baseUrl && u[|baseUrl|] == '/'
    ensures u[|baseUrl| + 1..] == TemplateText(endpoint)
    ensures endpoint.None? ==> u == baseUrl + "/undefined"
  {
    baseUrl + "/" + TemplateText(endpoint)
  }
}
