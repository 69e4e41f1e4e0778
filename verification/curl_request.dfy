/** The curl request snippet: the single-quoted URL and the option string built
    from one captured request. The options are first assembled as a list of
    tokens, in the order the snippet prints them, and then rendered with the
    snippet's exact format strings. */
module CurlRequest {

  import opened Wrappers
  import opened Text
  import opened Parameters
  import opened HeaderFilters
  import Reconciler

  datatype HttpMethod = GET | HEAD | POST | PUT | PATCH | DELETE | OPTIONS | TRACE

  /** The enum constant's name, as `%s` prints it. */
  function MethodName(m: HttpMethod): string {
    match m
    case GET => "GET"
    case HEAD => "HEAD"
    case POST => "POST"
    case PUT => "PUT"
    case PATCH => "PATCH"
    case DELETE => "DELETE"
    case OPTIONS => "OPTIONS"
    case TRACE => "TRACE"
  }

  /** One multipart part; a `null` file name or content type is `None`. The
      content type is kept as its printed text. */
  datatype Part = Part(name: string, submittedFileName: Option<string>, contentType: Option<string>, content: string)

  /** The captured request; `content` is its body as text. */
  datatype Request = Request(
    httpMethod: HttpMethod,
    uri: string,
    headers: Headers,
    content: string,
    parts: seq<Part>,
    parameters: Params)

  /** The foreign code the snippet calls: Base64 decoding of a credential,
      `QueryStringParser.parse` of the URI, and `Parameters.toQueryString`. */
  datatype Collaborators = Collaborators(
    decodeBase64: Base64Decoder,
    parseQuery: string -> Params,
    toQueryString: Params -> string)

  /** One option of the curl command line. */
  datatype Opt =
    | IncludeHeaders                       // -i
    | User(credentials: string)            // -u 'credentials'
    | Method(token: string)                // -X TOKEN
    | HeaderLine(name: string, value: string)  // -H 'name: value'
    | Form(field: string, text: string)    // -F 'field=text'
    | Data(payload: string)                // -d 'payload'

  /** The position of each kind of option in the command line. */
  function Rank(o: Opt): nat {
    match o
    case IncludeHeaders => 0
    case User(_) => 1
    case Method(_) => 2
    case HeaderLine(_, _) => 3
    case Form(_, _) => 4
    case Data(_) => 5
  }

  /** The text the snippet prints for one option. Every option but the first is
      introduced by a single space. */
  function Render(o: Opt): (r: string)
    ensures o.IncludeHeaders? <==> r == "-i"
    ensures !o.IncludeHeaders? ==> |r| > 1 && r[0] == ' ' && r[1] == '-'
  {
    match o
    case IncludeHeaders => "-i"
    case User(c) => " -u '" + c + "'"
    case Method(t) => " -X " + t
    case HeaderLine(n, v) => " -H '" + n + ": " + v + "'"
    case Form(f, t) => " -F '" + f + "=" + t + "'"
    case Data(d) => " -d '" + d + "'"
  }

  function RenderAll(os: seq<Opt>): string {
    if |os| == 0 then "" else Render(os[0]) + RenderAll(os[1..])
  }

  /** Printing a list is printing its parts one after the other. */
  lemma {:induction false} RenderAllAppend(a: seq<Opt>, b: seq<Opt>)
    ensures RenderAll(a + b) == RenderAll(a) + RenderAll(b)
    decreases |a|
  {
    if |a| == 0 {
      assert a + b == b;
    } else {
      assert (a + b)[0] == a[0];
      assert (a + b)[1..] == a[1..] + b;
      RenderAllAppend(a[1..], b);
    }
  }

  /** Options rendered after the first each contribute a fragment opened by a space
      and a dash. */
  lemma {:induction false} RenderAllSpaced(os: seq<Opt>)
    requires forall i :: 0 <= i < |os| ==> !os[i].IncludeHeaders?
    ensures RenderAll(os) == "" <==> os == []
    ensures os != [] ==> |RenderAll(os)| > 1 && RenderAll(os)[0] == ' ' && RenderAll(os)[1] == '-'
    decreases |os|
  {
    if |os| > 0 {
      RenderAllSpaced(os[1..]);
    }
  }

  // ----- The URL -----

  /** `getUrl`: the URI between single quotes, verbatim. */
  function Url(uri: string): string {
    "'" + uri + "'"
  }

  /** Drops the first and the last character. */
  function Unquote(s: string): string {
    if |s| < 2 then s else s[1..|s| - 1]
  }

  /** The URL is the URI quoted, nothing escaped: removing the outer quotes gives
      back the URI, whatever quotes it contains. */
  lemma UrlRoundTrip(uri: string)
    ensures |Url(uri)| == |uri| + 2
    ensures Url(uri)[0] == '\'' && Url(uri)[|uri| + 1] == '\''
    ensures Unquote(Url(uri)) == uri
  {
    assert Url(uri)[1..|uri| + 1] == uri;
  }

  // ----- The options, one writer at a time -----

  /** `writeUserOptionIfNecessary`: the `Authorization` values are found through
      the case-insensitive header map, independently of the filters. */
  function UserOptions(hs: Headers, decode: Base64Decoder): (r: Result<seq<Opt>, CurlError>)
    ensures !IsBasicAuthHeader(GetHeader(hs, AUTHORIZATION)) ==> r == Ok([])
    ensures IsBasicAuthHeader(GetHeader(hs, AUTHORIZATION)) ==>
      var encoded := GetHeader(hs, AUTHORIZATION).value[0][|BASIC_PREFIX|..];
      && (r.Ok? <==> decode(encoded).Some?)
      && (r.Ok? ==> r.value == [User(decode(encoded).value)])
  {
    var auth := GetHeader(hs, AUTHORIZATION);
    if IsBasicAuthHeader(auth) then
      match DecodeBasicAuthHeader(auth.value, decode)
      case Ok(credentials) => Ok([User(credentials)])
      case Err(e) => Err(e)
    else Ok([])
  }

  /** `writeHttpMethodIfNecessary`. */
  function MethodOptions(m: HttpMethod): (r: seq<Opt>)
    ensures r == [] <==> m == GET
    ensures m != GET ==> r == [Method(MethodName(m))]
  {
    if m != GET then [Method(MethodName(m))] else []
  }

  /** One `-H` option per value of an allowed header, in value order. */
  function HeaderValueOptions(name: string, values: seq<string>): (r: seq<Opt>)
    ensures |r| == |values|
    ensures forall j :: 0 <= j < |values| ==> r[j] == HeaderLine(name, values[j])
  {
    seq(|values|, j requires 0 <= j < |values| => HeaderLine(name, values[j]))
  }

  /** `writeHeaders`: entries in the map's order, skipping the ones a filter denies. */
  function HeaderOptions(hs: Headers): seq<Opt> {
    if |hs| == 0 then []
    else (if AllowedHeader(hs[0]) then HeaderValueOptions(hs[0].name, hs[0].values) else [])
         + HeaderOptions(hs[1..])
  }

  /** The part's value after `name=`: its content when the submitted file name has
      no text, `@` and the file name otherwise, then `;type=` and the content type
      when there is one. */
  function PartValue(p: Part): (r: string)
    ensures HasTextOpt(p.submittedFileName) ==> StartsWith(r, "@" + p.submittedFileName.value)
    ensures !HasTextOpt(p.submittedFileName) ==> StartsWith(r, p.content)
    ensures p.contentType.Some? ==> EndsWith(r, ";type=" + p.contentType.value)
    ensures |r| == (if HasTextOpt(p.submittedFileName) then 1 + |p.submittedFileName.value| else |p.content|)
                 + (if p.contentType.Some? then |";type="| + |p.contentType.value| else 0)
  {
    var file := if HasTextOpt(p.submittedFileName) then "@" + p.submittedFileName.value else p.content;
    var kind := if p.contentType.Some? then ";type=" + p.contentType.value else "";
    assert (file + kind)[..|file|] == file;
    assert (file + kind)[|file|..] == kind;
    file + kind
  }

  /** `writePartsIfNecessary`: one `-F` option per part, in the request's order. */
  function PartOptions(ps: seq<Part>): (r: seq<Opt>)
    ensures |r| == |ps|
    ensures forall i :: 0 <= i < |ps| ==> r[i] == Form(ps[i].name, PartValue(ps[i]))
  {
    seq(|ps|, i requires 0 <= i < |ps| => Form(ps[i].name, PartValue(ps[i])))
  }

  /** One `-F` option per value of every parameter, unreconciled. */
  function FieldOptions(parameters: Params): seq<Opt> {
    if |parameters| == 0 then []
    else seq(|parameters[0].1|, j requires 0 <= j < |parameters[0].1| => Form(parameters[0].0, parameters[0].1[j]))
         + FieldOptions(parameters[1..])
  }

  predicate IsPutOrPost(m: HttpMethod) {
    m == PUT || m == POST
  }

  /** `writeContentUsingParameters`: the reconciled parameters as one query string,
      sent only when it has text. */
  function ReconciledData(req: Request, env: Collaborators): seq<Opt> {
    var unique := Reconciler.GetUniqueParameters(req.parameters, env.parseQuery(req.uri));
    var queryString := env.toQueryString(unique);
    if HasText(queryString) then [Data(queryString)] else []
  }

  /** `writeContent`: the first applicable of body text, the raw parameters of a
      multipart request, the reconciled parameters of a PUT or POST, nothing. */
  function ContentOptions(req: Request, env: Collaborators): seq<Opt> {
    if HasText(req.content) then [Data(req.content)]
    else if |req.parts| > 0 then FieldOptions(req.parameters)
    else if IsPutOrPost(req.httpMethod) then ReconciledData(req, env)
    else []
  }

  /** `getOptions` as a token list; fails only when a Basic credential does not
      decode. */
  function OptionList(req: Request, env: Collaborators): Result<seq<Opt>, CurlError> {
    match UserOptions(req.headers, env.decodeBase64)
    case Err(e) => Err(e)
    case Ok(user) =>
      Ok([IncludeHeaders] + user + MethodOptions(req.httpMethod) + HeaderOptions(req.headers)
         + PartOptions(req.parts) + ContentOptions(req, env))
  }

  /** `getOptions`: the printed option string. */
  function Options(req: Request, env: Collaborators): (r: Result<string, CurlError>)
    ensures r.Err? <==> OptionList(req, env).Err?
    ensures r.Ok? ==> |r.value| >= 2 && r.value[..2] == "-i"
    ensures r.Ok? ==> r.value == RenderAll(OptionList(req, env).value)
  {
    match OptionList(req, env)
    case Err(e) => Err(e)
    case Ok(os) =>
      assert os == [os[0]] + os[1..];
      RenderAllAppend([os[0]], os[1..]);
      assert RenderAll([os[0]]) == "-i";
      Ok(RenderAll(os))
  }
}
