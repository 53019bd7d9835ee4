/**
 * The generic content-API fetcher `strapiFetch` (lib/strapi.ts): how a
 * response is classified into data or an error, and the module-level flag
 * that lets the "cannot reach the server" warning fire only once per process.
 * The HTTP request itself, the query-string encoding and the console are not
 * modelled: the transport outcome is an input, and the warnings the function
 * would print are appended to a log.
 */
module StrapiFetch {
  import opened Wrappers
  import opened Json

  /** What the server answered: status code, status text and body text. */
  datatype Response = Response(status: int, statusText: string, body: string)

  /** The outcome of the HTTP request: it failed before any answer, or an answer came. */
  datatype Transport = Unreachable(message: string) | Received(response: Response)

  /** The ways a fetch fails. */
  datatype FetchError =
    | NotConfigured                                          // no base URL
    | RequestFailed(message: string)                         // unreachable outside development
    | HttpError(status: int, statusText: string, body: string) // a non-2xx status other than 403/404
    | NullEnvelope                                           // 403/404 whose body is `null`: `null.data` throws

  /** A console warning the fetcher would print. */
  datatype LogEntry = UnreachableWarning(baseUrl: string, message: string) | ForbiddenWarning(path: string)

  /** `res.ok` */
  predicate IsOk(status: int) {
    200 <= status <= 299
  }

  /** `text ? JSON.parse(text) : {}`, with a parse failure also read as `{}`. */
  function BodyJson(text: string, parse: string -> Option<Value>): (v: Value)
    ensures text == "" || parse(text).None? ==> v == Obj(map[])
    ensures text != "" && parse(text).Some? ==> v == parse(text).value
  {
    if text == "" then Obj(map[])
    else match parse(text)
      case None => Obj(map[])
      case Some(v) => v
  }

  /** `{ data: json.data ?? null }`; reading `.data` off `null` throws. */
  function Envelope(json: Value): (r: Result<Value, FetchError>)
    ensures r.Failure? <==> json.Null?
    ensures r.Failure? ==> r.error == NullEnvelope
    ensures r.Success? ==> r.value.Obj? && r.value.fields.Keys == {"data"}
    ensures r.Success? && !IsNullish(Get(json, "data")) ==> r.value.fields["data"] == json.fields["data"]
    ensures r.Success? && IsNullish(Get(json, "data")) ==> r.value.fields["data"] == Null
  {
    if json.Null? then Failure(NullEnvelope)
    else Success(Obj(map["data" := Coalesce(Get(json, "data"), Some(Null)).value]))
  }

  /**
   * What `strapiFetch` makes of an answer: a 2xx answer is its parsed body,
   * 404 and 403 are a `data` envelope and never an HTTP error, and any other
   * status is an error carrying the status, its text and the body.
   */
  function ClassifyResponse(resp: Response, parse: string -> Option<Value>): (r: Result<Value, FetchError>)
    ensures IsOk(resp.status) ==> r == Success(BodyJson(resp.body, parse))
    ensures resp.status == 404 || resp.status == 403 ==> r == Envelope(BodyJson(resp.body, parse))
    ensures r.Failure? && r.error.HttpError? <==> !IsOk(resp.status) && resp.status != 404 && resp.status != 403
    ensures r.Failure? && r.error.HttpError? ==> r.error == HttpError(resp.status, resp.statusText, resp.body)
  {
    var json := BodyJson(resp.body, parse);
    if IsOk(resp.status) then Success(json)
    else if resp.status == 404 || resp.status == 403 then Envelope(json)
    else Failure(HttpError(resp.status, resp.statusText, resp.body))
  }

  /** A successful answer never fails, whatever its body. */
  lemma OkNeverFails(resp: Response, parse: string -> Option<Value>)
    requires IsOk(resp.status)
    ensures ClassifyResponse(resp, parse).Success?
    ensures resp.body == "" ==> ClassifyResponse(resp, parse) == Success(Obj(map[]))
  {
  }

  /** A missing single document (404) or a missing permission (403) reads as `{data: null}` when the body has no data. */
  lemma MissingDocumentReadsNull(resp: Response, parse: string -> Option<Value>)
    requires resp.status == 404 || resp.status == 403
    requires resp.body == "" || parse(resp.body).None?
    ensures ClassifyResponse(resp, parse) == Success(Obj(map["data" := Null]))
  {
  }

  /** What one call returns, given the configuration and the transport outcome. */
  function FetchOutcome(baseUrl: string, isDevelopment: bool, transport: Transport, parse: string -> Option<Value>): (r: Result<Value, FetchError>)
    ensures baseUrl == "" ==> r == Failure(NotConfigured)
    ensures baseUrl != "" && transport.Unreachable? && isDevelopment ==> r == Success(Obj(map["data" := Null]))
    ensures baseUrl != "" && transport.Unreachable? && !isDevelopment ==> r == Failure(RequestFailed(transport.message))
    ensures baseUrl != "" && transport.Received? ==> r == ClassifyResponse(transport.response, parse)
  {
    if baseUrl == "" then Failure(NotConfigured)
    else match transport
      case Unreachable(message) =>
        if isDevelopment then Success(Obj(map["data" := Null])) else Failure(RequestFailed(message))
      case Received(resp) => ClassifyResponse(resp, parse)
  }

  /** How many "unreachable" warnings a log holds. */
  function CountUnreachable(log: seq<LogEntry>): (n: nat)
    ensures n <= |log|
  {
    if log == [] then 0
    else (if log[|log| - 1].UnreachableWarning? then 1 else 0) + CountUnreachable(log[..|log| - 1])
  }

  /**
   * The fetcher's process-wide state: the configured base URL, whether the
   * process runs in development, the `strapiUnreachableWarned` flag and the
   * warnings printed so far.
   */
  class StrapiClient {
    const baseUrl: string
    const isDevelopment: bool
    var unreachableWarned: bool
    var log: seq<LogEntry>

    /** The flag is set exactly when one "unreachable" warning has been printed; nothing is printed outside development. */
    ghost predicate Valid()
      reads this
    {
      && CountUnreachable(log) == (if unreachableWarned then 1 else 0)
      && (!isDevelopment ==> log == [] && !unreachableWarned)
    }

    constructor(baseUrl: string, isDevelopment: bool)
      ensures Valid()
      ensures this.baseUrl == baseUrl && this.isDevelopment == isDevelopment
      ensures !unreachableWarned && log == []
    {
      this.baseUrl := baseUrl;
      this.isDevelopment := isDevelopment;
      unreachableWarned := false;
      log := [];
    }

    /**
     * `strapiFetch(path)` with the given transport outcome. The flag only
     * ever goes from false to true, on the first unreachable server in
     * development, and the warning is printed exactly then; a 403 in
     * development prints its own warning every time.
     */
    method Fetch(path: string, transport: Transport, parse: string -> Option<Value>) returns (r: Result<Value, FetchError>)
      requires Valid()
      modifies this
      ensures Valid()
      ensures r == FetchOutcome(baseUrl, isDevelopment, transport, parse)
      ensures old(unreachableWarned) ==> unreachableWarned
      ensures unreachableWarned <==> old(unreachableWarned) || (baseUrl != "" && isDevelopment && transport.Unreachable?)
      ensures !old(unreachableWarned) && unreachableWarned ==> log == old(log) + [UnreachableWarning(baseUrl, transport.message)]
      ensures baseUrl != "" && isDevelopment && transport.Received? && transport.response.status == 403 ==> log == old(log) + [ForbiddenWarning(path)]
      ensures unreachableWarned == old(unreachableWarned) && !(baseUrl != "" && isDevelopment && transport.Received? && transport.response.status == 403) ==> log == old(log)
    {
      if baseUrl == "" {
        return Failure(NotConfigured);
      }
      match transport
      case Unreachable(message) =>
        if isDevelopment {
          if !unreachableWarned {
            unreachableWarned := true;
            log := log + [UnreachableWarning(baseUrl, message)];
            assert log[..|log| - 1] == old(log);
          }
          return Success(Obj(map["data" := Null]));
        }
        return Failure(RequestFailed(message));
      case Received(resp) =>
        if !IsOk(resp.status) && resp.status == 403 && isDevelopment {
          log := log + [ForbiddenWarning(path)];
          assert log[..|log| - 1] == old(log);
        }
        return ClassifyResponse(resp, parse);
    }
  }
}
