/**
 * The API client: how a request to the snippet service is put together from
 * the caller's options and the stored access token, and what a response turns
 * into. `fetch` is not modelled; the request is returned and the response is
 * an input. The base address `API_URL` comes from a configuration file that
 * is not part of this model and is a parameter.
 */
module ApiClient {
  import opened Wrappers

  const ContentTypeHeader: string := "Content-Type"
  const AuthorizationHeader: string := "Authorization"
  const FormContentType: string := "application/x-www-form-urlencoded"
  const JsonContentType: string := "application/json"
  const TokenKey: string := "token"
  const RequestFailedMessage: string := "Request failed"
  const UnknownErrorMessage: string := "An unknown error occurred"

  /**
   * The `body` option. A falsy value (`undefined`, `null`, `""`, `0`, ...)
   * adds nothing; form parameters are sent as they are; any other value is
   * sent as its JSON text, which stands here for `JSON.stringify` of it.
   */
  datatype Body = NoBody | SearchParams(form: string) | Value(json: string)

  /** The options object; an omitted field is `None`. */
  datatype Options = Options(
    httpMethod: Option<string>,
    headers: Option<map<string, string>>,
    body: Body,
    needsAuth: Option<bool>)

  /** What goes on the wire besides the address. */
  datatype SentBody = FormBody(form: string) | JsonBody(text: string)
  datatype RequestInit = RequestInit(httpMethod: string, headers: map<string, string>, body: Option<SentBody>)

  /** The stored token, when there is a truthy one. */
  function StoredToken(storage: map<string, string>): (token: Option<string>)
    ensures token.Some? <==> TokenKey in storage && storage[TokenKey] != ""
    ensures token.Some? ==> token.value == storage[TokenKey]
  {
    if TokenKey in storage && storage[TokenKey] != "" then Some(storage[TokenKey]) else None
  }

  /**
   * The request for `endpoint`: the address, the method (GET by default), the
   * caller's headers with a content type set by the body's kind and a bearer
   * token when one is stored and the call needs it (by default it does).
   */
  method BuildRequest(apiUrl: string, endpoint: string, options: Options, storage: map<string, string>)
    returns (url: string, config: RequestInit)
    ensures url == apiUrl + "/api" + endpoint
    ensures config.httpMethod == options.httpMethod.GetOr("GET")
    ensures var given := options.headers.GetOr(map[]);
      forall k :: k != ContentTypeHeader && k != AuthorizationHeader ==>
        (k in config.headers <==> k in given) && (k in given ==> config.headers[k] == given[k])
    ensures var given := options.headers.GetOr(map[]);
      match options.body
      case NoBody => ((ContentTypeHeader in config.headers <==> ContentTypeHeader in given)
        && (ContentTypeHeader in given ==> config.headers[ContentTypeHeader] == given[ContentTypeHeader])
        && config.body == None)
      case SearchParams(form) => (ContentTypeHeader in config.headers
        && config.headers[ContentTypeHeader] == FormContentType && config.body == Some(FormBody(form)))
      case Value(json) => (ContentTypeHeader in config.headers
        && config.headers[ContentTypeHeader] == JsonContentType && config.body == Some(JsonBody(json)))
    ensures var given := options.headers.GetOr(map[]);
      var token := StoredToken(storage);
      if options.needsAuth.GetOr(true) && token.Some? then
        AuthorizationHeader in config.headers && config.headers[AuthorizationHeader] == "Bearer " + token.value
      else
        (AuthorizationHeader in config.headers <==> AuthorizationHeader in given)
        && (AuthorizationHeader in given ==> config.headers[AuthorizationHeader] == given[AuthorizationHeader])
  {
    var headers := options.headers.GetOr(map[]);
    var body: Option<SentBody> := None;
    match options.body {
      case NoBody =>
      case SearchParams(form) =>
        headers := headers[ContentTypeHeader := FormContentType];
        body := Some(FormBody(form));
      case Value(json) =>
        headers := headers[ContentTypeHeader := JsonContentType];
        body := Some(JsonBody(json));
    }
    if options.needsAuth.GetOr(true) {
      var token := StoredToken(storage);
      if token.Some? {
        headers := headers[AuthorizationHeader := "Bearer " + token.value];
      }
    }
    config := RequestInit(options.httpMethod.GetOr("GET"), headers, body);
    url := apiUrl + "/api" + endpoint;
  }

  /** A response body as `response.json()` reads it: an object, or text that is not JSON. */
  datatype ResponseBody = Unparseable | Parsed(fields: map<string, string>)

  datatype Response = Response(ok: bool, status: int, body: ResponseBody)

  /** Why a call fails: an `Error` with a message, or the parse error of an unreadable success body. */
  datatype ApiError = RequestError(message: string) | InvalidJson

  /** The message of a failed response: a truthy `detail`, else a fixed text. */
  function ErrorMessage(body: ResponseBody): (message: string)
    ensures body.Unparseable? ==> message == UnknownErrorMessage
    ensures body.Parsed? && "detail" in body.fields && body.fields["detail"] != "" ==> message == body.fields["detail"]
    ensures body.Parsed? && !("detail" in body.fields && body.fields["detail"] != "") ==> message == RequestFailedMessage
    ensures message != ""
  {
    var detail := match body
      case Unparseable => UnknownErrorMessage
      case Parsed(fields) => if "detail" in fields then fields["detail"] else "";
    if detail != "" then detail else RequestFailedMessage
  }

  /** What the call resolves to: nothing for 204, the parsed body for another success, an error otherwise. */
  function HandleResponse(response: Response): (r: Result<Option<map<string, string>>, ApiError>)
    ensures !response.ok ==> r == Failure(RequestError(ErrorMessage(response.body)))
    ensures response.ok && response.status == 204 ==> r == Success(None)
    ensures response.ok && response.status != 204 && response.body.Parsed? ==> r == Success(Some(response.body.fields))
    ensures response.ok && response.status != 204 && response.body.Unparseable? ==> r == Failure(InvalidJson)
    ensures r.Failure? && r.error.RequestError? ==> r.error.message != ""
  {
    if !response.ok then Failure(RequestError(ErrorMessage(response.body)))
    else if response.status == 204 then Success(None)
    else match response.body
      case Parsed(fields) => Success(Some(fields))
      case Unparseable => Failure(InvalidJson)
  }
}
