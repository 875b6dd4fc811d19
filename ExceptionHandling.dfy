/** The application-wide translation of an exception that escapes a controller
    into a response whose body carries the same status as the response. */
module ExceptionHandling {
  import opened Lang
  import opened Http

  /** The exceptions the application-wide handler tells apart. */
  datatype Fault =
    | MethodArgumentNotValid(messages: seq<string>)   // one default message per violated constraint
    | TenantNotFound(message: string)
    | Unexpected(cause: Option<string>)               // any other exception; its message may be null

  /** Java's string concatenation writes a null reference as "null". */
  function ConcatText(s: Option<string>): string
  {
    if s.Some? then s.value else "null"
  }

  /** Validation failure: 400, every message, joined by ", " and nothing else. */
  function HandleValidationExceptions<T>(messages: seq<string>): (r: Response<T>)
    ensures r.status == BAD_REQUEST && r.body.StatusMessage? && r.body.status == r.status
    ensures r.body.message == Join(messages, ", ")
    ensures forall m :: m in messages ==> Contains(r.body.message, m)
    ensures |messages| == 1 ==> r.body.message == messages[0]
    ensures messages == [] ==> r.body.message == ""
  {
    var text := Join(messages, ", ");
    forall m | m in messages ensures Contains(text, m) {
      JoinContainsEach(messages, ", ", m);
    }
    Response(BAD_REQUEST, StatusMessage(BAD_REQUEST, text))
  }

  /** A missing tenant: 404, with the exception's message passed on unchanged. */
  function HandleTenantNotFound<T>(message: string): (r: Response<T>)
    ensures r.status == NOT_FOUND && r.body.StatusMessage? && r.body.status == r.status
    ensures r.body.message == message
  {
    Response(NOT_FOUND, StatusMessage(NOT_FOUND, message))
  }

  const UNEXPECTED_PREFIX := "An unexpected error occurred: "

  /** Anything else: 500, a fixed prefix followed by the exception's message. */
  function HandleGeneralExceptions<T>(message: Option<string>): (r: Response<T>)
    ensures r.status == INTERNAL_SERVER_ERROR && r.body.StatusMessage? && r.body.status == r.status
    ensures |r.body.message| >= |UNEXPECTED_PREFIX|
    ensures r.body.message[..|UNEXPECTED_PREFIX|] == UNEXPECTED_PREFIX
    ensures r.body.message[|UNEXPECTED_PREFIX|..] == ConcatText(message)
  {
    var text := UNEXPECTED_PREFIX + ConcatText(message);
    assert text[|UNEXPECTED_PREFIX|..] == ConcatText(message);
    Response(INTERNAL_SERVER_ERROR, StatusMessage(INTERNAL_SERVER_ERROR, text))
  }

  /** The handler chosen for each kind of exception. Each kind has its own
      status, and the body always repeats the status of the response. */
  function Translate<T>(f: Fault): (r: Response<T>)
    ensures r.body.StatusMessage? && r.body.status == r.status
    ensures r.status == BAD_REQUEST <==> f.MethodArgumentNotValid?
    ensures r.status == NOT_FOUND <==> f.TenantNotFound?
    ensures r.status == INTERNAL_SERVER_ERROR <==> f.Unexpected?
  {
    match f
    case MethodArgumentNotValid(messages) => HandleValidationExceptions(messages)
    case TenantNotFound(message) => HandleTenantNotFound(message)
    case Unexpected(cause) => HandleGeneralExceptions(cause)
  }

  /** Different exception kinds never produce the same response. */
  lemma TranslateSeparatesKinds<T>(f: Fault, g: Fault)
    requires Translate<T>(f) == Translate<T>(g)
    ensures f.MethodArgumentNotValid? <==> g.MethodArgumentNotValid?
    ensures f.TenantNotFound? <==> g.TenantNotFound?
    ensures f.TenantNotFound? ==> f == g
  {
  }
}
