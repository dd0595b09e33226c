/** The domain error type: a message and the HTTP status it carries. */
module DomainExceptions {
  import opened Wrappers

  datatype DomainException = DomainException(message: string, statusCode: int) {
    /** The exception reports no stack trace. */
    function StackTrace(): Option<string> {
      None
    }
  }

  /** The constructor; the status defaults to 500 (InternalServerError). */
  function New(message: string, statusCode: int := 500): DomainException {
    DomainException(message, statusCode)
  }

  function UserAlreadyExists(): DomainException { New("User already exists", 409) }

  function InvalidAuthToken(): DomainException { New("Invalid authentication token", 401) }

  function InvalidCredentials(): DomainException { New("Invalid credentials", 401) }

  function CaptchaChallengeFailed(): DomainException { New("Captcha challenge failed", 403) }

  /**
   * The four factories: a conflict for an existing user, unauthorized for a bad token or
   * bad credentials, forbidden for a failed captcha; a status left out is 500; no
   * exception has a stack trace.
   */
  lemma FactoryStatuses(message: string, e: DomainException)
    ensures UserAlreadyExists() == DomainException("User already exists", 409)
    ensures InvalidAuthToken().statusCode == 401 && InvalidCredentials().statusCode == 401
    ensures InvalidAuthToken() != InvalidCredentials()
    ensures CaptchaChallengeFailed().statusCode == 403
    ensures New(message).statusCode == 500 && New(message).message == message
    ensures e.StackTrace().None?
  {
  }
}

/** The global exception handler: the response written for an unhandled exception. */
module AppExceptionHandler {
  import opened Wrappers
  import opened DomainExceptions

  /** What reached the handler: a domain exception or any other exception. */
  datatype Thrown = Domain(exception: DomainException) | Other(message: string)

  /** Status, content type and the JSON object written as the body. */
  datatype Response = Response(statusCode: int, contentType: string, body: map<string, string>)

  const UnexpectedMessage: string := "An unexpected error occurred"

  /**
   * A domain exception yields its own status and message; anything else, or no exception
   * at all, yields 500 with a generic message. The body is always `{ "error": message }`
   * in JSON.
   */
  function Handle(error: Option<Thrown>): (r: Response)
    ensures r.contentType == "application/json" && r.body.Keys == {"error"}
    ensures error.Some? && error.value.Domain? ==>
      r.statusCode == error.value.exception.statusCode && r.body["error"] == error.value.exception.message
    ensures !(error.Some? && error.value.Domain?) ==>
      r.statusCode == 500 && r.body["error"] == UnexpectedMessage
  {
    var (statusCode, message) :=
      match error
      case Some(Domain(exc)) => (exc.statusCode, exc.message)
      case _ => (500, UnexpectedMessage);
    Response(statusCode, "application/json", map["error" := message])
  }

  /** The messages of other exceptions never reach the client. */
  lemma OtherMessagesHidden(m1: string, m2: string)
    ensures Handle(Some(Other(m1))) == Handle(Some(Other(m2))) == Handle(None)
  {
  }
}
