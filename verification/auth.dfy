/** The `/auth` request handler: a chain of checks on the parsed request body
    where the first failure decides the response, wrapped in a catch-all that
    turns any exception into a generic internal-error response. */
module Auth {
  import opened Json
  import opened Gmail

  /** The exceptions the handler's `try` block can raise. */
  datatype Exception =
    | BodyError       // raised by `request.json` itself
    | AttributeError  // `.get` on a body that is not a dict
    | TypeError       // `re.match` on an email that is not a str

  /** A Python computation that returns a value or raises. */
  datatype Raises<+T> = Ok(value: T) | Raise(error: Exception) {

    predicate IsFailure() {
      Raise?
    }

    function PropagateFailure<U>(): Raises<U>
      requires Raise?
    {
      Raise(error)
    }

    function Extract(): T
      requires Ok?
    {
      value
    }
  }

  /** What reading `request.json` gave: the decoded body (Null when it
      returned None), or an exception. */
  datatype Request = Parsed(body: Value) | Unparseable

  /** The six responses the handler can send. */
  datatype Outcome =
    | MalformedBody
    | MissingFields
    | InvalidEmail
    | InvalidPassword
    | Success
    | InternalError
  {
    /** The HTTP status code sent with the outcome. */
    function Status(): int
    {
      match this
      case Success => 200
      case InternalError => 500
      case _ => 400
    }

    /** The `message` field of the JSON response. */
    function Message(): string
    {
      match this
      case MalformedBody => "Request must be a valid JSON."
      case MissingFields => "Email and password are required."
      case InvalidEmail => "Invalid email format. Must be a valid @gmail.com address."
      case InvalidPassword => "Invalid password format. Must be 8 digits."
      case Success => "Authentication successful"
      case InternalError => "An internal server error occurred."
    }
  }

  /** `request.json`. */
  function ReadJson(req: Request): Raises<Value>
  {
    match req
    case Parsed(v) => Ok(v)
    case Unparseable => Raise(BodyError)
  }

  /** `data.get(key)`: only a dict has a `get` attribute. */
  function DictGet(data: Value, key: string): Raises<Value>
  {
    if data.Obj? then Ok(Get(data.fields, key)) else Raise(AttributeError)
  }

  /** `re.match(r'[^@]+@gmail\.com$', email)` found a match; only a str can be
      matched. */
  function ReMatch(email: Value): Raises<bool>
  {
    if email.Str? then Ok(IsGmail(email.s)) else Raise(TypeError)
  }

  /** `isinstance(password, str) and len(password) >= 8`. */
  predicate PasswordOk(password: Value)
  {
    password.Str? && |password.s| >= 8
  }

  /** The body of the `try` block. */
  function TryBlock(req: Request): Raises<Outcome>
  {
    var data :- ReadJson(req);
    if !Truthy(data) then Ok(MalformedBody)
    else
      var email :- DictGet(data, "email");
      var password :- DictGet(data, "password");
      if !Truthy(email) || !Truthy(password) then Ok(MissingFields)
      else
        var matched :- ReMatch(email);
        if !matched then Ok(InvalidEmail)
        else if !PasswordOk(password) then Ok(InvalidPassword)
        else Ok(Success)
  }

  /** The handler: the `try` block, with every exception turned into the
      internal-error response. */
  function Authenticate(req: Request): Outcome
  {
    match TryBlock(req)
    case Ok(outcome) => outcome
    case Raise(_) => InternalError
  }

  // ---------------------------------------------------------------------------
  // Declarative descriptions of the request classes
  // ---------------------------------------------------------------------------

  /** The body was decoded to a truthy dict. */
  predicate ObjectBody(req: Request)
  {
    req.Parsed? && req.body.Obj? && Truthy(req.body)
  }

  /** The value under `key` in a decoded dict body (Null when absent). */
  function Field(req: Request, key: string): Value
    requires ObjectBody(req)
  {
    Get(req.body.fields, key)
  }

  /** A truthy dict body in which both fields are present and truthy. */
  predicate FieldsPresent(req: Request)
  {
    ObjectBody(req) && Truthy(Field(req, "email")) && Truthy(Field(req, "password"))
  }

  /** Both fields are present and the email is a str. */
  predicate EmailIsStr(req: Request)
  {
    FieldsPresent(req) && Field(req, "email").Str?
  }

  /** Both fields are present and the email is a str the pattern accepts. */
  predicate EmailAccepted(req: Request)
  {
    EmailIsStr(req) && IsGmail(Field(req, "email").s)
  }

  // ---------------------------------------------------------------------------
  // Properties
  // ---------------------------------------------------------------------------

  /** 200 is sent exactly on success and 500 exactly on an internal error;
      every other outcome is a 400, and the six messages are distinct. */
  lemma StatusClasses(o: Outcome, o': Outcome)
    ensures o.Status() == 200 <==> o == Success
    ensures o.Status() == 500 <==> o == InternalError
    ensures o.Status() == 400 <==> o !in {Success, InternalError}
    ensures o.Message() == o'.Message() ==> o == o'
  {
  }

  /** The password rule looks only at the length of a str: two passwords of
      equal length get the same verdict whatever their characters (so there is
      no digits-only rule), lengthening an accepted password keeps it accepted
      (so there is no exact-length rule), and a value that is not a str never
      passes. */
  lemma PasswordRuleShape(a: string, b: string, v: Value)
    ensures |a| == |b| ==> (PasswordOk(Str(a)) <==> PasswordOk(Str(b)))
    ensures PasswordOk(Str(a)) ==> PasswordOk(Str(a + b))
    ensures !v.Str? ==> !PasswordOk(v)
  {
  }

  /** A falsy body (null, false, 0, "", [], {}) is answered with the
      malformed-body response, whatever else holds; no other request is. */
  lemma FalsyBody(req: Request)
    ensures Authenticate(req) == MalformedBody <==> req.Parsed? && !Truthy(req.body)
  {
  }

  /** With a truthy dict body, a missing or falsy `email` or `password` gives
      the missing-fields response, whatever the other field holds; no other
      request does. */
  lemma MissingFieldsRule(req: Request)
    ensures Authenticate(req) == MissingFields
        <==> ObjectBody(req) && (!Truthy(Field(req, "email")) || !Truthy(Field(req, "password")))
  {
  }

  /** With both fields present, the email is rejected exactly when it is a str
      the pattern does not accept. */
  lemma InvalidEmailRule(req: Request)
    ensures Authenticate(req) == InvalidEmail <==> EmailIsStr(req) && !IsGmail(Field(req, "email").s)
  {
  }

  /** With an accepted email, the password is rejected exactly when it is not
      a str of at least 8 characters; there is no digits-only or exact-length
      rule. */
  lemma InvalidPasswordRule(req: Request)
    ensures Authenticate(req) == InvalidPassword <==> EmailAccepted(req) && !PasswordOk(Field(req, "password"))
  {
  }

  /** Success exactly for a truthy dict body with truthy fields, an accepted
      str email and a str password of length at least 8. */
  lemma SuccessRule(req: Request)
    ensures Authenticate(req) == Success
        <==> && req.Parsed?
             && req.body.Obj?
             && Truthy(req.body)
             && Truthy(Field(req, "email"))
             && Truthy(Field(req, "password"))
             && Field(req, "email").Str?
             && IsGmail(Field(req, "email").s)
             && Field(req, "password").Str?
             && |Field(req, "password").s| >= 8
  {
  }

  /** The handler raises, and so answers 500 rather than a 400 or 200, exactly
      when reading the body raised, the body is a truthy non-dict, or both
      fields are present and the email is not a str. */
  lemma InternalErrorRule(req: Request)
    ensures Authenticate(req) == InternalError
        <==> || req.Unparseable?
             || (req.Parsed? && Truthy(req.body) && !req.body.Obj?)
             || (FieldsPresent(req) && !Field(req, "email").Str?)
    ensures Authenticate(req) == InternalError <==> TryBlock(req).Raise?
  {
  }

  /** The checks run in the fixed order body, presence, email, password: an
      email the pattern rejects is reported even when the password is too
      short or not a str. */
  lemma EmailCheckedBeforePassword(req: Request)
    requires EmailIsStr(req)
    requires !IsGmail(Field(req, "email").s)
    ensures Authenticate(req) == InvalidEmail
  {
  }

  /** The presence check comes before the email check: a missing password is
      reported even when the email is not a str, which would otherwise raise. */
  lemma PresenceCheckedBeforeEmail(req: Request)
    requires ObjectBody(req)
    requires !Truthy(Field(req, "password"))
    ensures Authenticate(req) == MissingFields
  {
  }

  /** A request whose body is a dict with just these two str fields. */
  function Credentials(email: string, password: string): Request
  {
    Parsed(Obj(map["email" := Str(email), "password" := Str(password)]))
  }

  /** For a body holding two str fields, the outcome follows the four rules
      in order: both non-empty, email accepted, password long enough. */
  lemma CredentialsRule(email: string, password: string)
    ensures Authenticate(Credentials(email, password))
         == if |email| == 0 || |password| == 0 then MissingFields
            else if !IsGmail(email) then InvalidEmail
            else if |password| < 8 then InvalidPassword
            else Success
  {
    var req := Credentials(email, password);
    assert "email" != "password" by {
      assert |"email"| != |"password"|;
    }
    assert Field(req, "email") == Str(email);
    assert Field(req, "password") == Str(password);
  }

  /** Two 8-character passwords, one of letters and one of digits, pass; a
      9-character one passes; a 7-character one fails. */
  lemma PasswordExamples()
    ensures Authenticate(Credentials("user@gmail.com", "abcdefgh")) == Success
    ensures Authenticate(Credentials("user@gmail.com", "12345678")) == Success
    ensures Authenticate(Credentials("user@gmail.com", "123456789")) == Success
    ensures Authenticate(Credentials("user@gmail.com", "1234567")) == InvalidPassword
  {
    EmailAcceptedExamples();
    CredentialsRule("user@gmail.com", "abcdefgh");
    CredentialsRule("user@gmail.com", "12345678");
    CredentialsRule("user@gmail.com", "123456789");
    CredentialsRule("user@gmail.com", "1234567");
  }

  /** A rejected email is reported ahead of a short password. */
  lemma BadEmailExample()
    ensures Authenticate(Credentials("user@yahoo.com", "1234567")) == InvalidEmail
  {
    OtherProviderRejected();
    CredentialsRule("user@yahoo.com", "1234567");
  }

  /** `{}` is a malformed body; a non-empty list raises at `.get`. */
  lemma BodyShapeExamples()
    ensures Authenticate(Parsed(Obj(map[]))) == MalformedBody
    ensures Authenticate(Parsed(Arr([Null]))) == InternalError
  {
  }
}
