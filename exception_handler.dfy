/**
 * `GlobalExceptionHandler`: the error body returned for each kind of
 * exception. Every body carries an HTTP status, the request path, an error
 * label and a message text derived from the exception's message.
 */
module GlobalExceptionHandler {
  import opened Wrappers
  import opened JavaText

  const BAD_REQUEST := 400
  const NOT_FOUND := 404
  const CONFLICT := 409
  const INTERNAL_SERVER_ERROR := 500

  /** The exceptions the handlers tell apart. */
  datatype ExceptionKind =
    | MethodArgumentNotValid
    | MissingServletRequestParameter
    | ConstraintViolation
    | InvalidData
    | ResourceNotFound
    | DuplicateKey
    | Other

  datatype Exception = Exception(kind: ExceptionKind, message: string)

  /** The JSON error body (its timestamp is not modelled). */
  datatype ErrorBody = ErrorBody(status: int, path: string, error: string, messages: string)

  /** The four exception kinds answered with 400. */
  predicate IsValidationGroup(k: ExceptionKind)
  {
    k in {MethodArgumentNotValid, MissingServletRequestParameter, ConstraintViolation, InvalidData}
  }

  /** The request path: the request description with every "uri=" taken out. */
  function Path(description: string): (p: string)
    ensures |p| <= |description|
  {
    Remove(description, "uri=")
  }

  /** A description without "uri=" is the path itself, and only such a description is. */
  lemma PathUnchangedIff(description: string)
    ensures Path(description) == description <==> !Contains(description, "uri=")
  {
    RemoveUnchangedIff(description, "uri=");
  }

  /** The "uri=" prefix the container puts before a request URI is dropped. */
  lemma PathOfUri(uri: string)
    requires !Contains(uri, "uri=")
    ensures Path("uri=" + uri) == uri
  {
    RemoveLeading("uri=", uri);
    RemoveUnchangedIff(uri, "uri=");
  }

  /**
   * The text of a field-validation message between the last '[' and the
   * character before the last ']'. The extraction throws unless that range
   * is well formed, in particular whenever the message has no ']'.
   */
  function PayloadMessage(m: string): (r: Result<string, TextError>)
    ensures r.Success? <==> LastIndexOf(m, '[') + 1 <= LastIndexOf(m, ']') - 1
    ensures r.Success? ==>
      && r.value == m[LastIndexOf(m, '[') + 1 .. LastIndexOf(m, ']') - 1]
      && '[' !in r.value
    ensures ']' !in m ==> r.Failure?
  {
    Substring(m, LastIndexOf(m, '[') + 1, LastIndexOf(m, ']') - 1)
  }

  /**
   * A message ending like Spring's field-error text, "... default message
   * [<text>]] ", yields exactly <text>, whatever comes before it.
   */
  lemma PayloadOfDefaultMessage(before: string, text: string)
    requires '[' !in text && ']' !in text
    ensures PayloadMessage(before + "[" + text + "]] ") == Success(text)
  {
    var m := before + "[" + text + "]] ";
    var lb := |before|;
    var rb := |before| + 1 + |text| + 1;
    assert m[lb] == '[';
    assert m[rb] == ']';
    assert m[rb + 1..] == " ";
    assert m[lb + 1..] == text + "]] ";
    assert LastIndexOf(m, ']') == rb;
    assert LastIndexOf(m, '[') == lb by {
      assert forall i :: lb < i < |m| ==> m[i] != '[' by {
        forall i | lb < i < |m| ensures m[i] != '[' {
          assert m[i] == m[lb + 1..][i - lb - 1];
        }
      }
    }
    assert m[lb + 1..rb - 1] == text;
  }

  /** A constraint-violation message without everything up to its first space. */
  function ParameterMessage(m: string): (r: string)
    ensures |r| <= |m| && r == m[|m| - |r|..]
    ensures ' ' !in m ==> r == m
    ensures ' ' in m ==> exists p :: ' ' !in p && m == p + " " + r
  {
    var k := IndexOf(m, ' ');
    if k >= 0 then
      assert m == m[..k] + " " + m[k + 1..];
      m[k + 1..]
    else
      m
  }

  /** The property path before the first space is dropped and the rest is kept. */
  lemma ParameterMessageDropsPath(propertyPath: string, text: string)
    requires ' ' !in propertyPath
    ensures ParameterMessage(propertyPath + " " + text) == text
  {
    var m := propertyPath + " " + text;
    assert m[|propertyPath|] == ' ';
    assert m[..|propertyPath|] == propertyPath;
    assert m[|propertyPath| + 1..] == text;
  }

  /**
   * `handleValidationException`: status 400 and a label and message chosen
   * by the exception kind; a kind the method does not single out is
   * treated as invalid data.
   */
  function HandleValidationException(e: Exception, description: string): (r: Result<ErrorBody, TextError>)
    ensures r.Failure? <==> e.kind == MethodArgumentNotValid && PayloadMessage(e.message).Failure?
    ensures r.Success? ==> r.value.status == BAD_REQUEST && r.value.path == Path(description)
    ensures r.Success? && e.kind == MethodArgumentNotValid ==>
      r.value.error == "Invalid payload" && r.value.messages == PayloadMessage(e.message).value
    ensures e.kind == MissingServletRequestParameter ==>
      r == Success(ErrorBody(BAD_REQUEST, Path(description), "Invalid parameter", e.message))
    ensures e.kind == ConstraintViolation ==>
      r == Success(ErrorBody(BAD_REQUEST, Path(description), "Invalid parameter", ParameterMessage(e.message)))
    ensures !(e.kind in {MethodArgumentNotValid, MissingServletRequestParameter, ConstraintViolation}) ==>
      r == Success(ErrorBody(BAD_REQUEST, Path(description), "Invalid data", e.message))
  {
    var path := Path(description);
    match e.kind
    case MethodArgumentNotValid =>
      (match PayloadMessage(e.message)
       case Success(text) => Success(ErrorBody(BAD_REQUEST, path, "Invalid payload", text))
       case Failure(err) => Failure(err))
    case MissingServletRequestParameter =>
      Success(ErrorBody(BAD_REQUEST, path, "Invalid parameter", e.message))
    case ConstraintViolation =>
      Success(ErrorBody(BAD_REQUEST, path, "Invalid parameter", ParameterMessage(e.message)))
    case _ =>
      Success(ErrorBody(BAD_REQUEST, path, "Invalid data", e.message))
  }

  /** `handleResourceNotFoundException`: 404, its reason phrase, the message as is. */
  function HandleResourceNotFoundException(e: Exception, description: string): (r: ErrorBody)
    ensures r.status == NOT_FOUND && r.error == "Not Found"
    ensures r.path == Path(description) && r.messages == e.message
  {
    ErrorBody(NOT_FOUND, Path(description), "Not Found", e.message)
  }

  /** `handleDuplicateKeyException`: 409, its reason phrase, the message as is. */
  function HandleDuplicateKeyException(e: Exception, description: string): (r: ErrorBody)
    ensures r.status == CONFLICT && r.error == "Conflict"
    ensures r.path == Path(description) && r.messages == e.message
  {
    ErrorBody(CONFLICT, Path(description), "Conflict", e.message)
  }

  /** `handleException`: 500, its reason phrase, the message as is. */
  function HandleException(e: Exception, description: string): (r: ErrorBody)
    ensures r.status == INTERNAL_SERVER_ERROR && r.error == "Internal Server Error"
    ensures r.path == Path(description) && r.messages == e.message
  {
    ErrorBody(INTERNAL_SERVER_ERROR, Path(description), "Internal Server Error", e.message)
  }

  /**
   * The handler Spring picks for each exception kind, the most specific one
   * registered. A failure is the exception the 400 handler itself throws.
   */
  function Handle(e: Exception, description: string): (r: Result<ErrorBody, TextError>)
    ensures r.Failure? ==> e.kind == MethodArgumentNotValid
    ensures r.Success? ==> r.value.path == Path(description)
    ensures r.Success? ==> (r.value.status == BAD_REQUEST <==> IsValidationGroup(e.kind))
    ensures e.kind == ResourceNotFound ==> r == Success(ErrorBody(NOT_FOUND, Path(description), "Not Found", e.message))
    ensures e.kind == DuplicateKey ==> r == Success(ErrorBody(CONFLICT, Path(description), "Conflict", e.message))
    ensures e.kind == Other ==>
      r == Success(ErrorBody(INTERNAL_SERVER_ERROR, Path(description), "Internal Server Error", e.message))
  {
    if IsValidationGroup(e.kind) then HandleValidationException(e, description)
    else if e.kind == ResourceNotFound then Success(HandleResourceNotFoundException(e, description))
    else if e.kind == DuplicateKey then Success(HandleDuplicateKeyException(e, description))
    else Success(HandleException(e, description))
  }

  /** The message text is kept verbatim except for field-validation and constraint-violation errors. */
  lemma MessageVerbatim(e: Exception, description: string)
    requires e.kind != MethodArgumentNotValid && e.kind != ConstraintViolation
    ensures Handle(e, description).Success? && Handle(e, description).value.messages == e.message
  {
  }
}
