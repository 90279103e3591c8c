/** The global exception handler: every exception leaving a view becomes a
    `{message, errors}` body. */
module Exceptions {
  import opened Records
  import opened JsonData
  import opened Responses

  /** What the handler can observe of an exception: the two classes it tests
      with `isinstance`, whether it is Django's `Http404`, its `default_detail`
      when it has one, and `str(exc)`. */
  datatype Exc = Exc(
    isValidationError: bool,
    isAuthenticationFailed: bool,
    isHttp404: bool,
    defaultDetail: Option<string>,
    text: string)

  /** `get_error_message(exc)`: a fixed precedence, the two class tests first. */
  function ErrorMessage(exc: Exc): (m: string)
    ensures exc.isValidationError ==> m == "Validation failed"
    ensures !exc.isValidationError && exc.isAuthenticationFailed ==> m == "Authentication failed"
    ensures !exc.isValidationError && !exc.isAuthenticationFailed && exc.defaultDetail.Some? ==> m == exc.defaultDetail.value
    ensures !exc.isValidationError && !exc.isAuthenticationFailed && exc.defaultDetail.None? ==>
              m == (if exc.text != [] then exc.text else "An error occurred")
    ensures m != [] || (exc.defaultDetail == Some([]) && !exc.isValidationError && !exc.isAuthenticationFailed)
  {
    if exc.isValidationError then "Validation failed"
    else if exc.isAuthenticationFailed then "Authentication failed"
    else if exc.defaultDetail.Some? then exc.defaultDetail.value
    else if exc.text != [] then exc.text
    else "An error occurred"
  }

  /** The response DRF's own `exception_handler` produced, if any. */
  datatype Handled = Handled(status: int, data: Json)

  /** `custom_exception_handler(exc, context)`. `drf` is the result of DRF's
      own handler on `exc`, which this model receives rather than computes. */
  function HandleException(exc: Exc, drf: Option<Handled>): (r: Response)
    ensures r.body.Keys == {"message", "errors"}
    ensures drf.Some? ==> r.status == drf.value.status
                          && r.body["message"] == Str(ErrorMessage(exc))
                          && r.body["errors"] == drf.value.data
    ensures drf.None? && exc.isHttp404 ==>
              r.status == HTTP_404_NOT_FOUND
              && r.body["message"] == Str("Resource not found")
              && r.body["errors"] == Obj(map["detail" := Str(if exc.text != [] then exc.text else "Not found")])
    ensures drf.None? && !exc.isHttp404 ==>
              r.status == HTTP_500_INTERNAL_SERVER_ERROR
              && r.body["message"] == Str("Internal server error")
              && r.body["errors"] == Obj(map["detail" := Str("An unexpected error occurred")])
  {
    match drf
    case Some(h) =>
      Response(h.status, map["message" := Str(ErrorMessage(exc)), "errors" := h.data])
    case None =>
      if exc.isHttp404 then
        Response(HTTP_404_NOT_FOUND, map[
          "message" := Str("Resource not found"),
          "errors" := Obj(map["detail" := Str(if exc.text != [] then exc.text else "Not found")])])
      else
        Response(HTTP_500_INTERNAL_SERVER_ERROR, map[
          "message" := Str("Internal server error"),
          "errors" := Obj(map["detail" := Str("An unexpected error occurred")])])
  }

  /** An exception DRF does not handle and that is not `Http404` yields one and
      the same response whatever it says: its text never reaches the client. */
  lemma UnhandledHidesText(e1: Exc, e2: Exc)
    requires !e1.isHttp404 && !e2.isHttp404
    ensures HandleException(e1, None) == HandleException(e2, None)
  {
    var a := HandleException(e1, None);
    var b := HandleException(e2, None);
    assert a.body.Keys == b.body.Keys;
    assert a.body == b.body;
  }

  /** A validation error keeps DRF's status and field errors under `errors`,
      whatever else the exception carries. */
  lemma ValidationKeepsFieldErrors(exc: Exc, status: int, data: Json)
    requires exc.isValidationError
    ensures HandleException(exc, Some(Handled(status, data))) ==
            Response(status, map["message" := Str("Validation failed"), "errors" := data])
  {
  }
}
