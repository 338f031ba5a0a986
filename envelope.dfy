/**
 * The JSON error response built by `error()`: an HTTP code, the `Status`
 * header line, and the `errors` list of the body.
 */
module Envelope {
  import opened Wrappers
  import opened Php

  /** One entry of the body's `errors` list. */
  datatype ErrorObject = ErrorObject(status: string, title: string)

  datatype ErrorResponse = ErrorResponse(
    code: int,               // HTTP status code of the response
    statusLine: string,      // value of the `Status` header, e.g. "400 Bad Request"
    errors: seq<ErrorObject> // the `errors` member of the JSON body
  )

  /**
   * `error(code, status, title, errors)`: without `errors` the body holds one
   * error object whose `status` is the code in decimal and whose `title` is
   * the given title; with `errors` that list is the body unchanged.
   */
  function Error(code: int, status: string, title: string, errors: Option<seq<ErrorObject>>): (r: ErrorResponse)
    ensures r.code == code
    ensures r.statusLine == IntToString(code) + " " + status
    ensures errors.Some? ==> r.errors == errors.value
    ensures errors.None? ==>
      && |r.errors| == 1
      && r.errors[0].title == title
      && r.errors[0].status == IntToString(code)
      && IsCanonicalDecimal(r.errors[0].status)
      && StringToInt(r.errors[0].status) == code
  {
    var data := match errors
      case None => [ErrorObject(IntToString(code), title)]
      case Some(es) => es;
    ErrorResponse(code, IntToString(code) + " " + status, data)
  }

  /** A single-error response with the usual HTTP reason phrase. */
  function BadRequest(title: string): (r: ErrorResponse)
    ensures r.code == 400 && r.errors == [ErrorObject("400", title)]
  {
    assert DigitChar(0) == '0' && DigitChar(4) == '4';
    assert NatToString(400) == NatToString(40) + "0" == NatToString(4) + "0" + "0";
    assert IntToString(400) == "400";
    Error(400, "Bad Request", title, None)
  }

  function Unauthorized(title: string): (r: ErrorResponse)
    ensures r.code == 401 && r.errors == [ErrorObject("401", title)]
  {
    assert DigitChar(0) == '0' && DigitChar(1) == '1' && DigitChar(4) == '4';
    assert NatToString(401) == NatToString(40) + "1" == NatToString(4) + "0" + "1";
    assert IntToString(401) == "401";
    Error(401, "Unauthorized", title, None)
  }
}
