/** The body schema of "complete" and "cancel": one required non-empty
    closing text. */
module ClosingSchema {
  import opened Common
  import opened HttpErrors
  import opened Validation

  const ClosingMessage: string := "Text of closing reason is required"

  /** `RequestClosingDto`: a body that passed the schema. */
  datatype ClosingBody = ClosingBody(closingText: string)

  /** Parse a closing body: a non-empty string passed on as it is;
      otherwise status 400 with the failure message. */
  function ValidateClosing(closingText: BodyField): (r: Result<ClosingBody>)
    ensures r.Ok? <==> NonEmptyText(closingText)
    ensures r.Ok? ==> r.value.closingText == closingText.text
    ensures closingText == Text("") ==> r == Err(HttpError(BadRequestStatus, ClosingMessage))
    ensures r.Err? ==> r.error.statusCode == BadRequestStatus
    ensures closingText.Missing? ==> r == Err(HttpError(BadRequestStatus, RequiredMessage))
    ensures closingText.NonText? ==> r == Err(HttpError(BadRequestStatus, WrongTypeMessage(closingText.received)))
  {
    var issues := StringFieldIssues(closingText, ClosingMessage);
    if |issues| == 0 then Ok(ClosingBody(closingText.text))
    else Err(BadRequest(issues))
  }

  /** Accepting is the inverse of forming the body from its text. */
  lemma ClosingBodyRoundTrip(b: ClosingBody)
    requires b.closingText != ""
    ensures ValidateClosing(Text(b.closingText)) == Ok(b)
  {
  }
}
