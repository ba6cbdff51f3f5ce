/** The body schema of "create a request": subject and description, both
    required non-empty strings. */
module CreateSchema {
  import opened Common
  import opened HttpErrors
  import opened Validation

  const SubjectMessage: string := "Subject is required"
  const DescriptionMessage: string := "Description is required"

  /** `RequestCreateDto`: a body that passed the schema. */
  datatype CreateBody = CreateBody(subject: string, description: string)

  /** Every failure message, subject's first. */
  function CreateIssues(subject: BodyField, description: BodyField): seq<string> {
    StringFieldIssues(subject, SubjectMessage) + StringFieldIssues(description, DescriptionMessage)
  }

  /** Parse a create body: both fields non-empty strings, passed on as they
      are; otherwise status 400 with every failure message. */
  function ValidateCreate(subject: BodyField, description: BodyField): (r: Result<CreateBody>)
    ensures r.Ok? <==> NonEmptyText(subject) && NonEmptyText(description)
    ensures r.Ok? ==> r.value.subject == subject.text && r.value.description == description.text
    ensures r.Err? ==> r.error.statusCode == BadRequestStatus
    ensures subject == Text("") && NonEmptyText(description) ==> r == Err(HttpError(BadRequestStatus, SubjectMessage))
    ensures NonEmptyText(subject) && description == Text("") ==> r == Err(HttpError(BadRequestStatus, DescriptionMessage))
  {
    var issues := CreateIssues(subject, description);
    if |issues| == 0 then Ok(CreateBody(subject.text, description.text))
    else Err(BadRequest(issues))
  }

  /** Both empty: both messages, in field order. */
  lemma BothEmptyReportsBoth()
    ensures ValidateCreate(Text(""), Text("")).error.message == SubjectMessage + ", " + DescriptionMessage
  {
    assert CreateIssues(Text(""), Text("")) == [SubjectMessage, DescriptionMessage];
    BadRequestJoinsTwo(SubjectMessage, DescriptionMessage);
  }

  /** Every body the schema accepts is the image of its own fields, and every
      pair of non-empty strings is accepted. */
  lemma CreateBodyRoundTrip(b: CreateBody)
    requires b.subject != "" && b.description != ""
    ensures ValidateCreate(Text(b.subject), Text(b.description)) == Ok(b)
  {
  }
}
