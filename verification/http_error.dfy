/** Errors that carry an HTTP status, and the result type every operation of
    the service and every validator returns. */
module HttpErrors {
  import opened Common

  const NotFoundStatus: nat := 404
  const BadRequestStatus: nat := 400

  /** An error with an HTTP status code and a message. */
  datatype HttpError = HttpError(statusCode: nat, message: string)

  /** Either a value or the error the source would throw instead. */
  datatype Result<+T> = Ok(value: T) | Err(error: HttpError)

  const NotFoundPrefix: string := "Request with ID = "
  const NotFoundSuffix: string := " was not found"

  /** The error raised when no request with the given id exists. */
  function NotFound(id: Id): (e: HttpError)
    ensures e.statusCode == NotFoundStatus
    ensures StartsWith(e.message, NotFoundPrefix)
    ensures |e.message| == |NotFoundPrefix| + |id| + |NotFoundSuffix|
    ensures e.message[|NotFoundPrefix|..|NotFoundPrefix| + |id|] == id
    ensures e.message[|NotFoundPrefix| + |id|..] == NotFoundSuffix
  {
    HttpError(NotFoundStatus, NotFoundPrefix + id + NotFoundSuffix)
  }

  /** The not-found error names the id it was raised for. */
  lemma NotFoundNamesId(a: Id, b: Id)
    ensures NotFound(a) == NotFound(b) <==> a == b
  {
    if NotFound(a) == NotFound(b) {
      var m := NotFound(a).message;
      assert a == m[|NotFoundPrefix|..|NotFoundPrefix| + |a|];
      assert b == m[|NotFoundPrefix|..|NotFoundPrefix| + |b|];
    }
  }

  /** A failed schema check: status 400 and every failure message, joined
      by ", " in the order the schema reported them. */
  function BadRequest(issues: seq<string>): (e: HttpError)
    ensures e.statusCode == BadRequestStatus
    ensures |issues| == 1 ==> e.message == issues[0]
  {
    HttpError(BadRequestStatus, Join(issues, ", "))
  }

  /** One more failure message is appended after ", ": any number of
      messages are reported in order, separated by ", ". */
  lemma BadRequestAppends(issues: seq<string>, last: string)
    requires |issues| >= 1
    ensures BadRequest(issues + [last]).message == BadRequest(issues).message + ", " + last
  {
    JoinSnoc(issues, ", ", last);
  }

  /** Two failure messages are reported in order, separated by ", ". */
  lemma BadRequestJoinsTwo(first: string, second: string)
    ensures BadRequest([first, second]).message == first + ", " + second
  {
    assert [first, second][1..] == [second];
  }
}
