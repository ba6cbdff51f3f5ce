/** The schema checks shared by the two body schemas: a required, non-empty
    string field (`z.string().min(1, { message })`). The body is taken to be
    an object; each field is absent, a string, or some other JSON value. */
module Validation {
  import opened Common

  /** One field of a parsed JSON body. `NonText` carries the JSON type name
      of a value that is not a string ("number", "null", "object", ...). */
  datatype BodyField = Missing | Text(text: string) | NonText(received: string)

  /** The schema library's own message for an absent required field. */
  const RequiredMessage: string := "Required"

  /** The schema library's own message for a value of the wrong type. */
  function WrongTypeMessage(received: string): string {
    "Expected string, received " + received
  }

  /** The field holds a non-empty string. */
  predicate NonEmptyText(f: BodyField) {
    f.Text? && f.text != ""
  }

  /** Failure messages of `z.string().min(1, { message: emptyMessage })`:
      a type failure for anything but a string, `emptyMessage` for "". */
  function StringFieldIssues(f: BodyField, emptyMessage: string): (issues: seq<string>)
    ensures |issues| <= 1
    ensures |issues| == 0 <==> NonEmptyText(f)
    ensures f == Text("") ==> issues == [emptyMessage]
    ensures f.Missing? ==> issues == [RequiredMessage]
    ensures f.NonText? ==> issues == [WrongTypeMessage(f.received)]
  {
    match f
    case Missing => [RequiredMessage]
    case NonText(received) => [WrongTypeMessage(received)]
    case Text(s) => if s == "" then [emptyMessage] else []
  }
}
