/** The transfer object every service operation returns. */
module RequestDtos {
  import opened Common
  import opened Requests

  /** `RequestDto`: the constructor stores each argument in the field of the
      same name. */
  datatype RequestDto = RequestDto(
    id: Id,
    createdAt: Instant,
    updatedAt: Instant,
    subject: string,
    description: string,
    solutionText: Option<string>,
    cancelReason: Option<string>,
    status: Status)

  /** `RequestDto.fromModel`: a field-for-field copy of a stored record. */
  function FromModel(m: Request): (d: RequestDto)
    ensures d.id == m.id && d.createdAt == m.createdAt && d.updatedAt == m.updatedAt
    ensures d.subject == m.subject && d.description == m.description
    ensures d.solutionText == m.solutionText && d.cancelReason == m.cancelReason
    ensures d.status == m.status
  {
    RequestDto(m.id, m.createdAt, m.updatedAt, m.subject, m.description,
               m.solutionText, m.cancelReason, m.status)
  }

  /** The record a transfer object describes. */
  function ToModel(d: RequestDto): Request {
    Request(d.id, d.createdAt, d.updatedAt, d.subject, d.description,
            d.solutionText, d.cancelReason, d.status)
  }

  /** Mapping loses nothing: the record can be read back from its DTO, and
      every DTO is the image of exactly one record. */
  lemma FromModelRoundTrip(m: Request, d: RequestDto)
    ensures ToModel(FromModel(m)) == m
    ensures FromModel(ToModel(d)) == d
    ensures FromModel(m) == d <==> m == ToModel(d)
  {
  }

  /** `list.map(RequestDto.fromModel)`. */
  function Dtos(rows: seq<Request>): (r: seq<RequestDto>)
    ensures |r| == |rows|
    ensures forall i :: 0 <= i < |rows| ==> r[i] == FromModel(rows[i])
  {
    seq(|rows|, i requires 0 <= i < |rows| => FromModel(rows[i]))
  }
}
