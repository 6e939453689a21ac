/**
  The request handler's error mapping: a successful fetch and aggregation
  becomes a success response carrying the summaries, and any failure, of the
  fetch or of the aggregation, becomes a failure response carrying the error's
  message and no data.
 */
module Handler {
  import opened Wrappers
  import opened Aggregation

  /** The two response shapes the handler produces (`Responses._200` and `Responses._400`). */
  datatype Response =
    | Ok(data: seq<Summary>, message: string)
    | BadRequest(message: string, error: string)

  const SuccessMessage: string := "Retrieved hollistic data successfully"
  const FailureMessage: string := "Error retrieving hollistic data"

  /**
    `handler`: `fetched` stands for the outcome of the store query for the
    restaurant together with the conversion of every document's date: the
    converted reservations, or the message of the error either step threw.
    Both run before the view is looked at, so such an error wins over an
    unknown view.
    Success only when both the fetch and the aggregation succeed; the data is
    then the aggregation's summaries and accounts for every fetched reservation. Otherwise the failure response
    carries the message of the first error thrown.
   */
  function Handle(fetched: Result<seq<Reservation>, string>, view: string): (resp: Response)
    ensures resp.Ok? <==> fetched.Success? && IsView(view)
    ensures resp.Ok? ==> resp.data == AggregateReservations(fetched.value, view).value
    ensures resp.Ok? ==> resp.message == SuccessMessage && ReservationCount(resp.data) == |fetched.value|
    ensures resp.BadRequest? ==> resp.message == FailureMessage
    ensures resp.BadRequest? && fetched.Failure? ==> resp.error == fetched.error
    ensures resp.BadRequest? && fetched.Success? ==> resp.error == InvalidViewMessage
  {
    match fetched
    case Failure(e) => BadRequest(FailureMessage, e)
    case Success(rs) =>
      match AggregateReservations(rs, view)
      case Failure(e) => BadRequest(FailureMessage, e)
      case Success(data) =>
        RecordsConserved(rs, view);
        Ok(data, SuccessMessage)
  }
}
