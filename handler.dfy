/** The decision of the HTTP health endpoint: the two manual-override
    markers, checked on every request, and otherwise the current verdict. */
module Handler {
  import opened Policy

  datatype Response = Response(code: int, body: string)

  const StatusOK := 200
  const StatusServiceUnavailable := 503

  const ForcedUpBody := "Cluster node OK by manual override"
  const ForcedFailMessage := "Cluster node unavailable by manual override"

  /** A plain write of `text`: the status defaults to 200. */
  function Written(text: string): (r: Response)
    ensures r.code == StatusOK && r.body == text
  {
    Response(StatusOK, text)
  }

  /** net/http's Error helper: the given status, the message and a newline. */
  function HttpError(message: string, code: int): (r: Response)
    ensures r.code == code
    ensures |r.body| == |message| + 1 && r.body[..|message|] == message && r.body[|message|] == '\n'
  {
    Response(code, message + "\n")
  }

  /** The answer to one request. A force-up marker wins over everything; a
      force-fail marker wins over the verdict; otherwise the verdict decides
      the status and its comment is the message. Only 200 and 503 occur, and
      200 exactly when forced up, or not forced down and available. */
  function Respond(forceUp: bool, forceFail: bool, current: State): (r: Response)
    ensures forceUp ==> r == Response(StatusOK, ForcedUpBody)
    ensures !forceUp && forceFail ==> r == Response(StatusServiceUnavailable, ForcedFailMessage + "\n")
    ensures !forceUp && !forceFail && current.available ==> r == Response(StatusOK, current.comment)
    ensures !forceUp && !forceFail && !current.available ==>
      r == Response(StatusServiceUnavailable, current.comment + "\n")
    ensures r.code == StatusOK || r.code == StatusServiceUnavailable
    ensures r.code == StatusOK <==> forceUp || (!forceFail && current.available)
  {
    if forceUp then Written(ForcedUpBody)
    else if forceFail then HttpError(ForcedFailMessage, StatusServiceUnavailable)
    else if current.available then Written(current.comment)
    else HttpError(current.comment, StatusServiceUnavailable)
  }
}
