/** The part of the wire contract that the execution engine and the pool share. */
module Protocol {
  import opened Text

  datatype Kind = Dns | Connect | Tls | Timeout | Http | Blocked | Invalid

  datatype ExecError = ExecError(kind: Kind, message: string, retryable: bool)

  datatype RedirectHop = RedirectHop(status: int, location: string, url: string)

  datatype ResponseResult = ResponseResult(
    requestId: string, status: int, body: seq<bv8>, truncated: bool, chain: seq<RedirectHop>, error: Option<ExecError>)

  function Unanswered(id: string): ResponseResult {
    ResponseResult(id, 0, [], false, [], None)
  }

  /** What a slot holds when an earlier request of a stop-on-error job failed. */
  function Skipped(id: string): ResponseResult {
    Unanswered(id).(error := Some(ExecError(Invalid, "skipped after earlier failure", false)))
  }
}
