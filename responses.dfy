/**
 * The handler's outcome and its HTTP response (`returnJSONSuccess`,
 * `returnJSONError`). The response is modelled as its status code, its
 * `success` flag and its optional `error` text, not as JSON bytes.
 */
module Responses {
  import opened Wrappers

  /** The SMTP step at which delivery stopped. */
  datatype Stage = Connect | Tls | Authentication | MailFrom | RcptTo | DataOpen | DataWrite | DataClose

  /** How one delivery attempt ended. */
  datatype DeliveryResult = Delivered | Failed(stage: Stage)

  /** What the caller receives. */
  datatype Response = Response(status: int, success: bool, error: Option<string>)

  const StatusOK: int := 200
  const StatusInternalServerError: int := 500

  /** The fixed, caller-visible message for each failing stage. */
  function ErrorMessage(stage: Stage): string
  {
    match stage
    case Connect => "Failed to connect to mail server"
    case Tls => "Failed to start TLS"
    case Authentication => "Failed to authenticate"
    case MailFrom => "Failed to set sender"
    case RcptTo => "Failed to set recipient"
    case DataOpen => "Failed to get data writer"
    case DataWrite => "Failed to write message"
    case DataClose => "Failed to close data writer"
  }

  /** The stage a caller-visible error message names, if any. */
  function StageNamedBy(msg: string): Option<Stage>
  {
    if msg == "Failed to connect to mail server" then Some(Connect)
    else if msg == "Failed to start TLS" then Some(Tls)
    else if msg == "Failed to authenticate" then Some(Authentication)
    else if msg == "Failed to set sender" then Some(MailFrom)
    else if msg == "Failed to set recipient" then Some(RcptTo)
    else if msg == "Failed to get data writer" then Some(DataOpen)
    else if msg == "Failed to write message" then Some(DataWrite)
    else if msg == "Failed to close data writer" then Some(DataClose)
    else None
  }

  /** Each error message names its own stage, so no two stages share one. */
  lemma {:induction false} ErrorMessageNamesStage(stage: Stage)
    ensures StageNamedBy(ErrorMessage(stage)) == Some(stage)
  {
  }

  /** `returnJSONSuccess`: no status is written, so the default 200 applies. */
  function JsonSuccess(): (resp: Response)
    ensures resp.status == StatusOK && resp.success && resp.error == None
  {
    Response(StatusOK, true, None)
  }

  /** `returnJSONError`: status 500 with `success: false` and the message. */
  function JsonError(msg: string): (resp: Response)
    ensures resp.status == StatusInternalServerError && !resp.success && resp.error == Some(msg)
  {
    Response(StatusInternalServerError, false, Some(msg))
  }

  /** The response the handler writes for a delivery outcome. */
  function Respond(result: DeliveryResult): (resp: Response)
    ensures resp.success <==> result.Delivered?
    ensures resp.status == (if result.Delivered? then StatusOK else StatusInternalServerError)
    ensures resp.error.Some? <==> result.Failed?
    ensures result.Failed? ==> resp.error == Some(ErrorMessage(result.stage))
  {
    match result
    case Delivered => JsonSuccess()
    case Failed(stage) => JsonError(ErrorMessage(stage))
  }

  /** What a caller can tell from a response: the outcome, stage included. */
  function OutcomeOf(resp: Response): Option<DeliveryResult>
  {
    if resp.success then Some(Delivered)
    else if resp.error.Some? then
      match StageNamedBy(resp.error.value)
      case Some(stage) => Some(Failed(stage))
      case None => None
    else None
  }

  /** The response determines the outcome: responding loses no information. */
  lemma {:induction false} RespondIsFaithful(result: DeliveryResult)
    ensures OutcomeOf(Respond(result)) == Some(result)
  {
    if result.Failed? {
      ErrorMessageNamesStage(result.stage);
    }
  }
}
