/** The slice of the CloudWatch Logs "GetLogEvents" interface the exporter
    touches: the request it builds and the responses it reads. The SDK client
    and the network call itself are not part of this model. */
module CloudWatch {
  import opened Wrappers

  /** An opaque pagination token issued by the service. */
  type Token = string

  /** A GetLogEventsInput: the log group and stream, the window in epoch
      milliseconds, the read direction and the pagination cursor. */
  datatype GetLogEventsInput = GetLogEventsInput(
    logGroupName: string,
    logStreamName: string,
    startTime: int,
    endTime: int,
    startFromHead: bool,
    nextToken: Option<Token>)

  /** One answer of the service to a GetLogEvents call: either an error, or a
      page holding the messages of its events (in the order received) and the
      forward token, which may be absent. */
  datatype GetLogEventsResponse =
    | CallFailed(reason: string)
    | Page(messages: seq<string>, nextForwardToken: Option<Token>)

  /** The messages a response contributes to the output: a failed call
      contributes none. */
  function Messages(resp: GetLogEventsResponse): seq<string> {
    match resp
    case CallFailed(_) => []
    case Page(ms, _) => ms
  }
}
