/** The program as a whole (main): configure from the command line, then run
    the fetch loop with the request the configuration built. A configuration
    failure ends the process before any call to the service. */
module Exporter {
  import opened Wrappers
  import opened CloudWatch
  import opened Config
  import opened Retrieve

  method ExportLog(
    a: Args,
    parseTime: string -> Option<Instant>,
    parseDuration: string -> Option<Duration>,
    script: seq<GetLogEventsResponse>)
    returns (result: Result<Trace, ConfigError>)
    ensures result.Failure? <==> Configure(a, parseTime, parseDuration).Failure?
    ensures result.Failure? ==> result.error == Configure(a, parseTime, parseDuration).error
    ensures result.Success? ==>
      var first := Configure(a, parseTime, parseDuration).value.input;
      && first.logGroupName == a.groupName
      && first.logStreamName == a.streamName
      && IsRun(first, script, result.value)
      && (result.value.outcome == Finished && |result.value.requests| == 1 ==>
            script[0].nextForwardToken == None)
  {
    var settings :- Configure(a, parseTime, parseDuration);
    var output, requests, outcome := FetchAll(settings.input, script);
    result := Success(Trace(output, requests, outcome));
    if outcome == Finished {
      FirstStopNeedsAbsentToken(settings.input, script, result.value);
    }
  }
}
