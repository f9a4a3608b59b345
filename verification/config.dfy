/** Command-line configuration of the exporter (readConfigFromCommandLine):
    presence checks on the required parameters, parsing of the From time and
    the duration, the time-window arithmetic and the construction of the first
    GetLogEvents request.

    Time is kept at Go's resolution: an instant is a count of nanoseconds since
    the Unix epoch and a duration is a signed count of nanoseconds. The two
    library parsers (RFC 3339 date-time and Go's duration syntax) are given as
    partial functions returning an Option. */
module Config {
  import opened Wrappers
  import opened CloudWatch

  /** Nanoseconds since 1970-01-01T00:00:00Z. */
  type Instant = int

  /** A signed span of nanoseconds. */
  type Duration = int

  const NanosPerMilli: int := 1_000_000

  /** The parameter strings after flag parsing, with the flag defaults
      applied. Region, group, stream, From and profile default to the empty
      string, so an empty string there means the flag was not given. The
      duration defaults to "1h": it is empty only when given explicitly as
      `-d ""`. */
  datatype Args = Args(
    region: string,
    groupName: string,
    streamName: string,
    from: string,
    duration: string,
    profile: string)

  /** The three classes of configuration failure, in the order they are
      checked. */
  datatype ConfigError = MissingParameters | BadFromTime | BadDuration

  /** The process exit status each configuration failure ends with: never
      the success status 0, and one status per failure class. */
  function ExitCode(e: ConfigError): (c: int)
    ensures 1 <= c <= 3
  {
    match e
    case MissingParameters => 1
    case BadFromTime => 2
    case BadDuration => 3
  }

  /** What a successful configuration hands to the retrieval: the region and
      profile for the client, and the first request to send. */
  datatype Settings = Settings(region: string, profile: string, input: GetLogEventsInput)

  /** True when any of the five required parameters is empty. The profile is
      optional and never checked. */
  predicate AnyMissing(a: Args) {
    a.region == "" || a.groupName == "" || a.streamName == "" || a.from == "" || a.duration == ""
  }

  /** Go's Time.UnixMilli: the instant in whole milliseconds, rounded toward
      negative infinity (the nanosecond part of a Go time is never negative). */
  function UnixMilli(t: Instant): (ms: int)
    ensures ms * NanosPerMilli <= t < (ms + 1) * NanosPerMilli
  {
    t / NanosPerMilli
  }

  /** readConfigFromCommandLine, after flag parsing: the first failing check
      decides the error; otherwise the window is [from, from + d) expressed in
      epoch milliseconds and the request reads forward from the head with no
      cursor. */
  function Configure(
    a: Args,
    parseTime: string -> Option<Instant>,
    parseDuration: string -> Option<Duration>
  ): (r: Result<Settings, ConfigError>)
    ensures r == Failure(MissingParameters) <==> AnyMissing(a)
    ensures r == Failure(BadFromTime) <==> !AnyMissing(a) && parseTime(a.from).None?
    ensures r == Failure(BadDuration) <==>
      !AnyMissing(a) && parseTime(a.from).Some? && parseDuration(a.duration).None?
    ensures r.Success? <==>
      !AnyMissing(a) && parseTime(a.from).Some? && parseDuration(a.duration).Some?
    ensures r.Success? ==>
      var from := parseTime(a.from).value;
      var to := from + parseDuration(a.duration).value;
      var input := r.value.input;
      && input.startTime * NanosPerMilli <= from < (input.startTime + 1) * NanosPerMilli
      && input.endTime * NanosPerMilli <= to < (input.endTime + 1) * NanosPerMilli
      && input.logGroupName == a.groupName
      && input.logStreamName == a.streamName
      && input.startFromHead
      && input.nextToken == None
      && r.value.region == a.region
      && r.value.profile == a.profile
  {
    if AnyMissing(a) then
      Failure(MissingParameters)
    else if parseTime(a.from).None? then
      Failure(BadFromTime)
    else if parseDuration(a.duration).None? then
      Failure(BadDuration)
    else
      var timeFrom := parseTime(a.from).value;
      var timeTo := timeFrom + parseDuration(a.duration).value;
      Success(Settings(
        a.region,
        a.profile,
        GetLogEventsInput(a.groupName, a.streamName, UnixMilli(timeFrom), UnixMilli(timeTo), true, None)))
  }

  /** The exit status of a failed configuration names the first check that
      failed: every check with a smaller status passed. */
  lemma ExitCodeOrder(a: Args, parseTime: string -> Option<Instant>, parseDuration: string -> Option<Duration>)
    requires Configure(a, parseTime, parseDuration).Failure?
    ensures var code := ExitCode(Configure(a, parseTime, parseDuration).error);
      && (code == 1 <==> AnyMissing(a))
      && (code == 2 <==> !AnyMissing(a) && parseTime(a.from).None?)
      && (code == 3 <==> !AnyMissing(a) && parseTime(a.from).Some? && parseDuration(a.duration).None?)
  {
  }

  /** A missing parameter is reported before either parser is consulted: the
      outcome does not depend on the parsers at all. */
  lemma MissingBeforeParsing(
    a: Args,
    parseTime1: string -> Option<Instant>, parseDuration1: string -> Option<Duration>,
    parseTime2: string -> Option<Instant>, parseDuration2: string -> Option<Duration>)
    requires AnyMissing(a)
    ensures Configure(a, parseTime1, parseDuration1) == Configure(a, parseTime2, parseDuration2)
  {
  }

  /** For a duration of whole milliseconds, the window is exactly that long
      and starts at the From time in epoch milliseconds. */
  lemma WholeMillisecondWindow(a: Args, parseTime: string -> Option<Instant>, parseDuration: string -> Option<Duration>)
    requires Configure(a, parseTime, parseDuration).Success?
    requires parseDuration(a.duration).value % NanosPerMilli == 0
    ensures var input := Configure(a, parseTime, parseDuration).value.input;
      && input.startTime == UnixMilli(parseTime(a.from).value)
      && input.endTime - input.startTime == parseDuration(a.duration).value / NanosPerMilli
  {
  }

  /** For any duration, the window length in milliseconds is the duration
      rounded down or up to a whole millisecond: the flooring of both ends by
      UnixMilli loses less than one millisecond either way. */
  lemma WindowRounding(a: Args, parseTime: string -> Option<Instant>, parseDuration: string -> Option<Duration>)
    requires Configure(a, parseTime, parseDuration).Success?
    ensures var input := Configure(a, parseTime, parseDuration).value.input;
      var d := parseDuration(a.duration).value;
      d - NanosPerMilli < (input.endTime - input.startTime) * NanosPerMilli < d + NanosPerMilli
  {
  }

  /** No sign check is applied to the duration: a negative duration still
      yields a request, whose end lies at or before its start. */
  lemma NegativeDurationAccepted(a: Args, parseTime: string -> Option<Instant>, parseDuration: string -> Option<Duration>)
    requires !AnyMissing(a) && parseTime(a.from).Some? && parseDuration(a.duration).Some?
    requires parseDuration(a.duration).value < 0
    ensures Configure(a, parseTime, parseDuration).Success?
    ensures var input := Configure(a, parseTime, parseDuration).value.input;
      input.endTime <= input.startTime
  {
  }
}
