# awsExportLog in Dafny

A model of `awsExportLog`, a command-line tool that exports the events of one
CloudWatch Logs stream over a time window to standard output. The tool has two
pieces of logic around the AWS SDK calls, and both are modelled here:

- **Configuration** (`readConfigFromCommandLine`). Five required parameters are
  checked for presence. The From time (RFC 3339) and the duration (Go's
  duration syntax) are then parsed. The window `[From, From + duration)` is
  converted to epoch milliseconds and the first `GetLogEventsInput` is built.
  This reads forward from the head of the stream with no cursor.
- **The fetch loop** (`retrieveAwsLog`). It sends the request and prints every
  message of the returned page. It stops when the page's forward token is
  absent, or equals the token just sent. Otherwise it adopts the forward token
  as the next cursor. A failed call ends the loop, and what was already printed
  stays printed.

Files and modules:

- `wrappers.dfy` (`Wrappers`): `Option` and `Result`.
- `cloudwatch.dfy` (`CloudWatch`): the request and response types.
- `config.dfy` (`Config`): the configuration step.
- `retrieve.dfy` (`Retrieve`): the fetch loop.
- `exporter.dfy` (`Exporter`): `main`, which is configuration followed by the loop.

How things are represented:

- Instants and durations are integer nanoseconds, as in Go's `time.Time` and
  `time.Duration`. `UnixMilli` rounds toward negative infinity.
- The two string parsers are function parameters returning `Option`.
- The parameters are the strings after flag parsing, with the flag defaults
  applied. Region, group, stream and From default to the empty string, so an
  empty string there means the flag was not given. The duration defaults to
  `"1h"` (awsExportLog.go:39). Leaving out `-d` gives a one-hour window, and
  only an explicit `-d ""` counts as missing.
- The output is the sequence of `Println` arguments, one entry per message.
  A message that holds newlines prints as several lines.
- The remote service is a finite script of responses. The k-th call receives
  the k-th response.
- The loop is described three ways:
  - `IsRun`, a declarative predicate on traces;
  - `Run`, a recursive function;
  - `FetchAll`, the imperative loop.
- `Run` satisfies `IsRun`, and `IsRun` admits exactly one trace. So
  `FetchAll` and `Run` agree.

Two consequences of the code worth knowing:

- The program applies no sign check to the duration (awsExportLog.go:62-71).
  A negative duration gives a request with `EndTime <= StartTime`.
- A missing From time is rejected as a missing parameter, with exit status 1
  (awsExportLog.go:50-54). The program has no default start time.

## Model

| member | source | states |
|---|---|---|
| Config.Configure | awsExportLog.go:50-82 | Any empty required parameter fails with MissingParameters. Otherwise a bad From time fails with BadFromTime, then a bad duration with BadDuration, and success happens exactly when all checks pass. On success, StartTime and EndTime are the millisecond floors of From and From + duration. Group and stream names are copied unchanged, StartFromHead is true, the cursor is absent, and region and profile are passed through. |
| Config.UnixMilli | awsExportLog.go:70-71 | The result is the whole number of milliseconds at or before the instant, at most one millisecond earlier. |
| Config.ExitCode | awsExportLog.go:53-65 | The exit status of a configuration failure is in 1..3, never the success status 0. `ExitCodeOrder` ties statuses 1, 2 and 3 to the three checks (lines 53, 59, 65). |
| Config.ExitCodeOrder | awsExportLog.go:50-66 | A failed configuration exits with status 1, 2 or 3 for the first failing check, in the order presence, From time, duration. |
| Config.MissingBeforeParsing | awsExportLog.go:50-56 | With a parameter missing, the result does not depend on either parser. |
| Config.WholeMillisecondWindow | awsExportLog.go:68-71 | For a whole-millisecond duration d, StartTime is From in epoch ms and EndTime - StartTime is exactly d in ms. |
| Config.WindowRounding | awsExportLog.go:68-71 | For any duration, the window length in ms differs from the duration by less than one millisecond. |
| Config.NegativeDurationAccepted | awsExportLog.go:62-71 | A negative duration is not rejected: a request is built, with EndTime at or before StartTime. |
| Retrieve.FetchAll | awsExportLog.go:97-115 | The loop sends at most one request per scripted response. Its output, requests and outcome satisfy IsRun and equal Run. |
| Retrieve.PrintPage | awsExportLog.go:104-106 | Printing one page appends exactly its messages, one output entry (one `Println`) per message, in the order received, after what was already printed. |
| Retrieve.Stops | awsExportLog.go:108-109 | The loop's termination test holds exactly when the forward token is absent or equals the token just sent. When no token was sent, only an absent forward token stops the loop. |
| Retrieve.Run | awsExportLog.go:97-115 | The recursive form of the loop. It sends a request exactly when the script has an answer left, and never more requests than the script has answers. The first request is the given one. It reports Exhausted only after consuming the whole script. Its full behaviour is tied to `IsRun` by `RunCharacterized`. |
| Retrieve.RunIsRun | awsExportLog.go:97-115 | The recursive loop meets the declarative description `IsRun`. The first request is the initial one. Each continuation keeps the request except its cursor, which becomes the page's forward token. The output is the consumed pages' messages in order. The outcome matches the last response. |
| Retrieve.IsRunDeterministic | awsExportLog.go:97-115 | For a given first request and script, at most one trace satisfies `IsRun`, so re-running on the same pages prints the same messages. |
| Retrieve.RunCharacterized | awsExportLog.go:97-115 | A trace satisfies `IsRun` if and only if it is the trace of the recursive loop. |
| Retrieve.CursorFollowsForwardToken | awsExportLog.go:108-114 | Every request after the first carries the previous page's present forward token as its cursor. Apart from that cursor it equals the first request. |
| Retrieve.FirstStopNeedsAbsentToken | awsExportLog.go:108-112 | With no initial cursor, the loop stops after the first page only if that page has no forward token. A later stop means the token is absent or repeats the previous page's token. |
| Retrieve.FailureKeepsEarlierOutput | awsExportLog.go:97-102 | A failed call ends the run. The earlier pages' output is kept, the failed call prints nothing, and every earlier response was a page. |
| Retrieve.MessagesDoNotSteer | awsExportLog.go:104-114 | Page contents never affect termination. Scripts that agree on failures and forward tokens produce the same requests and outcome, so an empty page does not stop the loop. |
| Retrieve.FreshTokensNeverStop | awsExportLog.go:108-114 | The loop never stops on its own if every page carries a present token different from the one just sent. It consumes the whole script, however long, so the loop has no call bound of its own. |
| Retrieve.TwoPagesThenEnd | awsExportLog.go:104-112 | Two pages of 3 and 2 messages, the second without a token, print exactly those 5 messages in order with 2 requests. |
| Retrieve.RepeatedTokenStops | awsExportLog.go:108-112 | A page with token X followed by another with X stops after the second page, not the first. |
| Exporter.ExportLog | awsExportLog.go:25-28 | `main` fails exactly when configuration fails, with the same error and before any call. Otherwise it runs the loop from the configured request, which has the given group and stream names. With no initial cursor, stopping after one request means the first page had no forward token. |

## Left out

- The `-h` help flag (exit status 0), flag parsing itself, and `printHelp` are command-line plumbing. The model starts from the parameter strings with the flag defaults already applied.
- The RFC 3339 date-time grammar (section 5.6 of RFC 3339) and Go's `time.ParseDuration` are library parsers whose source is not part of this model. They are abstract partial functions.
- Credential and config loading (`config.LoadDefaultConfig`, awsExportLog.go:86-95) is SDK behaviour and is left out. The code only logs a failure there and carries on.
- The SDK client and the network call are replaced by the scripted response sequence. The outcome `Exhausted` (the script has no answer left) is a modelling device, not a state of the program.
- Error messages on standard error are not modelled. The `os.Exit` calls of the configuration step are represented by the `ConfigError` value and the `ExitCode` function.
- A failed GetLogEvents call has no exit status in the model. The program prints the error, returns from `retrieveAwsLog` (awsExportLog.go:99-101) and ends normally with status 0, keeping the partial output. The `Failed` outcome records only that the loop ended this way.
- A nil `Message` pointer in an event is not modelled: every event carries a message string.
- Config.UnixMilli: does not model the int64 overflow of Go's `UnixMilli`, which is undefined for dates more than about 292 million years from 1970. Go's `time.Duration` is also bounded to int64, and neither bound is modelled.
- Retrieve.FetchAll: termination is proved only against a finite script. Against a live service that keeps issuing fresh distinct tokens, the loop need not end, as `FreshTokensNeverStop` shows.
