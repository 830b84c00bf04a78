# goclustercheck, modelled in Dafny

goclustercheck is a small health-check daemon for a Percona XtraDB Cluster
node, in the manner of percona-clustercheck. Periodically it runs the `mysql`
client to read three status variables (`wsrep_local_state`,
`wsrep_local_state_comment`, `read_only`), turns the result into a verdict
(available or not, plus a comment), publishes that verdict in one cell, and
answers every HTTP request from that cell, unless a manual force-up or
force-fail marker file exists.

This project models the path from probe output to verdict to HTTP answer:

- `tokenize.dfy` (module `Tokenize`): Go's `strings.Fields`, with white space
  exactly as Go's `unicode.IsSpace` defines it. It proves that every field is
  non-empty and free of white space. It also proves that splitting inverts
  joining with any white-space separator.
- `quoting.dfy` (module `Quoting`): the `%q` quoting the error message
  applies to the probe's standard error (Go's `strconv.Quote`, ASCII escapes).
  It proves the quoted text contains no ASCII control character and reads
  back to the original.
- `status.dfy` (module `Status`): the outcome of running the probe, given as
  a value (`ProbeRun`); the two error messages; the scan loop that enters
  field 0 of each line with field 1 (`ParseStatus`); and the whole fetch
  (`GetStatus`). A line with fewer than two fields makes the Go program
  index out of range and panic. Here that is the explicit outcome
  `ShortLine(index)` / `Panicked(line)`, and it never reaches the evaluator.
  `Collect` is the map the loop builds; lemmas say which names it holds,
  that the last line with a name wins, and that fields past the second do
  not matter.
- `policy.dfy` (module `Policy`): `checkWsrep`'s decision as the function
  `Evaluate`, over a fetch that is either a status map or an error message,
  and the two policy switches (donor allowed, read-only allowed).
- `handler.dfy` (module `Handler`): `checkHandler`'s decision as the function
  `Respond`, over whether the two marker files exist and the current verdict.
- `publisher.dfy` (module `Publisher`): the class `StatePublisher`, whose
  field `current` is the published verdict. It starts as
  `{false, "Initializing"}`. `UpdateState` replaces it wholesale and reports
  whether a change would be logged. `CheckHandler` answers a request from it.
- `scenarios.dfy` (module `Scenarios`): whole-path consequences. A synced
  node answers 200 with "Synced", a donor node answers 503 by default, and
  the initial answer is 503 "Initializing". A client method feeds
  tab-separated probe output through the publisher, then a timed-out probe.

Behaviour of the program worth noting:

- A 503 answer is written with Go's `http.Error`, which appends a newline.
  Its body is therefore the message followed by `"\n"`. A 200 answer is
  written with `fmt.Fprint` and its body is the text exactly.
- Lines are not required to have exactly two fields. Extra fields are
  ignored. Fewer than two fields is a panic, not a failed fetch.
- The first refresh runs in a goroutine started just before the server. The
  first requests can therefore still see `Initializing`.

## Model

| member | source | states |
|---|---|---|
| `Tokenize.Fields` | goclustercheck.go:86 | every field of a line is non-empty and contains no white space (Go's `unicode.IsSpace`) |
| `Tokenize.FieldsOfJoin` | goclustercheck.go:86 | fields laid out with any non-empty white-space separator split back into exactly those fields |
| `Tokenize.LeadingSpaceIgnored` | goclustercheck.go:86 | leading white space does not change a line's fields |
| `Quoting.Escape` | goclustercheck.go:80 | the escaped text is at least as long as the input and contains no ASCII control character |
| `Quoting.Quote` | goclustercheck.go:80 | the `%q` form is wrapped in double quotes and holds no ASCII control character |
| `Quoting.QuoteRoundTrip` | goclustercheck.go:80 | unquoting the quoted form gives back the original text exactly |
| `Status.RunFailureMessage` | goclustercheck.go:80 | the failure message starts "Failed to get status: ", then the error text, then " (stderr: ", the quoted standard error and ")"; the error text and the standard error can both be read back from it |
| `Status.CollectKeys` | goclustercheck.go:83-88 | a name is in the parsed map exactly when some line has it as field 0 |
| `Status.CollectLatest` | goclustercheck.go:83-88 | the value under a name is field 1 of the last line carrying that name, so a later line overwrites an earlier one |
| `Status.CollectFirstTwoFields` | goclustercheck.go:86-87 | two outputs whose lines agree on their first two fields parse to the same map: extra fields are ignored |
| `Status.LineEntersNameAndValue` | goclustercheck.go:86-87 | a line written as name, value and further fields has exactly those fields, name first and value second |
| `Status.ParseStatus` | goclustercheck.go:83-89 | the parse succeeds exactly when every line has at least two fields, and then yields `Collect` of the lines' fields; otherwise it reports the first line with fewer than two fields, where Go's indexing panics |
| `Status.GetStatus` | goclustercheck.go:75-89 | a failed run whose deadline passed gives the timeout message; any other failed run gives the run-failure message; a completed run gives the parsed map, or the panicking line when a line has fewer than two fields |
| `Policy.Evaluate` | goclustercheck.go:92-114 | a failed fetch is unavailable with its message; a missing `wsrep_local_state` is `{false, "Unable to determine wsrep state"}`; `read_only` = "ON" under a policy not allowing read-only is `{false, "Read Only"}`; otherwise the comment is `wsrep_local_state_comment` or "" when absent; available holds exactly when the state is "4", or "2" with donors allowed, and read-only does not block |
| `Policy.MorePermissiveConfig` | goclustercheck.go:102-110 | turning on either policy switch never makes an available node unavailable |
| `Policy.DonorRule` | goclustercheck.go:102-105 | with no `read_only` report, a donor node ("2") is available exactly when donors are allowed |
| `Policy.ReadOnlyPrecedence` | goclustercheck.go:106-110 | a read-only node under a policy not allowing read-only is `{false, "Read Only"}` for every state code and either donor setting |
| `Policy.SyncedIsAvailable` | goclustercheck.go:102-113 | a synced node ("4") that read-only does not block is available with its state comment |
| `Policy.TimeoutIsUnavailable` | goclustercheck.go:93-96 | a timed-out probe gives `{false, "Timed out waiting for status query to complete"}` |
| `Handler.Respond` | goclustercheck.go:48-64 | force-up answers 200 "Cluster node OK by manual override" whatever the verdict; otherwise force-fail answers 503 with "Cluster node unavailable by manual override"; otherwise 200 with the comment when available, else 503 with it; each 503 body ends with the newline `http.Error` appends; only 200 and 503 occur, and 200 exactly when forced up, or not forced down and available |
| `Publisher.StatePublisher.constructor` | goclustercheck.go:140 | the published verdict starts as `{false, "Initializing"}` |
| `Publisher.StatePublisher.UpdateState` | goclustercheck.go:116-122 | afterwards the published verdict is the evaluation of the fetch, and a change is logged exactly when the old and new comments differ; nothing else changes |
| `Publisher.StatePublisher.CheckHandler` | goclustercheck.go:48-64 | a request is answered by `Respond` over the marker flags and the published verdict |
| `Scenarios.SyncedNodeAnswersOK` | goclustercheck.go:102-113 | status {4, OFF, "Synced"} under the default policy answers 200 with body "Synced" |
| `Scenarios.DonorNodeAnswersUnavailable` | goclustercheck.go:102-105 | a donor node under the default policy answers 503 |
| `Scenarios.InitialAnswer` | goclustercheck.go:140 | before the first refresh the endpoint answers 503 with "Initializing" |
| `Scenarios.SyncedOutputParses` | goclustercheck.go:83-88 | the probe's tab-separated output for a synced node parses to the map of its three variables |

## Left out

- Running the `mysql` subprocess, its timeout context, and reading its stdout and stderr (goclustercheck.go:67-75). These are OS calls. Their outcome is the input `ProbeRun`: the output lines, or the error text, the stderr text and whether the deadline had passed.
- Splitting stdout into lines with `bufio.Scanner` (goclustercheck.go:84-85). The lines are given. Not modelled: the scanner's 64 KiB line limit, where scanning stops silently because its error is not checked; and its removal of a trailing carriage return.
- The HTTP server, headers, writing the response, and `os.Stat` (goclustercheck.go:48-63, 150-154). Each marker is a boolean meaning "stat succeeded". The headers `http.Error` sets (content type, nosniff) are not modelled.
- The background goroutine, the `time.Tick` loop, and the unsynchronised sharing of `currentState` with request handlers (goclustercheck.go:142-148). This is concurrency and timing. The model has one refresh step, `UpdateState`, and one request, `CheckHandler`.
- Flag parsing, usage text, the mysql arguments and the query text (goclustercheck.go:38-46, 125-138). This is configuration, given as `Config` and `DefaultConfig`. The query asks for the three variables. Whether the server reports `read_only` in that answer is outside the model.
- The wording of the change log line (goclustercheck.go:120). Only whether it is emitted is modelled.
- Quoting.Escape, Quoting.Quote: characters from U+0080 up stay as they are, so the quoted text can hold non-printable characters and the line separators U+2028 and U+2029. Go's `strconv.Quote` writes the non-printable ones as `\u`/`\U` escapes. Invalid UTF-8 cannot occur in a Dafny string.
- Status.RunFailureMessage: the text of the Go error value (for example "exit status 1" or "signal: killed") is a given string, not derived.
