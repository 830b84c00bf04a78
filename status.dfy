/** The status fetcher: the outcome of running the probe, and the parse of
    its standard output into a map from status-variable name to value. */
module Status {
  import opened Tokenize
  import Quoting

  type StatusValues = map<string, string>

  /** What running the probe produced. The subprocess, its timeout and the
      capture of its output are outside the model; their outcome is supplied.
      `err` is the text of the run's error value and `deadlineExceeded` says
      whether the run's timeout context had expired when it failed. */
  datatype ProbeRun =
    | Completed(stdout: seq<string>)
    | RunFailed(err: string, stderr: string, deadlineExceeded: bool)

  /** What the evaluator receives: the parsed status, or an error message. */
  datatype Fetch = Values(values: StatusValues) | Failed(message: string)

  /** The parse of the probe's output, or the first line whose fields are too
      few to index (where the program aborts with an index-out-of-range panic). */
  datatype ParseResult = Parsed(values: StatusValues) | ShortLine(index: nat)

  /** The whole fetch: a value for the evaluator, or the line that aborted it. */
  datatype StatusOutcome = Fetched(fetch: Fetch) | Panicked(line: nat)

  const TimeoutMessage := "Timed out waiting for status query to complete"

  const RunFailurePrefix := "Failed to get status: "
  const StderrLabel := " (stderr: "

  /** The message of a failed run: its error text, then its standard error
      quoted, in parentheses. Both parts can be read back from the message. */
  function RunFailureMessage(err: string, stderr: string): (m: string)
    ensures |m| >= |RunFailurePrefix| + |err| + |StderrLabel| + 3
    ensures m[..|RunFailurePrefix|] == RunFailurePrefix
    ensures m[|RunFailurePrefix|..|RunFailurePrefix| + |err|] == err
    ensures m[|RunFailurePrefix| + |err|..|RunFailurePrefix| + |err| + |StderrLabel|] == StderrLabel
    ensures m[|m| - 1] == ')'
    ensures Quoting.Unquote(m[|RunFailurePrefix| + |err| + |StderrLabel|..|m| - 1]) == Quoting.Some(stderr)
  {
    var q := Quoting.Quote(stderr);
    var m := RunFailurePrefix + err + StderrLabel + q + ")";
    assert m[|RunFailurePrefix| + |err| + |StderrLabel|..|m| - 1] == q;
    Quoting.QuoteRoundTrip(stderr);
    m
  }

  /** A line the parse can take: it has a name field and a value field. */
  predicate WellFormed(line: string) {
    |Fields(line)| >= 2
  }

  predicate AllWellFormed(lines: seq<string>) {
    forall i :: 0 <= i < |lines| ==> WellFormed(lines[i])
  }

  /** The field lists of the lines, in order. */
  function Rows(lines: seq<string>): (rows: seq<seq<string>>)
    ensures |rows| == |lines|
    ensures forall i :: 0 <= i < |lines| ==> rows[i] == Fields(lines[i])
  {
    seq(|lines|, i requires 0 <= i < |lines| => Fields(lines[i]))
  }

  /** A row the parse can enter: field 0 is the name, field 1 the value. */
  predicate IsEntry(row: seq<string>) {
    |row| >= 2
  }

  predicate AllEntries(rows: seq<seq<string>>) {
    forall i :: 0 <= i < |rows| ==> IsEntry(rows[i])
  }

  /** The map the rows build when each is entered in turn, a later row
      replacing the value of an earlier one with the same name. */
  function Collect(rows: seq<seq<string>>): StatusValues
    requires AllEntries(rows)
  {
    if rows == [] then map[]
    else
      var last := rows[|rows| - 1];
      Collect(rows[..|rows| - 1])[last[0] := last[1]]
  }

  /** The names in the map are exactly the name fields of the rows. */
  lemma {:induction false} CollectKeys(rows: seq<seq<string>>, k: string)
    requires AllEntries(rows)
    ensures k in Collect(rows) <==> exists i :: 0 <= i < |rows| && rows[i][0] == k
  {
    if rows != [] {
      var n := |rows| - 1;
      var init := rows[..n];
      CollectKeys(init, k);
      if k in Collect(rows) && k != rows[n][0] {
        var i :| 0 <= i < |init| && init[i][0] == k;
        assert rows[i] == init[i];
      }
      if exists i :: 0 <= i < |rows| && rows[i][0] == k {
        var i :| 0 <= i < |rows| && rows[i][0] == k;
        if i < n {
          assert init[i] == rows[i];
        }
      }
    }
  }

  /** The value under a name is that of the last row carrying the name:
      a later row overwrites an earlier one, and fields past the second are
      ignored. */
  lemma {:induction false} CollectLatest(rows: seq<seq<string>>, j: nat)
    requires AllEntries(rows)
    requires j < |rows|
    requires forall i :: j < i < |rows| ==> rows[i][0] != rows[j][0]
    ensures rows[j][0] in Collect(rows)
    ensures Collect(rows)[rows[j][0]] == rows[j][1]
  {
    var init := rows[..|rows| - 1];
    if j < |rows| - 1 {
      forall i | j < i < |init| ensures init[i][0] != init[j][0] {
        assert init[i] == rows[i] && init[j] == rows[j];
      }
      CollectLatest(init, j);
      assert init[j] == rows[j];
    }
  }

  /** Only the first two fields of each row matter. */
  lemma {:induction false} CollectFirstTwoFields(a: seq<seq<string>>, b: seq<seq<string>>)
    requires AllEntries(a) && AllEntries(b) && |a| == |b|
    requires forall i :: 0 <= i < |a| ==> a[i][..2] == b[i][..2]
    ensures Collect(a) == Collect(b)
  {
    if a != [] {
      var n := |a| - 1;
      assert a[n][0] == a[n][..2][0] && a[n][1] == a[n][..2][1];
      assert b[n][0] == b[n][..2][0] && b[n][1] == b[n][..2][1];
      CollectFirstTwoFields(a[..n], b[..n]);
    }
  }

  /** A line written as name, value and any further fields, separated by
      white space, enters `name` with `value`. */
  lemma LineEntersNameAndValue(name: string, value: string, extra: seq<string>, sep: string)
    requires IsField(name) && IsField(value)
    requires forall i :: 0 <= i < |extra| ==> IsField(extra[i])
    requires sep != [] && AllSpace(sep)
    ensures Fields(JoinWith([name, value] + extra, sep)) == [name, value] + extra
  {
    var ws := [name, value] + extra;
    assert forall i :: 0 <= i < |ws| ==> IsField(ws[i]) by {
      forall i | 0 <= i < |ws| ensures IsField(ws[i]) {
        if i >= 2 {
          assert ws[i] == extra[i - 2];
        }
      }
    }
    FieldsOfJoin(ws, sep);
  }

  /** The scan loop over the output lines: each line is split into fields
      and its first field entered with its second. */
  method ParseStatus(lines: seq<string>) returns (r: ParseResult)
    ensures r.Parsed? <==> AllWellFormed(lines)
    ensures r.Parsed? ==> r.values == Collect(Rows(lines))
    ensures r.ShortLine? ==>
      && r.index < |lines|
      && !WellFormed(lines[r.index])
      && AllWellFormed(lines[..r.index])
  {
    ghost var rows := Rows(lines);
    var propVals: StatusValues := map[];
    var i := 0;
    while i < |lines|
      invariant 0 <= i <= |lines|
      invariant AllWellFormed(lines[..i])
      invariant AllEntries(rows[..i])
      invariant propVals == Collect(rows[..i])
    {
      var statusVar := Fields(lines[i]);
      if |statusVar| < 2 {
        return ShortLine(i);
      }
      assert rows[..i + 1][..i] == rows[..i];
      assert lines[..i + 1][..i] == lines[..i];
      propVals := propVals[statusVar[0] := statusVar[1]];
      i := i + 1;
    }
    assert lines[..i] == lines;
    assert rows[..i] == rows;
    r := Parsed(propVals);
  }

  /** The fetch: a failed run becomes an error message (the timeout message
      when the deadline had passed), a completed run has its output parsed. */
  method GetStatus(run: ProbeRun) returns (r: StatusOutcome)
    ensures run.RunFailed? && run.deadlineExceeded ==> r == Fetched(Failed(TimeoutMessage))
    ensures run.RunFailed? && !run.deadlineExceeded ==>
      r == Fetched(Failed(RunFailureMessage(run.err, run.stderr)))
    ensures run.Completed? ==> (r.Fetched? <==> AllWellFormed(run.stdout))
    ensures run.Completed? && AllWellFormed(run.stdout) ==> r == Fetched(Values(Collect(Rows(run.stdout))))
    ensures r.Panicked? ==>
      && run.Completed?
      && r.line < |run.stdout|
      && !WellFormed(run.stdout[r.line])
      && AllWellFormed(run.stdout[..r.line])
  {
    match run
    case RunFailed(err, stderr, deadlineExceeded) =>
      if deadlineExceeded {
        return Fetched(Failed(TimeoutMessage));
      }
      return Fetched(Failed(RunFailureMessage(err, stderr)));
    case Completed(stdout) =>
      var parsed := ParseStatus(stdout);
      match parsed
      case Parsed(values) =>
        r := Fetched(Values(values));
      case ShortLine(index) =>
        r := Panicked(index);
  }
}
