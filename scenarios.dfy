/** Whole-path consequences: probe output, through the parse, the evaluator
    and the publisher, to the answer a load balancer sees. */
module Scenarios {
  import opened Tokenize
  import opened Status
  import opened Policy
  import opened Handler
  import opened Publisher

  /** A synced, writable node with the default policy answers 200 with its
      state comment. */
  lemma SyncedNodeAnswersOK()
    ensures Respond(false, false, Evaluate(Values(map[
      LocalStateKey := Synced, ReadOnlyKey := "OFF", LocalStateCommentKey := "Synced"]), DefaultConfig))
      == Response(StatusOK, "Synced")
  {
  }

  /** A donor node with the default policy answers 503. */
  lemma DonorNodeAnswersUnavailable()
    ensures Respond(false, false, Evaluate(Values(map[LocalStateKey := Donor]), DefaultConfig)).code
      == StatusServiceUnavailable
  {
  }

  /** Until the first refresh the endpoint reports the placeholder verdict. */
  lemma InitialAnswer()
    ensures Respond(false, false, Initializing) == Response(StatusServiceUnavailable, "Initializing\n")
  {
  }

  /** The probe's tab-separated output for a synced, writable node. */
  function SyncedOutput(): seq<string> {
    [ JoinWith([ReadOnlyKey, "OFF"], "\t"),
      JoinWith([LocalStateKey, Synced], "\t"),
      JoinWith([LocalStateCommentKey, "Synced"], "\t") ]
  }

  lemma NamesAreFields()
    ensures IsField(ReadOnlyKey) && IsField(LocalStateKey) && IsField(LocalStateCommentKey)
    ensures IsField("OFF") && IsField(Synced) && IsField("Synced")
  {
  }

  lemma SyncedOutputRows()
    ensures Rows(SyncedOutput()) == [[ReadOnlyKey, "OFF"], [LocalStateKey, Synced], [LocalStateCommentKey, "Synced"]]
  {
    NamesAreFields();
    var tab := "\t";
    assert AllSpace(tab);
    var out, rows := SyncedOutput(), Rows(SyncedOutput());
    LineEntersNameAndValue(ReadOnlyKey, "OFF", [], tab);
    assert [ReadOnlyKey, "OFF"] + [] == [ReadOnlyKey, "OFF"];
    assert rows[0] == [ReadOnlyKey, "OFF"];
    LineEntersNameAndValue(LocalStateKey, Synced, [], tab);
    assert [LocalStateKey, Synced] + [] == [LocalStateKey, Synced];
    assert rows[1] == [LocalStateKey, Synced];
    LineEntersNameAndValue(LocalStateCommentKey, "Synced", [], tab);
    assert [LocalStateCommentKey, "Synced"] + [] == [LocalStateCommentKey, "Synced"];
    assert rows[2] == [LocalStateCommentKey, "Synced"];
  }

  /** Parsing that output lists all three variables. */
  lemma SyncedOutputParses()
    ensures AllWellFormed(SyncedOutput())
    ensures Collect(Rows(SyncedOutput()))
      == map[ReadOnlyKey := "OFF", LocalStateKey := Synced, LocalStateCommentKey := "Synced"]
  {
    SyncedOutputRows();
    var rows := Rows(SyncedOutput());
    assert rows[..1][..0] == [];
    assert Collect(rows[..1]) == map[ReadOnlyKey := "OFF"];
    assert rows[..2][..1] == rows[..1];
    assert Collect(rows[..2]) == map[ReadOnlyKey := "OFF", LocalStateKey := Synced];
    assert rows[..3][..2] == rows[..2];
    assert rows[..3] == rows;
  }

  /** That output published and served, then a timed-out probe. */
  method SyncedNodeScenario() {
    var p := new StatePublisher(DefaultConfig);
    var r := p.CheckHandler(false, false);
    assert r == Response(StatusServiceUnavailable, "Initializing\n");

    SyncedOutputParses();
    var outcome := GetStatus(Completed(SyncedOutput()));
    var logged := p.UpdateState(outcome.fetch);
    assert logged;
    r := p.CheckHandler(false, false);
    assert r == Response(StatusOK, "Synced");
    r := p.CheckHandler(false, true);
    assert r.code == StatusServiceUnavailable;

    var timedOut := GetStatus(RunFailed("signal: killed", "", true));
    logged := p.UpdateState(timedOut.fetch);
    assert logged;
    r := p.CheckHandler(false, false);
    assert r == Response(StatusServiceUnavailable, TimeoutMessage + "\n");
    r := p.CheckHandler(true, false);
    assert r.code == StatusOK;
  }
}
