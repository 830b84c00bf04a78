/** The policy evaluator: from a fetch and the two policy flags to a verdict. */
module Policy {
  import opened Status

  /** The published health verdict. */
  datatype State = State(available: bool, comment: string)

  /** The two policy switches: whether a donor node, and whether a read-only
      node, still counts as available. Both are off unless configured. */
  datatype Config = Config(availableWhenDonor: bool, availableWhenReadonly: bool)

  const DefaultConfig := Config(false, false)

  const LocalStateKey := "wsrep_local_state"
  const LocalStateCommentKey := "wsrep_local_state_comment"
  const ReadOnlyKey := "read_only"

  /** The cluster's own state codes: synced, and donor. */
  const Synced := "4"
  const Donor := "2"
  const ReadOnlyOn := "ON"

  const UnknownStateComment := "Unable to determine wsrep state"
  const ReadOnlyComment := "Read Only"

  /** A map lookup that yields the empty string for a missing key. */
  function Lookup(m: StatusValues, key: string): (v: string)
    ensures key in m ==> v == m[key]
    ensures key !in m ==> v == ""
  {
    if key in m then m[key] else ""
  }

  /** The node reports itself read-only and the policy does not allow it. */
  predicate ReadOnlyBlocks(m: StatusValues, config: Config) {
    !config.availableWhenReadonly && ReadOnlyKey in m && m[ReadOnlyKey] == ReadOnlyOn
  }

  /** The node's state code is one the policy accepts. */
  predicate AcceptedState(code: string, config: Config) {
    code == Synced || (config.availableWhenDonor && code == Donor)
  }

  /** The verdict for one fetch. A failed fetch is unavailable with its own
      message; a missing state code is unavailable whatever else is known; a
      read-only node the policy does not allow is unavailable whatever its
      state code; otherwise the node is available exactly when its state code
      is synced, or donor under a policy allowing donors, and the comment is
      the node's own state comment, empty when not reported. */
  function Evaluate(fetch: Fetch, config: Config): (r: State)
    ensures fetch.Failed? ==> r == State(false, fetch.message)
    ensures fetch.Values? && LocalStateKey !in fetch.values ==> r == State(false, UnknownStateComment)
    ensures fetch.Values? && LocalStateKey in fetch.values && ReadOnlyBlocks(fetch.values, config) ==>
      r == State(false, ReadOnlyComment)
    ensures fetch.Values? && LocalStateKey in fetch.values && !ReadOnlyBlocks(fetch.values, config) ==>
      r.comment == Lookup(fetch.values, LocalStateCommentKey)
    ensures r.available <==>
      && fetch.Values?
      && LocalStateKey in fetch.values
      && AcceptedState(fetch.values[LocalStateKey], config)
      && !ReadOnlyBlocks(fetch.values, config)
  {
    match fetch
    case Failed(message) => State(false, message)
    case Values(m) =>
      if LocalStateKey !in m then State(false, UnknownStateComment)
      else
        var localState := m[LocalStateKey];
        var available := localState == Synced || (config.availableWhenDonor && localState == Donor);
        if !config.availableWhenReadonly && ReadOnlyKey in m && m[ReadOnlyKey] == ReadOnlyOn then
          State(false, ReadOnlyComment)
        else
          State(available, Lookup(m, LocalStateCommentKey))
  }

  /** Allowing more never makes a node less available: turning on either
      switch can only turn an unavailable verdict into an available one. */
  lemma MorePermissiveConfig(fetch: Fetch, c: Config, d: Config)
    requires c.availableWhenDonor ==> d.availableWhenDonor
    requires c.availableWhenReadonly ==> d.availableWhenReadonly
    ensures Evaluate(fetch, c).available ==> Evaluate(fetch, d).available
  {
  }

  /** The donor rule: with no read-only report, a donor node is available
      exactly when the policy allows donors. */
  lemma DonorRule(m: StatusValues, config: Config)
    requires LocalStateKey in m && m[LocalStateKey] == Donor
    requires ReadOnlyKey !in m
    ensures Evaluate(Values(m), config).available == config.availableWhenDonor
  {
  }

  /** The read-only rule takes precedence over the state code, whatever it
      is and whether donors are allowed. */
  lemma ReadOnlyPrecedence(m: StatusValues, code: string, donor: bool)
    requires ReadOnlyKey in m && m[ReadOnlyKey] == ReadOnlyOn
    ensures Evaluate(Values(m[LocalStateKey := code]), Config(donor, false)) == State(false, ReadOnlyComment)
  {
  }

  /** A synced node is available unless read-only blocks it. */
  lemma SyncedIsAvailable(m: StatusValues, config: Config)
    requires LocalStateKey in m && m[LocalStateKey] == Synced
    requires ReadOnlyKey !in m || config.availableWhenReadonly || m[ReadOnlyKey] != ReadOnlyOn
    ensures Evaluate(Values(m), config) == State(true, Lookup(m, LocalStateCommentKey))
  {
  }

  /** A probe that timed out makes the node unavailable with the timeout message. */
  lemma TimeoutIsUnavailable(config: Config)
    ensures Evaluate(Failed(TimeoutMessage), config) == State(false, TimeoutMessage)
  {
  }
}
