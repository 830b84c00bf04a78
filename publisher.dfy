/** The state publisher: the one current verdict, replaced wholesale on each
    refresh and read by every request. */
module Publisher {
  import opened Status
  import opened Policy
  import opened Handler

  const Initializing := State(false, "Initializing")

  class StatePublisher {
    /** The policy the daemon was started with; fixed for its lifetime. */
    const config: Config
    /** The verdict every request reads. */
    var current: State

    /** At startup, before any probe, the node is reported as initializing. */
    constructor (config: Config)
      ensures this.config == config
      ensures current == Initializing
    {
      this.config := config;
      current := Initializing;
    }

    /** One refresh: the evaluation of `fetch` replaces the current verdict;
        a change is logged exactly when the comment text differs. */
    method UpdateState(fetch: Fetch) returns (changeLogged: bool)
      modifies this`current
      ensures current == Evaluate(fetch, config)
      ensures changeLogged <==> old(current).comment != current.comment
    {
      var lastState := current;
      current := Evaluate(fetch, config);
      changeLogged := lastState.comment != current.comment;
    }

    /** One request: the markers' presence is given, the verdict is read. */
    method CheckHandler(forceUpExists: bool, forceFailExists: bool) returns (r: Response)
      ensures r == Respond(forceUpExists, forceFailExists, current)
      ensures forceUpExists ==> r.code == StatusOK
      ensures !forceUpExists && !forceFailExists ==> (r.code == StatusOK <==> current.available)
    {
      r := Respond(forceUpExists, forceFailExists, current);
    }
  }
}
