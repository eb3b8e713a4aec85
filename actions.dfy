/** The action runner: `for action in repo['action']`, one `Popen(action, cwd=path)`
    after the other, each waited for before the next starts. The processes are not
    run here; each start is recorded as an invocation in a trace. */
module Actions {
  import opened Wrappers

  /** One configured action: the argument vector given to `Popen`. */
  type Command = seq<string>

  /** A process started by the handler, with the working directory it was given. */
  datatype Invocation = Invocation(argv: Command, cwd: Option<string>)

  /** The invocations that running `actions` in `cwd` produces, in order. */
  function Trace(actions: seq<Command>, cwd: Option<string>): (t: seq<Invocation>)
    ensures |t| == |actions|
    ensures forall i :: 0 <= i < |actions| ==> t[i] == Invocation(actions[i], cwd)
  {
    if actions == [] then [] else [Invocation(actions[0], cwd)] + Trace(actions[1..], cwd)
  }

  /** The loop over the configured actions: every action is started exactly once, in
      list order, in the configured directory. */
  method RunAll(actions: seq<Command>, cwd: Option<string>) returns (trace: seq<Invocation>)
    ensures trace == Trace(actions, cwd)
  {
    trace := [];
    for i := 0 to |actions|
      invariant |trace| == i
      invariant forall k :: 0 <= k < i ==> trace[k] == Invocation(actions[k], cwd)
    {
      trace := trace + [Invocation(actions[i], cwd)];
    }
  }
}
