/** What the public registration calls of tree.go do, as values: `Add`
    hands one route to `add` once, twice or three times (the HEAD copy and
    the trailing-slash variant), and `GroupAdd` runs a body of such calls
    with one more group pushed. */
module RadixRoutes {
  import opened Common
  import opened Router
  import opened Groups
  import opened RadixSpec

  /** `Add` as tree.go writes it: identical to the calls above except that
      an empty pattern inside a group, with the trailing-slash option,
      indexes `pattern[-1]` (after the HEAD copy, if any, was added). */
  function AddAsWritten(leaves: seq<Leaf>, nodes: seq<nat>, groups: seq<Group>, verb: string,
                        pattern: string, handlers: Option<seq<Handler>>,
                        autoHead: bool, autoTrailingSlash: bool): (a: Added)
    requires Wf(leaves) && |nodes| == RouteLength && ChildrenIn(leaves, nodes)
  {
    if autoTrailingSlash && (|pattern| > 1 || groups != []) && pattern == "" then
      if verb == "GET" && autoHead then
        var h := AddSpec(leaves, nodes, groups, "HEAD", pattern, handlers);
        if h.res.Panic? then h else Added(h.leaves, Panic(IndexNegative))
      else Added(leaves, Panic(IndexNegative))
    else AddAll(leaves, nodes, groups, Registrations(verb, pattern, autoHead, autoTrailingSlash, groups != []), handlers)
  }

  /** The empty route of a group cannot be added with the trailing-slash
      option as tree.go is written: it panics with an index out of range. */
  lemma EmptyGroupRoutePanics(leaves: seq<Leaf>, nodes: seq<nat>, groups: seq<Group>, verb: string,
                              handlers: Option<seq<Handler>>)
    requires Wf(leaves) && |nodes| == RouteLength && ChildrenIn(leaves, nodes)
    requires groups != [] && verb != "GET"
    ensures AddAsWritten(leaves, nodes, groups, verb, "", handlers, false, true).res == Panic(IndexNegative)
  {
  }

  /** `add` applied to each call in turn, stopping at the first panic; the
      result is that of the last call. */
  function AddAll(leaves: seq<Leaf>, nodes: seq<nat>, groups: seq<Group>, regs: seq<Reg>,
                  handlers: Option<seq<Handler>>): (a: Added)
    requires Wf(leaves) && |nodes| == RouteLength && ChildrenIn(leaves, nodes) && regs != []
    ensures Wf(a.leaves) && |leaves| <= |a.leaves|
    decreases |regs|
  {
    var a := AddSpec(leaves, nodes, groups, regs[0].verb, regs[0].pattern, handlers);
    if |regs| == 1 || a.res.Panic? then a
    else AddAll(a.leaves, nodes, groups, regs[1..], handlers)
  }

  /** The registrations of `Add` one at a time: the first, then (unless it
      panicked) the rest on the arena it left. */
  lemma AddAllStep(leaves: seq<Leaf>, nodes: seq<nat>, groups: seq<Group>, regs: seq<Reg>,
                   handlers: Option<seq<Handler>>)
    requires Wf(leaves) && |nodes| == RouteLength && ChildrenIn(leaves, nodes) && regs != []
    ensures var a := AddSpec(leaves, nodes, groups, regs[0].verb, regs[0].pattern, handlers);
            (|regs| == 1 || a.res.Panic?) ==> AddAll(leaves, nodes, groups, regs, handlers) == a
    ensures var a := AddSpec(leaves, nodes, groups, regs[0].verb, regs[0].pattern, handlers);
            (|regs| > 1 && a.res.Ok?) ==> AddAll(leaves, nodes, groups, regs, handlers) == AddAll(a.leaves, nodes, groups, regs[1..], handlers)
  {
  }

  /** The state after running calls: the arena, the group stack, and the
      panic that stopped them, if any. */
  datatype Outcome = Outcome(leaves: seq<Leaf>, groups: seq<Group>, panic: Option<string>)

  /** Runs `actions` in order under the group stack `groups`: `Handle` is
      `Add`, `Nest` is `GroupAdd`, which pushes its group, runs its body and
      pops the group again. A panic stops everything, leaving the groups
      pushed so far on the stack (Go pops without `defer`). */
  function Run(leaves: seq<Leaf>, nodes: seq<nat>, groups: seq<Group>, autoHead: bool,
               autoTrailingSlash: bool, actions: seq<Action>): (o: Outcome)
    requires Wf(leaves) && |nodes| == RouteLength && ChildrenIn(leaves, nodes)
    ensures Wf(o.leaves) && |leaves| <= |o.leaves|
    ensures o.panic.None? ==> o.groups == groups
    ensures o.panic.Some? ==> |groups| <= |o.groups| && o.groups[..|groups|] == groups
    decreases actions
  {
    if actions == [] then Outcome(leaves, groups, None)
    else
      match actions[0]
      case Handle(v, p, h) =>
        var a := AddAll(leaves, nodes, groups, Registrations(v, p, autoHead, autoTrailingSlash, groups != []), h);
        if a.res.Panic? then Outcome(a.leaves, groups, Some(a.res.msg))
        else Run(a.leaves, nodes, groups, autoHead, autoTrailingSlash, actions[1..])
      case Nest(p, h, body) =>
        var o := Run(leaves, nodes, groups + [Group(p, h)], autoHead, autoTrailingSlash, body);
        if o.panic.Some? then
          assert (groups + [Group(p, h)])[..|groups|] == groups;
          Outcome(o.leaves, o.groups, o.panic)
        else Run(o.leaves, nodes, groups, autoHead, autoTrailingSlash, actions[1..])
  }

  /** Running a sequence of calls is running the first one and then, unless
      it panicked, the rest from the state it left. */
  lemma RunFirst(leaves: seq<Leaf>, nodes: seq<nat>, groups: seq<Group>, autoHead: bool,
                 autoTrailingSlash: bool, actions: seq<Action>)
    requires Wf(leaves) && |nodes| == RouteLength && ChildrenIn(leaves, nodes) && actions != []
    ensures var o := Run(leaves, nodes, groups, autoHead, autoTrailingSlash, [actions[0]]);
            Run(leaves, nodes, groups, autoHead, autoTrailingSlash, actions)
              == if o.panic.Some? then o else Run(o.leaves, nodes, groups, autoHead, autoTrailingSlash, actions[1..])
  {
    assert [actions[0]][0] == actions[0] && [actions[0]][1..] == [];
  }
}
