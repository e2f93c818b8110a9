/** What router/regtree/router.go does with its trees, as values: `add`
    checks the method and the pattern, applies the groups and hands the
    route to the root of its method; `Match` asks that root for the route;
    `Add` and `GroupAdd` make `add` calls in order. The router class in
    regtree_router.dfy is proved to follow these definitions. */
module RegTreeRoutes {
  import opened Common
  import opened Router
  import opened Groups
  import opened Fmt
  import opened Patterns
  import opened RegTreeSpec

  /** A `*Node` that `add` returns: what `URLFor` needs of a route. (Its
      `root` field is the router that made it.) */
  datatype Node = Node(format: string, params: seq<string>)

  /** The nodes after `add`, and the route node or the panic. */
  datatype Added = Added(nodes: seq<RNode>, res: Result<Node>)

  const TreeAddError := "Router.add: tree.add error"

  /** The message of the Go runtime for a write to a nil map. */
  const NilMapWrite := "assignment to entry in nil map"

  /** A root as `New` makes it and `Add` keeps it: a static node whose key
      starts with `/`. */
  predicate Root(nodes: seq<RNode>, id: nat)
  {
    id < |nodes| && nodes[id].isStatic && nodes[id].key != "" && nodes[id].key[0] == '/'
  }

  /** The state of a router's trees: the arena keeps its shape, each method
      has a root, and every regexp node holds a value (the router only ever
      adds handler slices, and a nil slice in an `interface{}` is not nil). */
  predicate Ready(nodes: seq<RNode>, roots: seq<nat>)
  {
    && Wf(nodes)
    && |roots| == RouteLength
    && (forall k :: 0 <= k < |roots| ==> Root(nodes, roots[k]))
    && (forall x :: 0 <= x < |nodes| && !nodes[x].isStatic ==> nodes[x].val.Some?)
  }

  /** The trees `New` makes (router/regtree/router.go lines 35-42): a node
      "/" without value for each method, at its slot. */
  function Initial(): (nodes: seq<RNode>)
    ensures |nodes| == RouteLength
  {
    seq(RouteLength, k => RegTreeSpec.NewTree("/", None))
  }

  /** The root of each method in `Initial()`. */
  const Slots: seq<nat> := [0, 1, 2, 3, 4, 5, 6]

  lemma InitialReady()
    ensures Ready(Initial(), Slots)
  {
    var nodes := Initial();
    forall id | 0 <= id < |nodes|
      ensures NodeOk(nodes, id, nodes[id])
    {
    }
  }

  /** A step of `Add` that stores a value keeps the trees ready. */
  lemma ReadyAfter(nodes: seq<RNode>, roots: seq<nat>, s: RStep, val: Option<Value>)
    requires Ready(nodes, roots) && Grew(nodes, s, val) && Wf(s.nodes) && val.Some?
    ensures Ready(s.nodes, roots)
  {
    forall k | 0 <= k < |roots|
      ensures Root(s.nodes, roots[k])
    {
      assert Root(nodes, roots[k]);
      assert Kept(nodes[roots[k]], s.nodes[roots[k]]);
    }
    forall x | 0 <= x < |s.nodes| && !s.nodes[x].isStatic
      ensures s.nodes[x].val.Some?
    {
      if x < |nodes| {
        assert Kept(nodes[x], s.nodes[x]);
      }
    }
  }

  /** `add` (router/regtree/router.go lines 128-166) up to and including
      the call of `Tree.Add`: an unknown method, an empty pattern and a
      pattern without a leading `/` panic (the last two once the groups
      are applied); otherwise the route, with its handlers as the value, is
      added at the root of its method. Since every root key and every
      pattern that gets that far start with `/`, `Tree.Add` never returns
      nil here. */
  function Insert(nodes: seq<RNode>, roots: seq<nat>, groups: seq<Group>, verb: string,
                  pattern: string, handlers: Option<seq<Handler>>, eng: Engine): (s: RStep)
    requires Ready(nodes, roots)
    ensures Ready(s.nodes, roots)
    ensures s.res.Ok? ==> s.res.value.Some?
    ensures verb !in RouterMethods ==> s == RStep(nodes, Panic(Unsupported(verb)))
    ensures verb in RouterMethods && Join(groups, pattern, handlers).pattern == "" ==> s == RStep(nodes, Panic(EmptyPattern))
    ensures var r := Join(groups, pattern, handlers);
            verb in RouterMethods && r.pattern != "" && r.pattern[0] != '/' ==> s == RStep(nodes, Panic(NoLeadingSlash))
    ensures var r := Join(groups, pattern, handlers);
            verb in RouterMethods && r.pattern != "" && r.pattern[0] == '/' ==>
              s == AddSpec(nodes, roots[RouterMethods[verb]], r.pattern, Some(r.handlers), eng)
  {
    if verb !in RouterMethods then RStep(nodes, Panic(Unsupported(verb)))
    else
      var r := Join(groups, pattern, handlers);
      if r.pattern == "" then RStep(nodes, Panic(EmptyPattern))
      else if r.pattern[0] != '/' then RStep(nodes, Panic(NoLeadingSlash))
      else
        var root := roots[RouterMethods[verb]];
        assert Root(nodes, root);
        var s := AddSpec(nodes, root, r.pattern, Some(r.handlers), eng);
        ReadyAfter(nodes, roots, s, Some(r.handlers));
        s
  }

  /** `add` as router/regtree/router.go writes it (lines 128-168): the
      node returned describes the tree node `Tree.Add` returned, whose
      format covers only the part of the route that node was made for. */
  function AddRouteAsWritten(nodes: seq<RNode>, roots: seq<nat>, groups: seq<Group>, verb: string,
                             pattern: string, handlers: Option<seq<Handler>>, eng: Engine): (a: Added)
    requires Ready(nodes, roots)
    ensures Ready(a.nodes, roots)
  {
    var s := Insert(nodes, roots, groups, verb, pattern, handlers, eng);
    match s.res
    case Panic(m) => Added(s.nodes, Panic(m))
    case Ok(None) => Added(s.nodes, Panic(TreeAddError))
    case Ok(Some(id)) => Added(s.nodes, Ok(Node(s.nodes[id].format, s.nodes[id].params)))
  }

  /** `add` with the route node describing the whole route: the format and
      parameters of the full pattern, as the other routers' `add` give
      them. The trees change exactly as in `AddRouteAsWritten`. */
  function AddRoute(nodes: seq<RNode>, roots: seq<nat>, groups: seq<Group>, verb: string,
                    pattern: string, handlers: Option<seq<Handler>>, eng: Engine): (a: Added)
    requires Ready(nodes, roots)
    ensures Ready(a.nodes, roots)
    ensures a.nodes == AddRouteAsWritten(nodes, roots, groups, verb, pattern, handlers, eng).nodes
    ensures a.res.Ok? ==> a.res == Ok(Node(TreeScan(Join(groups, pattern, handlers).pattern, 0).format,
                                           TreeScan(Join(groups, pattern, handlers).pattern, 0).params))
    ensures a.res.Panic? <==> AddRouteAsWritten(nodes, roots, groups, verb, pattern, handlers, eng).res.Panic?
  {
    var s := Insert(nodes, roots, groups, verb, pattern, handlers, eng);
    var t := TreeScan(Join(groups, pattern, handlers).pattern, 0);
    match s.res
    case Panic(m) => Added(s.nodes, Panic(m))
    case Ok(None) => Added(s.nodes, Panic(TreeAddError))
    case Ok(Some(id)) => Added(s.nodes, Ok(Node(t.format, t.params)))
  }

  /** The route node of a pattern without `%` has one `%v` per parameter,
      so `URLFor` can fill it. */
  lemma RouteFormat(nodes: seq<RNode>, roots: seq<nat>, groups: seq<Group>, verb: string,
                    pattern: string, handlers: Option<seq<Handler>>, eng: Engine)
    requires Ready(nodes, roots)
    requires '%' !in Join(groups, pattern, handlers).pattern
    ensures var a := AddRoute(nodes, roots, groups, verb, pattern, handlers, eng);
            a.res.Ok? ==> && Verbs(a.res.value.format) == |a.res.value.params|
                          && (a.res.value.format == "" || a.res.value.format[|a.res.value.format| - 1] != '%')
  {
    var p := Join(groups, pattern, handlers).pattern;
    var t := TreeScan(p, 0);
    assert Verbs(t.format) == |t.params| && (t.format == "" || t.format[|t.format| - 1] != '%') by {
      forall k | 0 <= k < |p|
        ensures p[k] != '%'
      {
        assert p[k] in p;
      }
      TreeVerbs(p, 0);
    }
    var a := AddRoute(nodes, roots, groups, verb, pattern, handlers, eng);
    assert a.res.Ok? ==> a.res.value == Node(t.format, t.params);
  }

  /** `Add` as router/regtree/router.go writes it (lines 102-113):
      identical to `AddAll` of the `Registrations` except that an empty
      pattern inside a group, with the trailing-slash option, indexes
      `pattern[-1]` (after the HEAD copy, if any, was added). */
  function AddAsWritten(nodes: seq<RNode>, roots: seq<nat>, groups: seq<Group>, verb: string,
                        pattern: string, handlers: Option<seq<Handler>>, eng: Engine,
                        autoHead: bool, autoTrailingSlash: bool): (a: Added)
    requires Ready(nodes, roots)
  {
    if autoTrailingSlash && (|pattern| > 1 || groups != []) && pattern == "" then
      if verb == "GET" && autoHead then
        var h := AddRouteAsWritten(nodes, roots, groups, "HEAD", pattern, handlers, eng);
        if h.res.Panic? then h else Added(h.nodes, Panic(IndexNegative))
      else Added(nodes, Panic(IndexNegative))
    else AddAllAsWritten(nodes, roots, groups, Registrations(verb, pattern, autoHead, autoTrailingSlash, groups != []), handlers, eng)
  }

  /** `AddAll` with each call made by `add` as written. */
  function AddAllAsWritten(nodes: seq<RNode>, roots: seq<nat>, groups: seq<Group>, regs: seq<Reg>,
                           handlers: Option<seq<Handler>>, eng: Engine): (a: Added)
    requires Ready(nodes, roots) && regs != []
    ensures Ready(a.nodes, roots)
    decreases |regs|
  {
    var a := AddRouteAsWritten(nodes, roots, groups, regs[0].verb, regs[0].pattern, handlers, eng);
    if |regs| == 1 || a.res.Panic? then a
    else AddAllAsWritten(a.nodes, roots, groups, regs[1..], handlers, eng)
  }

  /** The calls as written change the trees exactly as `AddAll` does and
      panic exactly when it does; only the route node returned differs. */
  lemma {:induction false} AddAllAsWrittenTrees(nodes: seq<RNode>, roots: seq<nat>, groups: seq<Group>, regs: seq<Reg>,
                                                handlers: Option<seq<Handler>>, eng: Engine)
    requires Ready(nodes, roots) && regs != []
    ensures AddAllAsWritten(nodes, roots, groups, regs, handlers, eng).nodes == AddAll(nodes, roots, groups, regs, handlers, eng).nodes
    ensures AddAllAsWritten(nodes, roots, groups, regs, handlers, eng).res.Panic? <==>
            AddAll(nodes, roots, groups, regs, handlers, eng).res.Panic?
    decreases |regs|
  {
    var a := AddRoute(nodes, roots, groups, regs[0].verb, regs[0].pattern, handlers, eng);
    if |regs| > 1 && !a.res.Panic? {
      AddAllAsWrittenTrees(a.nodes, roots, groups, regs[1..], handlers, eng);
    }
  }

  /** The empty route of a group cannot be added with the trailing-slash
      option as router/regtree/router.go is written: it panics with an
      index out of range and leaves the trees as they were. */
  lemma EmptyGroupRoutePanics(nodes: seq<RNode>, roots: seq<nat>, groups: seq<Group>, verb: string,
                              handlers: Option<seq<Handler>>, eng: Engine)
    requires Ready(nodes, roots) && groups != [] && verb != "GET"
    ensures var a := AddAsWritten(nodes, roots, groups, verb, "", handlers, eng, false, true);
            a.res == Panic(IndexNegative) && a.nodes == nodes
  {
  }

  /** `add` applied to each call in turn, stopping at the first panic; the
      result is that of the last call. */
  function AddAll(nodes: seq<RNode>, roots: seq<nat>, groups: seq<Group>, regs: seq<Reg>,
                  handlers: Option<seq<Handler>>, eng: Engine): (a: Added)
    requires Ready(nodes, roots) && regs != []
    ensures Ready(a.nodes, roots)
    decreases |regs|
  {
    var a := AddRoute(nodes, roots, groups, regs[0].verb, regs[0].pattern, handlers, eng);
    if |regs| == 1 || a.res.Panic? then a
    else AddAll(a.nodes, roots, groups, regs[1..], handlers, eng)
  }

  /** `AddAll` of one call is that call. */
  lemma AddAllOne(nodes: seq<RNode>, roots: seq<nat>, groups: seq<Group>, regs: seq<Reg>,
                  handlers: Option<seq<Handler>>, eng: Engine)
    requires Ready(nodes, roots) && |regs| == 1
    ensures AddAll(nodes, roots, groups, regs, handlers, eng)
              == AddRoute(nodes, roots, groups, regs[0].verb, regs[0].pattern, handlers, eng)
  {
  }

  /** `AddAll` of two calls of the same method. */
  lemma AddTwo(nodes: seq<RNode>, roots: seq<nat>, groups: seq<Group>, verb: string, first: string,
               second: string, handlers: Option<seq<Handler>>, eng: Engine)
    requires Ready(nodes, roots)
    ensures var a := AddRoute(nodes, roots, groups, verb, first, handlers, eng);
            AddAll(nodes, roots, groups, [Reg(verb, first), Reg(verb, second)], handlers, eng)
              == if a.res.Panic? then a else AddRoute(a.nodes, roots, groups, verb, second, handlers, eng)
  {
    AddAllFirst(nodes, roots, groups, [Reg(verb, first), Reg(verb, second)], handlers, eng);
    var a := AddRoute(nodes, roots, groups, verb, first, handlers, eng);
    assert [Reg(verb, first), Reg(verb, second)][1..] == [Reg(verb, second)];
    AddAllOne(a.nodes, roots, groups, [Reg(verb, second)], handlers, eng);
  }

  /** `AddAll` makes the first call and, unless it panicked, the rest. */
  lemma AddAllFirst(nodes: seq<RNode>, roots: seq<nat>, groups: seq<Group>, regs: seq<Reg>,
                    handlers: Option<seq<Handler>>, eng: Engine)
    requires Ready(nodes, roots) && |regs| > 1
    ensures var a := AddRoute(nodes, roots, groups, regs[0].verb, regs[0].pattern, handlers, eng);
            AddAll(nodes, roots, groups, regs, handlers, eng)
              == if a.res.Panic? then a else AddAll(a.nodes, roots, groups, regs[1..], handlers, eng)
  {
  }

  /** The state after running calls: the nodes, the group stack, and the
      panic that stopped them, if any. */
  datatype Outcome = Outcome(nodes: seq<RNode>, groups: seq<Group>, panic: Option<string>)

  /** Runs `actions` in order under the group stack `groups`: `Handle` is
      `Add`, `Nest` is `GroupAdd` (router/regtree/router.go lines 116-125),
      which pushes its group, runs its body and pops the group again. A
      panic stops everything, leaving the groups pushed so far on the
      stack (Go pops without `defer`). */
  function Run(nodes: seq<RNode>, roots: seq<nat>, groups: seq<Group>, autoHead: bool,
               autoTrailingSlash: bool, actions: seq<Action>, eng: Engine): (o: Outcome)
    requires Ready(nodes, roots)
    ensures Ready(o.nodes, roots)
    ensures o.panic.None? ==> o.groups == groups
    ensures o.panic.Some? ==> |groups| <= |o.groups| && o.groups[..|groups|] == groups
    decreases actions
  {
    if actions == [] then Outcome(nodes, groups, None)
    else
      match actions[0]
      case Handle(v, p, h) =>
        var a := AddAll(nodes, roots, groups, Registrations(v, p, autoHead, autoTrailingSlash, groups != []), h, eng);
        if a.res.Panic? then Outcome(a.nodes, groups, Some(a.res.msg))
        else Run(a.nodes, roots, groups, autoHead, autoTrailingSlash, actions[1..], eng)
      case Nest(p, h, body) =>
        var o := Run(nodes, roots, groups + [Group(p, h)], autoHead, autoTrailingSlash, body, eng);
        if o.panic.Some? then
          assert (groups + [Group(p, h)])[..|groups|] == groups;
          Outcome(o.nodes, o.groups, o.panic)
        else Run(o.nodes, roots, groups, autoHead, autoTrailingSlash, actions[1..], eng)
  }

  /** Running a sequence of calls is running the first one and then, unless
      it panicked, the rest from the state it left. */
  lemma RunFirst(nodes: seq<RNode>, roots: seq<nat>, groups: seq<Group>, autoHead: bool,
                 autoTrailingSlash: bool, actions: seq<Action>, eng: Engine)
    requires Ready(nodes, roots) && actions != []
    ensures var o := Run(nodes, roots, groups, autoHead, autoTrailingSlash, [actions[0]], eng);
            Run(nodes, roots, groups, autoHead, autoTrailingSlash, actions, eng)
              == if o.panic.Some? then o else Run(o.nodes, roots, groups, autoHead, autoTrailingSlash, actions[1..], eng)
  {
    assert [actions[0]][0] == actions[0] && [actions[0]][1..] == [];
  }

  /** What `Match` returns, and the parameters it binds on the way. */
  datatype Matched = Matched(handlers: Option<seq<Handler>>, binds: seq<Bind>)

  /** `Match(method, uri, c)` (router/regtree/router.go lines 72-81): `Get`
      from the root of the method (an unknown method reads the GET root,
      as Go's map lookup does); nothing found gives nil and binds nothing,
      a node found binds its parameters to the submatches, in order, and
      gives its handlers. */
  function MatchSpec(nodes: seq<RNode>, roots: seq<nat>, verb: string, uri: string, eng: Engine): (m: Matched)
    requires Ready(nodes, roots)
  {
    assert Root(nodes, roots[MethodIndex(verb)]);
    match GetFrom(nodes, roots[MethodIndex(verb)], uri, eng)
    case None => Matched(None, [])
    case Some(g) => Matched(nodes[g.node].val.value, Zip(nodes[g.node].params, g.values))
  }

  /** A match that finds handlers is justified by a walk from the root of
      the method that leads to a node holding them, and binds the node's
      parameters in order. */
  lemma MatchSound(nodes: seq<RNode>, roots: seq<nat>, verb: string, uri: string, eng: Engine)
    requires Ready(nodes, roots)
    ensures var m := MatchSpec(nodes, roots, verb, uri, eng);
            m.handlers.Some? ==>
              exists g: Got, trail ::
                && trail != [] && trail[0] == roots[MethodIndex(verb)]
                && Leads(nodes, eng, trail, uri, g)
                && g.node < |nodes| && nodes[g.node].val == Some(m.handlers)
                && BindNames(m.binds) == nodes[g.node].params && BindValues(m.binds) == g.values
  {
    var root := roots[MethodIndex(verb)];
    assert Root(nodes, root);
    GetSound(nodes, root, uri, eng);
  }

  /** A static route added to new trees is found again: `add` of "/" + `s`
      returns the node of the whole route, and `Match` of that path gives
      its handlers and binds nothing. */
  lemma AddThenMatch(verb: string, s: string, h: Option<seq<Handler>>, eng: Engine)
    requires verb in RouterMethods && s != "" && forall k :: 0 <= k < |s| ==> !Special(s[k])
    ensures var a := AddRoute(Initial(), Slots, [], verb, "/" + s, h, eng);
            && a.res == Ok(Node("/" + s, []))
            && MatchSpec(a.nodes, Slots, verb, "/" + s, eng) == Matched(h, [])
  {
    InitialReady();
    var nodes := Initial();
    var k := RouterMethods[verb];
    assert Slots[k] == k;
    AddToNewRoot(verb, s, h, eng);
    var b := AddChildSpec(nodes, k, s, Some(h), eng).nodes;
    AddChildThenGet(nodes, k, s, h, eng);
    TreeScanStatic("/" + s, 0);
    assert ("/" + s)[0..] == "/" + s;
    assert MethodIndex(verb) == k;
  }

  /** `add` of "/" + `s` to new trees, `s` without parameters, hands `s` to
      `addChild` at the root of the method. */
  lemma AddToNewRoot(verb: string, s: string, h: Option<seq<Handler>>, eng: Engine)
    requires verb in RouterMethods && s != "" && forall k :: 0 <= k < |s| ==> !Special(s[k])
    ensures Ready(Initial(), Slots)
    ensures var k := RouterMethods[verb];
            var n := |Initial()|;
            && Insert(Initial(), Slots, [], verb, "/" + s, h, eng) == AddChildSpec(Initial(), k, s, Some(h), eng)
            && AddChildSpec(Initial(), k, s, Some(h), eng).res == Ok(Some(n))
            && AddChildSpec(Initial(), k, s, Some(h), eng).nodes[n] == RNode(true, s, Some(h), [], s, [], [], Some(k))
  {
    InitialReady();
    var nodes := Initial();
    var k := RouterMethods[verb];
    assert Slots[k] == k;
    assert nodes[k].key == "/" && nodes[k].schildren == [];
    AddLongerKey(nodes, k, s, Some(h), eng);
    AddChildStatic(nodes, k, s, Some(h), eng);
    assert Join([], "/" + s, h) == Route("/" + s, h);
  }

  /** As written, the node `add` returns for a static route added to new
      trees has the format of the key of its tree node only: the route
      "/" + `s` gets the format `s`, without its leading `/`, so `URLFor`
      rebuilds the wrong URL. */
  lemma RelativeFormat(verb: string, s: string, h: Option<seq<Handler>>, eng: Engine)
    requires verb in RouterMethods && s != "" && forall k :: 0 <= k < |s| ==> !Special(s[k])
    ensures AddRouteAsWritten(Initial(), Slots, [], verb, "/" + s, h, eng).res == Ok(Node(s, []))
    ensures AddRoute(Initial(), Slots, [], verb, "/" + s, h, eng).res == Ok(Node("/" + s, []))
  {
    AddToNewRoot(verb, s, h, eng);
    TreeScanStatic("/" + s, 0);
    assert ("/" + s)[0..] == "/" + s;
  }

  /** The route names as `New` leaves them: a nil map. */
  const NewNamedAsWritten: Option<map<string, Node>> := None

  /** `n.Name(name)` as router/regtree/router.go writes it (lines 171-176)
      on a map that may be nil (`None`): an empty name does nothing, any
      other is written to the map, which panics when the map is nil. */
  function NameAsWritten(named: Option<map<string, Node>>, name: string, n: Node): Result<Option<map<string, Node>>>
  {
    if name == "" then Ok(named)
    else if named.None? then Panic(NilMapWrite)
    else Ok(Some(named.value[name := n]))
  }

  /** As written, naming any route of a router made by `New` panics, since
      `New` never makes the map of names. */
  lemma NameOnNewPanics(name: string, n: Node)
    requires name != ""
    ensures NameAsWritten(NewNamedAsWritten, name, n) == Panic(NilMapWrite)
  {
  }
}
