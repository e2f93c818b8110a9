/** The router of router/regtree/router.go: one regexp-radix tree per
    method (all kept in one `Trees` arena), the group stack and the named
    routes. Each method is proved to do what `RegTreeRoutes` says. */
module RegTreeRouter {
  import opened Common
  import opened Methods = Router
  import opened Groups
  import opened Fmt
  import opened Patterns
  import opened RegTreeSpec
  import opened RegTree
  import opened RegTreeRoutes
  import Contexts

  class Router {
    var autoHead: bool
    var autoTrailingSlash: bool
    /** The active groups of `GroupAdd`, outermost first. */
    var groups: seq<Group>
    /** The root node of each method, by slot (Go's `nodes` array). */
    var roots: seq<nat>
    /** The named routes. */
    var namedNodes: map<string, Node>
    /** The nodes of all the trees. */
    const trees: Trees
    /** The regular expression engine of the process. */
    const eng: Engine

    /** The trees are ready (`RegTreeRoutes.Ready`). */
    ghost predicate Valid()
      reads this, trees
    {
      Ready(trees.nodes, roots)
    }

    /** `New(b)` (router/regtree/router.go lines 35-42): a "/" root per
        method, no groups, and an empty map of names. */
    constructor (eng: Engine)
      ensures Valid() && fresh(trees)
      ensures trees.nodes == Initial() && roots == Slots
      ensures namedNodes == map[] && groups == [] && !autoHead && !autoTrailingSlash
      ensures this.eng == eng
    {
      autoHead := false;
      autoTrailingSlash := false;
      groups := [];
      namedNodes := map[];
      roots := [];
      trees := new Trees();
      this.eng := eng;
      new;
      var i := 0;
      while i < RouteLength
        invariant 0 <= i <= RouteLength
        invariant trees.Valid() && trees.nodes == Initial()[..i] && roots == Slots[..i]
        invariant namedNodes == map[] && groups == [] && !autoHead && !autoTrailingSlash
      {
        var id := trees.NewTree("/", None);
        roots := roots + [id];
        i := i + 1;
      }
      assert trees.nodes == Initial() && roots == Slots;
      InitialReady();
    }

    /** `SetAutoHead(v)`. */
    method SetAutoHead(v: bool)
      modifies this
      ensures autoHead == v && autoTrailingSlash == old(autoTrailingSlash)
      ensures roots == old(roots) && groups == old(groups) && namedNodes == old(namedNodes)
    {
      autoHead := v;
    }

    /** `SetAutoTrailingSlash(v)`. */
    method SetAutoTrailingSlash(v: bool)
      modifies this
      ensures autoTrailingSlash == v && autoHead == old(autoHead)
      ensures roots == old(roots) && groups == old(groups) && namedNodes == old(namedNodes)
    {
      autoTrailingSlash := v;
    }

    /** `Match(method, uri, c)` (router/regtree/router.go lines 72-81). */
    method Match(verb: string, uri: string, c: Contexts.Context) returns (h: Option<seq<Handler>>)
      requires Valid() && c.Valid()
      modifies c
      ensures var m := MatchSpec(trees.nodes, roots, verb, uri, eng);
              && h == m.handlers
              && c.pNames == old(c.pNames) + BindNames(m.binds)
              && c.pValues == old(c.pValues) + BindValues(m.binds)
      ensures c.Valid()
      ensures c.store == old(c.store) && c.handlers == old(c.handlers) && c.hi == old(c.hi)
      ensures c.req == old(c.req) && c.resp == old(c.resp) && c.logged == old(c.logged)
    {
      var root := roots[MethodIndex(verb)];
      assert Root(trees.nodes, root);
      var g := trees.Get(root, uri, eng);
      if g.None? {
        assert BindNames([]) == [] && BindValues([]) == [];
        return None;
      }
      var node := trees.nodes[g.value.node];
      var values := g.value.values;
      var i := 0;
      while i < |node.params|
        invariant 0 <= i <= |node.params| && c.Valid()
        invariant c.pNames == old(c.pNames) + node.params[..i] && c.pValues == old(c.pValues) + values[..i]
        invariant c.store == old(c.store) && c.handlers == old(c.handlers) && c.hi == old(c.hi)
        invariant c.req == old(c.req) && c.resp == old(c.resp) && c.logged == old(c.logged)
      {
        assert node.params[..i + 1] == node.params[..i] + [node.params[i]];
        assert values[..i + 1] == values[..i] + [values[i]];
        c.SetParam(node.params[i], values[i]);
        i := i + 1;
      }
      assert node.params[..i] == node.params && values[..i] == values;
      return node.val.value;
    }

    /** `URLFor(name, args...)` (router/regtree/router.go lines 84-98): ""
        for an empty or unknown name or an empty format; otherwise the
        format, with one more `%v` for each argument beyond the route's
        parameters, filled with the arguments. */
    method URLFor(name: string, args: seq<Arg>) returns (url: string)
      ensures name == "" || name !in namedNodes || namedNodes[name].format == "" ==> url == ""
      ensures name != "" && name in namedNodes && namedNodes[name].format != "" ==>
                var n := namedNodes[name];
                url == Sprintf(n.format + VerbRun(PadCount(|n.params|, |args|)), args)
      ensures name != "" && name in namedNodes && namedNodes[name].format != "" ==>
                var n := namedNodes[name];
                Verbs(n.format) == |n.params| <= |args| && n.format[|n.format| - 1] != '%' ==>
                  url == Body(n.format, args, 0) + Texts(args[|n.params|..])
    {
      if name == "" {
        return "";
      }
      if name !in namedNodes {
        return "";
      }
      var node := namedNodes[name];
      if |node.format| == 0 {
        return "";
      }
      var format := PadVerbs(node.format, |node.params|, |args|);
      url := Sprintf(format, args);
      if Verbs(node.format) == |node.params| <= |args| && node.format[|node.format| - 1] != '%' {
        PaddedPrint(node.format, |node.params|, args);
      }
    }

    /** `n.Name(name)` (router/regtree/router.go lines 171-176) for a node
        `n` that `Add` returned: records it under `name`, replacing any
        route of that name; an empty name records nothing. */
    method Name(n: Node, name: string)
      modifies this
      ensures name == "" ==> namedNodes == old(namedNodes)
      ensures name != "" ==> namedNodes == old(namedNodes)[name := n]
      ensures roots == old(roots) && groups == old(groups)
      ensures autoHead == old(autoHead) && autoTrailingSlash == old(autoTrailingSlash)
    {
      if name == "" {
        return;
      }
      namedNodes := namedNodes[name := n];
    }

    /** `add(method, pattern, handlers)` (router/regtree/router.go lines
        128-168), returning the node of the whole route. */
    method Register(verb: string, pattern: string, handlers: Option<seq<Handler>>) returns (r: Result<Node>)
      requires Valid()
      modifies trees
      ensures var a := AddRoute(old(trees.nodes), roots, groups, verb, pattern, handlers, eng);
              trees.nodes == a.nodes && r == a.res
      ensures Valid()
    {
      if verb !in RouterMethods {
        return Panic(Unsupported(verb));
      }
      var route := Combine(groups, pattern, handlers);
      var p := route.pattern;
      if p == "" {
        return Panic(EmptyPattern);
      }
      if p[0] != '/' {
        return Panic(NoLeadingSlash);
      }
      var root := roots[RouterMethods[verb]];
      assert Root(trees.nodes, root);
      ghost var s := AddSpec(trees.nodes, root, p, Some(route.handlers), eng);
      ReadyAfter(trees.nodes, roots, s, Some(route.handlers));
      var node := trees.Add(root, p, Some(route.handlers), eng);
      if node.Panic? {
        return Panic(node.msg);
      }
      if node.value.None? {
        return Panic(TreeAddError);
      }
      var t, _ := ScanTree(p);
      return Ok(Node(t.format, t.params));
    }

    /** `Add(method, pattern, handlers)` (router/regtree/router.go lines
        102-113): the HEAD copy, the trailing-slash variant and the route
        itself, as `Registrations` lists them (with the empty group route
        read as "no trailing slash to strip"). */
    method Add(verb: string, pattern: string, handlers: Option<seq<Handler>>) returns (r: Result<Node>)
      requires Valid()
      modifies trees
      ensures var a := AddAll(old(trees.nodes), roots, groups,
                              Registrations(verb, pattern, autoHead, autoTrailingSlash, groups != []), handlers, eng);
              trees.nodes == a.nodes && r == a.res
      ensures Valid()
    {
      ghost var regs := Registrations(verb, pattern, autoHead, autoTrailingSlash, groups != []);
      if verb == "GET" && autoHead {
        r := Register("HEAD", pattern, handlers);
        if r.Panic? {
          return;
        }
        AddAllFirst(old(trees.nodes), roots, groups, regs, handlers, eng);
        assert regs[1..] == Registrations(verb, pattern, false, autoTrailingSlash, groups != []);
      }
      r := AddVariants(verb, pattern, handlers);
    }

    /** The part of `Add` after the HEAD copy: the trailing-slash variant,
        if any, and the route itself. */
    method AddVariants(verb: string, pattern: string, handlers: Option<seq<Handler>>) returns (r: Result<Node>)
      requires Valid()
      modifies trees
      ensures var a := AddAll(old(trees.nodes), roots, groups,
                              Registrations(verb, pattern, false, autoTrailingSlash, groups != []), handlers, eng);
              trees.nodes == a.nodes && r == a.res
      ensures Valid()
    {
      Variants(verb, pattern, autoTrailingSlash, groups != []);
      var p := pattern;
      if autoTrailingSlash && (|p| > 1 || |groups| > 0) {
        if p != "" && p[|p| - 1] == '/' {
          p := p[..|p| - 1];
        }
        assert p == Unslashed(pattern);
        r := AddPair(verb, p, handlers);
      } else {
        AddAllOne(trees.nodes, roots, groups, [Reg(verb, p)], handlers, eng);
        r := Register(verb, p, handlers);
      }
    }

    /** The two calls of `add` the trailing-slash option makes: `p + "/"`,
        then `p` unless the first panicked. */
    method AddPair(verb: string, p: string, handlers: Option<seq<Handler>>) returns (r: Result<Node>)
      requires Valid()
      modifies trees
      ensures var a := AddAll(old(trees.nodes), roots, groups, [Reg(verb, p + "/"), Reg(verb, p)], handlers, eng);
              trees.nodes == a.nodes && r == a.res
      ensures Valid()
    {
      AddTwo(trees.nodes, roots, groups, verb, p + "/", p, handlers, eng);
      r := Register(verb, p + "/", handlers);
      if r.Panic? {
        return;
      }
      r := Register(verb, p, handlers);
    }

    /** `GroupAdd(pattern, f, handlers)` (router/regtree/router.go lines
        116-125), with the calls `f` makes given as `body`: pushes the
        group, runs the body, pops the group. */
    method GroupAdd(pattern: string, body: seq<Action>, handlers: Option<seq<Handler>>)
      returns (panic: Option<string>)
      requires Valid()
      modifies this, trees
      ensures roots == old(roots) && namedNodes == old(namedNodes)
      ensures autoHead == old(autoHead) && autoTrailingSlash == old(autoTrailingSlash)
      ensures var o := Run(old(trees.nodes), roots, old(groups), autoHead, autoTrailingSlash,
                           [Nest(pattern, handlers, body)], eng);
              trees.nodes == o.nodes && groups == o.groups && panic == o.panic
      ensures panic.None? ==> groups == old(groups)
      ensures Valid()
      decreases body, 2
    {
      groups := groups + [Group(pattern, handlers)];
      panic := RunBody(body);
      if panic.Some? {
        return;
      }
      groups := groups[..|groups| - 1];
      assert groups == old(groups);
    }

    /** One call of a group body. */
    method RunOne(a: Action) returns (panic: Option<string>)
      requires Valid()
      modifies this, trees
      ensures roots == old(roots) && namedNodes == old(namedNodes)
      ensures autoHead == old(autoHead) && autoTrailingSlash == old(autoTrailingSlash)
      ensures var o := Run(old(trees.nodes), roots, old(groups), autoHead, autoTrailingSlash, [a], eng);
              trees.nodes == o.nodes && groups == o.groups && panic == o.panic
      ensures Valid()
      decreases a, 0
    {
      if a.Handle? {
        assert [a][0] == a && [a][1..] == [];
        var r := Add(a.verb, a.pattern, a.handlers);
        panic := if r.Panic? then Some(r.msg) else None;
      } else {
        panic := GroupAdd(a.pattern, a.body, a.handlers);
      }
    }

    /** The calls of a group body, in order, until one panics. */
    method RunBody(actions: seq<Action>) returns (panic: Option<string>)
      requires Valid()
      modifies this, trees
      ensures roots == old(roots) && namedNodes == old(namedNodes)
      ensures autoHead == old(autoHead) && autoTrailingSlash == old(autoTrailingSlash)
      ensures var o := Run(old(trees.nodes), roots, old(groups), autoHead, autoTrailingSlash, actions, eng);
              trees.nodes == o.nodes && groups == o.groups && panic == o.panic
      ensures Valid()
      decreases actions, 1
    {
      var i := 0;
      while i < |actions|
        invariant 0 <= i <= |actions|
        invariant Valid() && groups == old(groups)
        invariant roots == old(roots) && namedNodes == old(namedNodes)
        invariant autoHead == old(autoHead) && autoTrailingSlash == old(autoTrailingSlash)
        invariant Run(trees.nodes, roots, groups, autoHead, autoTrailingSlash, actions[i..], eng)
               == Run(old(trees.nodes), roots, old(groups), autoHead, autoTrailingSlash, actions, eng)
      {
        RunFirst(trees.nodes, roots, groups, autoHead, autoTrailingSlash, actions[i..], eng);
        assert actions[i..][0] == actions[i] && actions[i..][1..] == actions[i + 1..];
        panic := RunOne(actions[i]);
        if panic.Some? {
          return;
        }
        i := i + 1;
      }
      return None;
    }
  }

  /** A path made of `/` and bytes other than `%` prints as itself. */
  lemma PlainPrint(s: string)
    requires forall k :: 0 <= k < |s| ==> s[k] != '%'
    ensures Sprintf("/" + s + VerbRun(0), []) == "/" + s
  {
    assert '%' !in "/" + s by {
      assert forall c :: c in "/" + s ==> c == '/' || c in s;
    }
    NoPercent("/" + s);
    assert "/" + s + VerbRun(0) == "/" + s;
    assert Leftover([], 0) == "";
  }

  /** A static route added to a new router and named can be rebuilt by
      `URLFor` from no arguments, and is found again by `Match`. */
  method NamedStaticRoute(eng: Engine, verb: string, s: string, h: Option<seq<Handler>>, name: string, c: Contexts.Context)
    returns (url: string, found: Option<seq<Handler>>)
    requires verb in RouterMethods && s != "" && name != "" && c.Valid()
    requires forall k :: 0 <= k < |s| ==> !Special(s[k]) && s[k] != '%'
    modifies c
    ensures url == "/" + s && found == h
  {
    var r := new Router(eng);
    AddThenMatch(verb, s, h, eng);
    var n := r.Register(verb, "/" + s, h);
    r.Name(n.value, name);
    url := r.URLFor(name, []);
    PlainPrint(s);
    found := r.Match(verb, "/" + s, c);
  }
}
