/** The router of router/regexp/regexp.go: one list of routes per method,
    tried in the order they were added, the group stack and the named
    routes. Each method is proved to do what `RegexpRoutes` says. */
module RegexpRouter {
  import opened Common
  import opened Methods = Router
  import opened Groups
  import opened Fmt
  import opened Patterns
  import opened RegexpRoutes
  import Contexts

  class Router {
    var autoHead: bool
    var autoTrailingSlash: bool
    /** The active groups of `GroupAdd`, outermost first. */
    var groups: seq<Group>
    /** The routes of each method, by slot, in the order they were added. */
    var nodes: seq<seq<Entry>>
    /** The named routes. */
    var namedNodes: map<string, Entry>
    /** The regular expression engine of the process. */
    const eng: Engine
    /** The debug flag of the application the router belongs to. */
    const debug: bool

    /** The route lists are ready (`RegexpRoutes.Ready`) and every named
        route is one `add` built. */
    ghost predicate Valid()
      reads this
    {
      && Ready(nodes)
      && forall name :: name in namedNodes ==> EntryOk(namedNodes[name])
    }

    /** `New(b)` (router/regexp/regexp.go lines 40-49): an empty list per
        method, no groups, and an empty map of names. */
    constructor (eng: Engine, debug: bool)
      ensures Valid()
      ensures nodes == Initial() && namedNodes == map[] && groups == []
      ensures !autoHead && !autoTrailingSlash
      ensures this.eng == eng && this.debug == debug
    {
      autoHead := false;
      autoTrailingSlash := false;
      namedNodes := map[];
      groups := [];
      this.eng := eng;
      this.debug := debug;
      nodes := [];
      new;
      var i := 0;
      while i < RouteLength
        invariant 0 <= i <= RouteLength
        invariant nodes == Initial()[..i]
        invariant namedNodes == map[] && groups == [] && !autoHead && !autoTrailingSlash
      {
        nodes := nodes + [[]];
        i := i + 1;
      }
      assert nodes == Initial();
    }

    /** `SetAutoHead(v)`. */
    method SetAutoHead(v: bool)
      modifies this
      ensures autoHead == v && autoTrailingSlash == old(autoTrailingSlash)
      ensures nodes == old(nodes) && groups == old(groups) && namedNodes == old(namedNodes)
    {
      autoHead := v;
    }

    /** `SetAutoTrailingSlash(v)`. */
    method SetAutoTrailingSlash(v: bool)
      modifies this
      ensures autoTrailingSlash == v && autoHead == old(autoHead)
      ensures nodes == old(nodes) && groups == old(groups) && namedNodes == old(namedNodes)
    {
      autoTrailingSlash := v;
    }

    /** `Match(method, uri, c)` (router/regexp/regexp.go lines 79-97): the
        first route of the method that fits, its parameters bound in `c`. */
    method Match(verb: string, uri: string, c: Contexts.Context) returns (n: Option<Entry>)
      requires |nodes| == RouteLength && c.Valid()
      modifies c
      ensures var m := MatchSpec(nodes, verb, uri, eng);
              && n == m.route
              && c.pNames == old(c.pNames) + BindNames(m.binds)
              && c.pValues == old(c.pValues) + BindValues(m.binds)
      ensures c.Valid()
      ensures c.store == old(c.store) && c.handlers == old(c.handlers) && c.hi == old(c.hi)
      ensures c.req == old(c.req) && c.resp == old(c.resp) && c.logged == old(c.logged)
    {
      var list := nodes[MethodIndex(verb)];
      var i := 0;
      while i < |list|
        invariant i <= |list|
        invariant MatchFrom(list, i, uri, eng) == MatchFrom(list, 0, uri, eng)
        invariant c.pNames == old(c.pNames) && c.pValues == old(c.pValues)
      {
        var e := list[i];
        if !e.hasParam {
          if e.pattern == uri {
            assert BindNames([]) == [] && BindValues([]) == [];
            return Some(e);
          }
        } else {
          var data := eng.find(e.pattern + "$", uri);
          if |data| == |e.params| + 1 {
            BindParams(e.params, data[1..], c);
            return Some(e);
          }
        }
        i := i + 1;
      }
      assert BindNames([]) == [] && BindValues([]) == [];
      return None;
    }

    /** The loop of `Match` that binds the submatches to the names of the
        route's parameters, in order. */
    static method BindParams(names: seq<string>, values: seq<string>, c: Contexts.Context)
      requires |names| == |values| && c.Valid()
      modifies c
      ensures c.pNames == old(c.pNames) + BindNames(Zip(names, values))
      ensures c.pValues == old(c.pValues) + BindValues(Zip(names, values))
      ensures c.Valid()
      ensures c.store == old(c.store) && c.handlers == old(c.handlers) && c.hi == old(c.hi)
      ensures c.req == old(c.req) && c.resp == old(c.resp) && c.logged == old(c.logged)
    {
      var i := 0;
      while i < |names|
        invariant 0 <= i <= |names| && c.Valid()
        invariant c.pNames == old(c.pNames) + names[..i] && c.pValues == old(c.pValues) + values[..i]
        invariant c.store == old(c.store) && c.handlers == old(c.handlers) && c.hi == old(c.hi)
        invariant c.req == old(c.req) && c.resp == old(c.resp) && c.logged == old(c.logged)
      {
        assert names[..i + 1] == names[..i] + [names[i]];
        assert values[..i + 1] == values[..i] + [values[i]];
        c.SetParam(names[i], values[i]);
        i := i + 1;
      }
      assert names[..i] == names && values[..i] == values;
    }

    /** `URLFor(name, args...)` (router/regexp/regexp.go lines 100-114): ""
        for an empty or unknown name or an empty format; otherwise the
        format, with one more `%v` for each argument beyond the route's
        parameters, filled with the arguments. A named route without
        parameters and without `%` gives back its own path followed by the
        arguments. */
    method URLFor(name: string, args: seq<Arg>) returns (url: string)
      requires Valid()
      ensures name == "" || name !in namedNodes || namedNodes[name].format == "" ==> url == ""
      ensures name != "" && name in namedNodes && namedNodes[name].format != "" ==>
                var n := namedNodes[name];
                url == Sprintf(n.format + VerbRun(PadCount(|n.params|, |args|)), args)
      ensures name != "" && name in namedNodes && namedNodes[name].format != "" ==>
                var n := namedNodes[name];
                Verbs(n.format) == |n.params| <= |args| && n.format[|n.format| - 1] != '%' ==>
                  url == Body(n.format, args, 0) + Texts(args[|n.params|..])
      ensures name != "" && name in namedNodes && !namedNodes[name].hasParam && '%' !in namedNodes[name].pattern ==>
                url == namedNodes[name].pattern + Texts(args)
    {
      if name == "" {
        return "";
      }
      if name !in namedNodes {
        return "";
      }
      var node := namedNodes[name];
      assert EntryOk(node);
      if |node.format| == 0 {
        return "";
      }
      var format := PadVerbs(node.format, |node.params|, |args|);
      url := Sprintf(format, args);
      if !node.hasParam && '%' !in node.pattern {
        NoPercent(node.format);
        PaddedPrint(node.format, 0, args);
        NoVerbs(node.format, args, 0);
        assert args[0..] == args;
      }
      if Verbs(node.format) == |node.params| <= |args| && node.format[|node.format| - 1] != '%' {
        PaddedPrint(node.format, |node.params|, args);
      }
    }

    /** `n.Name(name)` (router/regexp/regexp.go lines 245-250) for a route
        `n` that `add` returned: records it under `name`, replacing any
        route of that name; an empty name records nothing. */
    method Name(n: Entry, name: string)
      requires Valid() && EntryOk(n)
      modifies this
      ensures name == "" ==> namedNodes == old(namedNodes)
      ensures name != "" ==> namedNodes == old(namedNodes)[name := n]
      ensures nodes == old(nodes) && groups == old(groups)
      ensures autoHead == old(autoHead) && autoTrailingSlash == old(autoTrailingSlash)
      ensures Valid()
    {
      if name == "" {
        return;
      }
      namedNodes := namedNodes[name := n];
    }

    /** `add(method, pattern, handlers)` (router/regexp/regexp.go lines
        144-237). */
    method Register(verb: string, pattern: string, handlers: Option<seq<Handler>>) returns (r: Result<Entry>)
      requires Valid()
      modifies this
      ensures groups == old(groups) && namedNodes == old(namedNodes)
      ensures autoHead == old(autoHead) && autoTrailingSlash == old(autoTrailingSlash)
      ensures var a := AddRoute(old(nodes), groups, verb, pattern, handlers, eng, debug);
              nodes == a.tables && r == a.res
      ensures Valid()
    {
      if verb !in RouterMethods {
        return Panic(Unsupported(verb));
      }
      var route := Combine(groups, pattern, handlers);
      var p := route.pattern;
      if p == "" {
        return Panic(EmptyPattern);
      }
      if p[0] != '/' {
        return Panic(NoLeadingSlash);
      }
      var built := BuildEntry(p, route.handlers);
      if built.Panic? {
        return built;
      }
      var e := built.value;
      var k := RouterMethods[verb];
      if debug && e.pattern != "/" {
        var taken := Seen(nodes[k], e.pattern);
        if taken {
          return Panic(Duplicate(e.pattern));
        }
      }
      nodes := nodes[k := nodes[k] + [e]];
      return Ok(e);
    }

    /** The middle of `add` (router/regexp/regexp.go lines 179-226): the
        translation of the pattern, and the compilation of the expression
        of a route with parameters. */
    method BuildEntry(p: string, handlers: Option<seq<Handler>>) returns (r: Result<Entry>)
      requires p != "" && p[0] == '/'
      ensures r == Build(p, handlers, eng)
    {
      var scan := ScanRegexp(p);
      if scan.Panic? {
        return Panic(scan.msg);
      }
      var t := scan.value;
      var hasParam := t.params != [];
      if hasParam {
        var err := eng.compile(t.regex + "$");
        if err.Some? {
          return Panic(CompileError(err.value));
        }
      }
      return Ok(Entry(hasParam, t.regex, t.format, t.params, handlers));
    }

    /** The debug-mode loop of `add` (router/regexp/regexp.go lines
        228-234): whether some route of `list` has the expression
        `pattern`. */
    static method Seen(list: seq<Entry>, pattern: string) returns (taken: bool)
      ensures taken == Taken(list, pattern)
    {
      var i := 0;
      while i < |list|
        invariant i <= |list|
        invariant forall j :: 0 <= j < i ==> list[j].pattern != pattern
      {
        if list[i].pattern == pattern {
          return true;
        }
        i := i + 1;
      }
      return false;
    }

    /** `Add(method, pattern, handlers)` (router/regexp/regexp.go lines
        118-129): the HEAD copy, the trailing-slash variant and the route
        itself, as `Registrations` lists them (with the empty group route
        read as "no trailing slash to strip"). */
    method Add(verb: string, pattern: string, handlers: Option<seq<Handler>>) returns (r: Result<Entry>)
      requires Valid()
      modifies this
      ensures groups == old(groups) && namedNodes == old(namedNodes)
      ensures autoHead == old(autoHead) && autoTrailingSlash == old(autoTrailingSlash)
      ensures var a := AddAll(old(nodes), groups, Registrations(verb, pattern, autoHead, autoTrailingSlash, groups != []),
                              handlers, eng, debug);
              nodes == a.tables && r == a.res
      ensures Valid()
    {
      ghost var regs := Registrations(verb, pattern, autoHead, autoTrailingSlash, groups != []);
      if verb == "GET" && autoHead {
        r := Register("HEAD", pattern, handlers);
        if r.Panic? {
          return;
        }
        AddAllFirst(old(nodes), groups, regs, handlers, eng, debug);
        assert regs[1..] == Registrations(verb, pattern, false, autoTrailingSlash, groups != []);
      }
      r := AddVariants(verb, pattern, handlers);
    }

    /** The part of `Add` after the HEAD copy: the trailing-slash variant,
        if any, and the route itself. */
    method AddVariants(verb: string, pattern: string, handlers: Option<seq<Handler>>) returns (r: Result<Entry>)
      requires Valid()
      modifies this
      ensures groups == old(groups) && namedNodes == old(namedNodes)
      ensures autoHead == old(autoHead) && autoTrailingSlash == old(autoTrailingSlash)
      ensures var a := AddAll(old(nodes), groups, Registrations(verb, pattern, false, autoTrailingSlash, groups != []),
                              handlers, eng, debug);
              nodes == a.tables && r == a.res
      ensures Valid()
    {
      Variants(verb, pattern, autoTrailingSlash, groups != []);
      var p := pattern;
      if autoTrailingSlash && (|p| > 1 || |groups| > 0) {
        if p != "" && p[|p| - 1] == '/' {
          p := p[..|p| - 1];
        }
        assert p == Unslashed(pattern);
        r := AddPair(verb, p, handlers);
      } else {
        AddAllOne(nodes, groups, [Reg(verb, p)], handlers, eng, debug);
        r := Register(verb, p, handlers);
      }
    }

    /** The two calls of `add` the trailing-slash option makes: `p + "/"`,
        then `p` unless the first panicked. */
    method AddPair(verb: string, p: string, handlers: Option<seq<Handler>>) returns (r: Result<Entry>)
      requires Valid()
      modifies this
      ensures groups == old(groups) && namedNodes == old(namedNodes)
      ensures autoHead == old(autoHead) && autoTrailingSlash == old(autoTrailingSlash)
      ensures var a := AddAll(old(nodes), groups, [Reg(verb, p + "/"), Reg(verb, p)], handlers, eng, debug);
              nodes == a.tables && r == a.res
      ensures Valid()
    {
      AddTwo(nodes, groups, verb, p + "/", p, handlers, eng, debug);
      r := Register(verb, p + "/", handlers);
      if r.Panic? {
        return;
      }
      r := Register(verb, p, handlers);
    }

    /** `GroupAdd(pattern, f, handlers)` (router/regexp/regexp.go lines
        132-141), with the calls `f` makes given as `body`: pushes the
        group, runs the body, pops the group. */
    method GroupAdd(pattern: string, body: seq<Action>, handlers: Option<seq<Handler>>)
      returns (panic: Option<string>)
      requires Valid()
      modifies this
      ensures namedNodes == old(namedNodes)
      ensures autoHead == old(autoHead) && autoTrailingSlash == old(autoTrailingSlash)
      ensures var o := Run(old(nodes), old(groups), autoHead, autoTrailingSlash,
                           [Nest(pattern, handlers, body)], eng, debug);
              nodes == o.tables && groups == o.groups && panic == o.panic
      ensures panic.None? ==> groups == old(groups)
      ensures Valid()
      decreases body, 2
    {
      groups := groups + [Group(pattern, handlers)];
      panic := RunBody(body);
      if panic.Some? {
        return;
      }
      groups := groups[..|groups| - 1];
      assert groups == old(groups);
    }

    /** One call of a group body. */
    method RunOne(a: Action) returns (panic: Option<string>)
      requires Valid()
      modifies this
      ensures namedNodes == old(namedNodes)
      ensures autoHead == old(autoHead) && autoTrailingSlash == old(autoTrailingSlash)
      ensures var o := Run(old(nodes), old(groups), autoHead, autoTrailingSlash, [a], eng, debug);
              nodes == o.tables && groups == o.groups && panic == o.panic
      ensures Valid()
      decreases a, 0
    {
      if a.Handle? {
        assert [a][0] == a && [a][1..] == [];
        var r := Add(a.verb, a.pattern, a.handlers);
        panic := if r.Panic? then Some(r.msg) else None;
      } else {
        panic := GroupAdd(a.pattern, a.body, a.handlers);
      }
    }

    /** The calls of a group body, in order, until one panics. */
    method RunBody(actions: seq<Action>) returns (panic: Option<string>)
      requires Valid()
      modifies this
      ensures namedNodes == old(namedNodes)
      ensures autoHead == old(autoHead) && autoTrailingSlash == old(autoTrailingSlash)
      ensures var o := Run(old(nodes), old(groups), autoHead, autoTrailingSlash, actions, eng, debug);
              nodes == o.tables && groups == o.groups && panic == o.panic
      ensures Valid()
      decreases actions, 1
    {
      var i := 0;
      while i < |actions|
        invariant 0 <= i <= |actions|
        invariant Valid() && groups == old(groups) && namedNodes == old(namedNodes)
        invariant autoHead == old(autoHead) && autoTrailingSlash == old(autoTrailingSlash)
        invariant Run(nodes, groups, autoHead, autoTrailingSlash, actions[i..], eng, debug)
               == Run(old(nodes), old(groups), autoHead, autoTrailingSlash, actions, eng, debug)
      {
        RunFirst(nodes, groups, autoHead, autoTrailingSlash, actions[i..], eng, debug);
        assert actions[i..][0] == actions[i] && actions[i..][1..] == actions[i + 1..];
        panic := RunOne(actions[i]);
        if panic.Some? {
          return;
        }
        i := i + 1;
      }
      assert actions[i..] == [];
      panic := None;
    }
  }
}
