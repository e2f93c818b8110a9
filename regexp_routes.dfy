/** What router/regexp/regexp.go does with its routes, as values: `add`
    checks the method and the pattern, applies the groups, translates the
    pattern into a regular expression and appends the route to the list of
    its method; `Match` walks that list in order and takes the first route
    that fits. `Add` and `GroupAdd` make `add` calls in order. The router
    class in regexp_router.dfy is proved to follow these definitions. */
module RegexpRoutes {
  import opened Common
  import opened Router
  import opened Groups
  import opened Fmt
  import opened Patterns

  /** A `*Node`: `pattern` is the translated expression (the route itself
      when it has no parameter). The compiled `re` is not stored: it is
      always compiled from `pattern + "$"`. (Its `root` is the router that
      made it.) */
  datatype Entry = Entry(hasParam: bool, pattern: string, format: string, params: seq<string>,
                         handlers: Option<seq<Handler>>)

  /** The panic of `add` in debug mode for a pattern already in the list. */
  function Duplicate(pattern: string): string
  {
    "Router.add: route already exist -> " + pattern
  }

  /** The panic of `add` for an expression the engine does not compile. */
  function CompileError(err: string): string
  {
    "Router.add: " + err
  }

  /** A route as `add` builds it: its expression starts with the `/` of the
      route, it has parameters exactly when `hasParam` is set, and without
      parameters its expression and its format are the route itself. */
  predicate EntryOk(e: Entry)
  {
    && e.pattern != "" && e.pattern[0] == '/'
    && (e.hasParam <==> e.params != [])
    && (!e.hasParam ==> e.format == e.pattern)
  }

  /** The route lists of a router: one per method, every route well built. */
  predicate Ready(tables: seq<seq<Entry>>)
  {
    && |tables| == RouteLength
    && forall k, i :: 0 <= k < |tables| && 0 <= i < |tables[k]| ==> EntryOk(tables[k][i])
  }

  /** The route lists of `New` (router/regexp/regexp.go lines 40-49): empty. */
  function Initial(): (tables: seq<seq<Entry>>)
    ensures Ready(tables)
    ensures forall k :: 0 <= k < |tables| ==> tables[k] == []
  {
    seq(RouteLength, k => [])
  }

  /** A translation without parameters is the text it was made from, and
      it has none exactly when that text holds no `:`; a translation of
      text that does not start with `:` starts with the same byte. */
  lemma {:induction false} ScanShape(p: string, i: nat)
    requires i <= |p| && RegexpScan(p, i).Ok?
    ensures var t := RegexpScan(p, i).value;
            && (t.params == [] <==> forall k :: i <= k < |p| ==> p[k] != ':')
            && (t.params == [] ==> t.regex == p[i..] && t.format == p[i..])
            && (i < |p| && p[i] != ':' ==> t.regex != [] && t.regex[0] == p[i])
    decreases |p| - i
  {
    if i < |p| {
      if p[i] == ':' {
        var s := SpecAt(p, i);
        assert RegexpScan(p, i).value.params == [s.name] + RegexpScan(p, s.next).value.params;
      } else {
        ScanShape(p, i + 1);
        var t := RegexpScan(p, i).value;
        var u := RegexpScan(p, i + 1).value;
        assert t == Concat(Byte(p[i]), u);
        if u.params == [] {
          assert p[i..] == [p[i]] + p[i + 1..];
        }
      }
    }
  }

  /** The route `add` builds from a pattern, once the groups are applied and
      the pattern is known to start with `/` (router/regexp/regexp.go lines
      179-226): the translation of the pattern, with `hasParam` set when it
      has parameters, in which case the expression must compile. */
  function Build(p: string, handlers: Option<seq<Handler>>, eng: Engine): (r: Result<Entry>)
    requires p != "" && p[0] == '/'
    ensures r.Ok? ==> EntryOk(r.value) && r.value.handlers == handlers
    ensures ':' !in p ==> r == Ok(Entry(false, p, p, [], handlers))
    ensures r.Ok? && r.value.hasParam ==> eng.compile(r.value.pattern + "$").None?
  {
    match RegexpScan(p, 0)
    case Panic(m) =>
      assert ':' in p by {
        if ':' !in p {
          NoParams(p);
        }
      }
      Panic(m)
    case Ok(t) =>
      ScanShape(p, 0);
      assert p[0..] == p;
      if t.params != [] && eng.compile(t.regex + "$").Some? then Panic(CompileError(eng.compile(t.regex + "$").value))
      else Ok(Entry(t.params != [], t.regex, t.format, t.params, handlers))
  }

  /** Some route of `list` has the expression `pattern`. */
  predicate Taken(list: seq<Entry>, pattern: string)
  {
    exists i :: 0 <= i < |list| && list[i].pattern == pattern
  }

  /** The lists after `add`, and the route or the panic. */
  datatype Added = Added(tables: seq<seq<Entry>>, res: Result<Entry>)

  /** `add(method, pattern, handlers)` (router/regexp/regexp.go lines
      144-237): an unknown method, an empty pattern and a pattern without a
      leading `/` panic (the last two once the groups are applied); so do a
      `:` without a name and an expression that does not compile; in debug
      mode a route whose expression is already in the list of its method
      panics, except "/"; otherwise the route is appended to that list. */
  function AddRoute(tables: seq<seq<Entry>>, groups: seq<Group>, verb: string, pattern: string,
                    handlers: Option<seq<Handler>>, eng: Engine, debug: bool): (a: Added)
    requires Ready(tables)
    ensures Ready(a.tables)
    ensures a.res.Panic? ==> a.tables == tables
    ensures a.res.Ok? ==>
              && verb in RouterMethods
              && a.tables == tables[RouterMethods[verb] := tables[RouterMethods[verb]] + [a.res.value]]
    ensures verb !in RouterMethods ==> a.res == Panic(Unsupported(verb))
    ensures verb in RouterMethods && Join(groups, pattern, handlers).pattern == "" ==> a.res == Panic(EmptyPattern)
    ensures var p := Join(groups, pattern, handlers).pattern;
            verb in RouterMethods && p != "" && p[0] != '/' ==> a.res == Panic(NoLeadingSlash)
    ensures a.res.Ok? ==>
              var r := Join(groups, pattern, handlers);
              r.pattern != "" && r.pattern[0] == '/' && Build(r.pattern, r.handlers, eng) == a.res
  {
    if verb !in RouterMethods then Added(tables, Panic(Unsupported(verb)))
    else
      var r := Join(groups, pattern, handlers);
      if r.pattern == "" then Added(tables, Panic(EmptyPattern))
      else if r.pattern[0] != '/' then Added(tables, Panic(NoLeadingSlash))
      else
        match Build(r.pattern, r.handlers, eng)
        case Panic(m) => Added(tables, Panic(m))
        case Ok(e) =>
          var k := RouterMethods[verb];
          if debug && e.pattern != "/" && Taken(tables[k], e.pattern) then Added(tables, Panic(Duplicate(e.pattern)))
          else Added(tables[k := tables[k] + [e]], Ok(e))
  }

  /** No two routes of a list share an expression, except "/". */
  predicate Distinct(list: seq<Entry>)
  {
    forall i, j :: 0 <= i < j < |list| && list[i].pattern == list[j].pattern ==> list[i].pattern == "/"
  }

  /** In debug mode `add` keeps every list free of repeated routes, and it
      rejects exactly the routes whose expression is taken (other than "/"). */
  lemma DebugDistinct(tables: seq<seq<Entry>>, groups: seq<Group>, verb: string, pattern: string,
                      handlers: Option<seq<Handler>>, eng: Engine)
    requires Ready(tables) && forall k :: 0 <= k < |tables| ==> Distinct(tables[k])
    ensures var a := AddRoute(tables, groups, verb, pattern, handlers, eng, true);
            forall k :: 0 <= k < |a.tables| ==> Distinct(a.tables[k])
    ensures var a := AddRoute(tables, groups, verb, pattern, handlers, eng, false);
            var b := AddRoute(tables, groups, verb, pattern, handlers, eng, true);
            a.res.Ok? ==> (b.res.Ok? <==> a.res.value.pattern == "/" || !Taken(tables[RouterMethods[verb]], a.res.value.pattern))
  {
    var a := AddRoute(tables, groups, verb, pattern, handlers, eng, true);
    if a.res.Ok? {
      var k := RouterMethods[verb];
      var e := a.res.value;
      var list := a.tables[k];
      assert list == tables[k] + [e];
      forall i, j | 0 <= i < j < |list| && list[i].pattern == list[j].pattern
        ensures list[i].pattern == "/"
      {
        if j == |list| - 1 && e.pattern != "/" {
          assert false;
        }
      }
    }
  }

  /** What `Match` returns (nil as `None`) and the parameters it binds. */
  datatype Matched = Matched(route: Option<Entry>, binds: seq<Bind>)

  /** The parameters route `e` binds for `uri`, if it fits: a route without
      parameters fits only its own path; a route with parameters fits when
      its expression, searched in `uri`, yields one submatch per parameter.
      A fit binds the route's parameters, in order. */
  function Fit(e: Entry, uri: string, eng: Engine): (r: Option<seq<Bind>>)
    ensures e.hasParam && r.Some? ==> BindNames(r.value) == e.params
    ensures !e.hasParam ==> (r.Some? <==> e.pattern == uri) && (r.Some? ==> r.value == [])
  {
    if !e.hasParam then (if e.pattern == uri then Some([]) else None)
    else
      var data := eng.find(e.pattern + "$", uri);
      if |data| == |e.params| + 1 then Some(Zip(e.params, data[1..])) else None
  }

  /** The loop of `Match` (router/regexp/regexp.go lines 80-96) from
      position `i` of the list: a route found is one of the list from `i`
      on that fits, with the parameters it binds; nothing found binds
      nothing. */
  function MatchFrom(list: seq<Entry>, i: nat, uri: string, eng: Engine): (m: Matched)
    requires i <= |list|
    ensures m.route.Some? ==> m.route.value in list[i..] && Fit(m.route.value, uri, eng) == Some(m.binds)
    ensures m.route.None? ==> m.binds == []
    decreases |list| - i
  {
    if i == |list| then Matched(None, [])
    else
      match Fit(list[i], uri, eng)
      case Some(bs) => Matched(Some(list[i]), bs)
      case None => MatchFrom(list, i + 1, uri, eng)
  }

  /** `Match(method, uri, c)`: the list of the method (an unknown method
      reads the GET list, as Go's map lookup does). A route found is one
      of the list of the method that fits, with the parameters it binds. */
  function MatchSpec(tables: seq<seq<Entry>>, verb: string, uri: string, eng: Engine): (m: Matched)
    requires |tables| == RouteLength
    ensures m.route.Some? ==> m.route.value in tables[MethodIndex(verb)] && Fit(m.route.value, uri, eng) == Some(m.binds)
    ensures m.route.None? ==> m.binds == []
  {
    MatchFrom(tables[MethodIndex(verb)], 0, uri, eng)
  }

  /** `Match` gives the first route of the list that fits, with the
      parameters that route binds, and nothing at all when none fits. */
  lemma {:induction false} FirstFit(list: seq<Entry>, i: nat, uri: string, eng: Engine)
    requires i <= |list|
    ensures var m := MatchFrom(list, i, uri, eng);
            && (m.route.None? <==> forall j :: i <= j < |list| ==> Fit(list[j], uri, eng).None?)
            && (m.route.None? ==> m.binds == [])
            && (m.route.Some? ==>
                  exists j :: && i <= j < |list| && list[j] == m.route.value
                              && Fit(list[j], uri, eng) == Some(m.binds)
                              && forall q :: i <= q < j ==> Fit(list[q], uri, eng).None?)
    decreases |list| - i
  {
    if i < |list| && Fit(list[i], uri, eng).None? {
      FirstFit(list, i + 1, uri, eng);
      var m := MatchFrom(list, i, uri, eng);
      if m.route.Some? {
        var j :| && i + 1 <= j < |list| && list[j] == m.route.value
                 && Fit(list[j], uri, eng) == Some(m.binds)
                 && forall q :: i + 1 <= q < j ==> Fit(list[q], uri, eng).None?;
        assert forall q :: i <= q < j ==> Fit(list[q], uri, eng).None?;
      }
    }
  }

  /** A route appended to a list takes over exactly the paths that no
      route before it fits: `Match` on the longer list is `Match` on the
      old one when that finds a route, and otherwise what the new route
      binds, if it fits. */
  lemma {:induction false} MatchAppend(list: seq<Entry>, e: Entry, i: nat, uri: string, eng: Engine)
    requires i <= |list|
    ensures var m := MatchFrom(list, i, uri, eng);
            MatchFrom(list + [e], i, uri, eng)
              == if m.route.Some? then m
                 else match Fit(e, uri, eng)
                      case Some(bs) => Matched(Some(e), bs)
                      case None => Matched(None, [])
    decreases |list| - i
  {
    var l := list + [e];
    if i < |list| {
      assert l[i] == list[i];
      MatchAppend(list, e, i + 1, uri, eng);
    } else {
      assert l[i] == e;
      assert MatchFrom(l, i + 1, uri, eng) == Matched(None, []);
    }
  }

  /** `add` followed by `Match` on the same method: a path some older route
      fits still goes to that route, and a path none fits goes to the new
      route when it fits (a route without parameters always fits its own
      path). */
  lemma AddThenMatch(tables: seq<seq<Entry>>, groups: seq<Group>, verb: string, pattern: string,
                     handlers: Option<seq<Handler>>, eng: Engine, debug: bool, uri: string)
    requires Ready(tables)
    requires AddRoute(tables, groups, verb, pattern, handlers, eng, debug).res.Ok?
    ensures var a := AddRoute(tables, groups, verb, pattern, handlers, eng, debug);
            var e := a.res.value;
            var m := MatchSpec(tables, verb, uri, eng);
            && (m.route.Some? ==> MatchSpec(a.tables, verb, uri, eng) == m)
            && (m.route.None? && Fit(e, uri, eng).Some? ==>
                  MatchSpec(a.tables, verb, uri, eng) == Matched(Some(e), Fit(e, uri, eng).value))
            && (!e.hasParam ==> Fit(e, e.pattern, eng) == Some([]))
  {
    var a := AddRoute(tables, groups, verb, pattern, handlers, eng, debug);
    var k := RouterMethods[verb];
    RouterMethodsTable();
    assert MethodIndex(verb) == k;
    MatchAppend(tables[k], a.res.value, 0, uri, eng);
  }

  /** A static route added to a new router is found again at its own
      path, binding nothing. */
  lemma NewAddThenMatch(verb: string, s: string, h: Option<seq<Handler>>, eng: Engine, debug: bool)
    requires verb in RouterMethods && ':' !in s
    ensures var a := AddRoute(Initial(), [], verb, "/" + s, h, eng, debug);
            && a.res == Ok(Entry(false, "/" + s, "/" + s, [], h))
            && MatchSpec(a.tables, verb, "/" + s, eng) == Matched(Some(a.res.value), [])
  {
    var p := "/" + s;
    assert forall k :: 0 <= k < |p| ==> p[k] != ':' by {
      forall k | 0 <= k < |p| ensures p[k] != ':' {
        if k > 0 { assert p[k] == s[k - 1]; }
      }
    }
    assert ':' !in p;
    assert Join([], p, h) == Route(p, h);
    var a := AddRoute(Initial(), [], verb, p, h, eng, debug);
    var k := RouterMethods[verb];
    assert !Taken(Initial()[k], p);
    RouterMethodsTable();
    assert MethodIndex(verb) == k;
    assert a.tables[k] == [Entry(false, p, p, [], h)];
  }

  /** `add` applied to each call in turn, stopping at the first panic; the
      result is that of the last call. */
  function AddAll(tables: seq<seq<Entry>>, groups: seq<Group>, regs: seq<Reg>,
                  handlers: Option<seq<Handler>>, eng: Engine, debug: bool): (a: Added)
    requires Ready(tables) && regs != []
    ensures Ready(a.tables)
    decreases |regs|
  {
    var a := AddRoute(tables, groups, regs[0].verb, regs[0].pattern, handlers, eng, debug);
    if |regs| == 1 || a.res.Panic? then a
    else AddAll(a.tables, groups, regs[1..], handlers, eng, debug)
  }

  /** `Add` as router/regexp/regexp.go writes it (lines 118-129):
      identical to `AddAll` of the `Registrations` except that an empty
      pattern inside a group, with the trailing-slash option, indexes
      `pattern[-1]` (after the HEAD copy, if any, was added). */
  function AddAsWritten(tables: seq<seq<Entry>>, groups: seq<Group>, verb: string, pattern: string,
                        handlers: Option<seq<Handler>>, eng: Engine, debug: bool,
                        autoHead: bool, autoTrailingSlash: bool): (a: Added)
    requires Ready(tables)
  {
    if autoTrailingSlash && (|pattern| > 1 || groups != []) && pattern == "" then
      if verb == "GET" && autoHead then
        var h := AddRoute(tables, groups, "HEAD", pattern, handlers, eng, debug);
        if h.res.Panic? then h else Added(h.tables, Panic(IndexNegative))
      else Added(tables, Panic(IndexNegative))
    else AddAll(tables, groups, Registrations(verb, pattern, autoHead, autoTrailingSlash, groups != []), handlers, eng, debug)
  }

  /** The empty route of a group cannot be added with the trailing-slash
      option as router/regexp/regexp.go is written: it panics with an index
      out of range and leaves the routes as they were. */
  lemma EmptyGroupRoutePanics(tables: seq<seq<Entry>>, groups: seq<Group>, verb: string,
                              handlers: Option<seq<Handler>>, eng: Engine, debug: bool)
    requires Ready(tables) && groups != [] && verb != "GET"
    ensures var a := AddAsWritten(tables, groups, verb, "", handlers, eng, debug, false, true);
            a.res == Panic(IndexNegative) && a.tables == tables
  {
  }

  /** `AddAll` of one call is that call. */
  lemma AddAllOne(tables: seq<seq<Entry>>, groups: seq<Group>, regs: seq<Reg>,
                  handlers: Option<seq<Handler>>, eng: Engine, debug: bool)
    requires Ready(tables) && |regs| == 1
    ensures AddAll(tables, groups, regs, handlers, eng, debug)
              == AddRoute(tables, groups, regs[0].verb, regs[0].pattern, handlers, eng, debug)
  {
  }

  /** `AddAll` of two calls of the same method. */
  lemma AddTwo(tables: seq<seq<Entry>>, groups: seq<Group>, verb: string, first: string, second: string,
               handlers: Option<seq<Handler>>, eng: Engine, debug: bool)
    requires Ready(tables)
    ensures var a := AddRoute(tables, groups, verb, first, handlers, eng, debug);
            AddAll(tables, groups, [Reg(verb, first), Reg(verb, second)], handlers, eng, debug)
              == if a.res.Panic? then a else AddRoute(a.tables, groups, verb, second, handlers, eng, debug)
  {
    AddAllFirst(tables, groups, [Reg(verb, first), Reg(verb, second)], handlers, eng, debug);
    var a := AddRoute(tables, groups, verb, first, handlers, eng, debug);
    assert [Reg(verb, first), Reg(verb, second)][1..] == [Reg(verb, second)];
    AddAllOne(a.tables, groups, [Reg(verb, second)], handlers, eng, debug);
  }

  /** `AddAll` makes the first call and, unless it panicked, the rest. */
  lemma AddAllFirst(tables: seq<seq<Entry>>, groups: seq<Group>, regs: seq<Reg>,
                    handlers: Option<seq<Handler>>, eng: Engine, debug: bool)
    requires Ready(tables) && |regs| > 1
    ensures var a := AddRoute(tables, groups, regs[0].verb, regs[0].pattern, handlers, eng, debug);
            AddAll(tables, groups, regs, handlers, eng, debug)
              == if a.res.Panic? then a else AddAll(a.tables, groups, regs[1..], handlers, eng, debug)
  {
  }

  /** The calls of `add` only ever append: every list keeps its routes, in
      order, at its front. */
  lemma {:induction false} AddAllAppends(tables: seq<seq<Entry>>, groups: seq<Group>, regs: seq<Reg>,
                                         handlers: Option<seq<Handler>>, eng: Engine, debug: bool)
    requires Ready(tables) && regs != []
    ensures var a := AddAll(tables, groups, regs, handlers, eng, debug);
            forall k :: 0 <= k < |tables| ==> |tables[k]| <= |a.tables[k]| && a.tables[k][..|tables[k]|] == tables[k]
    decreases |regs|
  {
    var a := AddRoute(tables, groups, regs[0].verb, regs[0].pattern, handlers, eng, debug);
    forall k | 0 <= k < |tables|
      ensures |tables[k]| <= |a.tables[k]| && a.tables[k][..|tables[k]|] == tables[k]
    {
      if a.res.Ok? && k == RouterMethods[regs[0].verb] {
        assert a.tables[k] == tables[k] + [a.res.value];
      }
    }
    if |regs| > 1 && a.res.Ok? {
      AddAllAppends(a.tables, groups, regs[1..], handlers, eng, debug);
      var b := AddAll(a.tables, groups, regs[1..], handlers, eng, debug);
      forall k | 0 <= k < |tables|
        ensures |tables[k]| <= |b.tables[k]| && b.tables[k][..|tables[k]|] == tables[k]
      {
        assert b.tables[k][..|a.tables[k]|] == a.tables[k];
        assert b.tables[k][..|tables[k]|] == b.tables[k][..|a.tables[k]|][..|tables[k]|];
      }
    }
  }

  /** The state after running calls: the route lists, the group stack, and
      the panic that stopped them, if any. */
  datatype Outcome = Outcome(tables: seq<seq<Entry>>, groups: seq<Group>, panic: Option<string>)

  /** Runs `actions` in order under the group stack `groups`: `Handle` is
      `Add`, `Nest` is `GroupAdd` (router/regexp/regexp.go lines 132-141),
      which pushes its group, runs its body and pops the group again. A
      panic stops everything, leaving the groups pushed so far on the
      stack (Go pops without `defer`). */
  function Run(tables: seq<seq<Entry>>, groups: seq<Group>, autoHead: bool, autoTrailingSlash: bool,
               actions: seq<Action>, eng: Engine, debug: bool): (o: Outcome)
    requires Ready(tables)
    ensures Ready(o.tables)
    ensures o.panic.None? ==> o.groups == groups
    ensures o.panic.Some? ==> |groups| <= |o.groups| && o.groups[..|groups|] == groups
    decreases actions
  {
    if actions == [] then Outcome(tables, groups, None)
    else
      match actions[0]
      case Handle(v, p, h) =>
        var a := AddAll(tables, groups, Registrations(v, p, autoHead, autoTrailingSlash, groups != []), h, eng, debug);
        if a.res.Panic? then Outcome(a.tables, groups, Some(a.res.msg))
        else Run(a.tables, groups, autoHead, autoTrailingSlash, actions[1..], eng, debug)
      case Nest(p, h, body) =>
        var o := Run(tables, groups + [Group(p, h)], autoHead, autoTrailingSlash, body, eng, debug);
        if o.panic.Some? then
          assert (groups + [Group(p, h)])[..|groups|] == groups;
          Outcome(o.tables, o.groups, o.panic)
        else Run(o.tables, groups, autoHead, autoTrailingSlash, actions[1..], eng, debug)
  }

  /** Running a sequence of calls is running the first one and then, unless
      it panicked, the rest from the state it left. */
  lemma RunFirst(tables: seq<seq<Entry>>, groups: seq<Group>, autoHead: bool, autoTrailingSlash: bool,
                 actions: seq<Action>, eng: Engine, debug: bool)
    requires Ready(tables) && actions != []
    ensures var o := Run(tables, groups, autoHead, autoTrailingSlash, [actions[0]], eng, debug);
            Run(tables, groups, autoHead, autoTrailingSlash, actions, eng, debug)
              == if o.panic.Some? then o else Run(o.tables, groups, autoHead, autoTrailingSlash, actions[1..], eng, debug)
  {
    assert [actions[0]][0] == actions[0] && [actions[0]][1..] == [];
  }
}
