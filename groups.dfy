/** The group stack every router keeps for `GroupAdd`, the way `add`
    applies it to a route (the group patterns, in stack order, are put in
    front of the pattern, and the group handlers, in stack order, in front
    of the handlers), and the calls of `add` that the public `Add` makes.
    tree.go, router/regtree/router.go and router/regexp/regexp.go share
    this code word for word. */
module Groups {
  import opened Common

  /** A `group`: a pattern prefix and the handlers its routes start with. */
  datatype Group = Group(pattern: string, handlers: Option<seq<Handler>>)

  /** The handlers of a Go slice, `nil` read as empty. */
  function Flat(h: Option<seq<Handler>>): seq<Handler>
  {
    if h.Some? then h.value else []
  }

  /** The group patterns, concatenated in stack order. */
  function Prefix(groups: seq<Group>): string
  {
    if groups == [] then "" else Prefix(groups[..|groups| - 1]) + groups[|groups| - 1].pattern
  }

  /** The group handlers, concatenated in stack order. */
  function Chain(groups: seq<Group>): seq<Handler>
  {
    if groups == [] then [] else Chain(groups[..|groups| - 1]) + Flat(groups[|groups| - 1].handlers)
  }

  /** A route as `add` stores it once the groups are applied. */
  datatype Route = Route(pattern: string, handlers: Option<seq<Handler>>)

  /** What `add` makes of `pattern` and `handlers` under `groups`: unchanged
      when no group is active; otherwise the prefixed pattern, and the
      prefixed handlers, which are `nil` when no handler at all is left
      (Go's `append` onto a nil slice of nothing stays nil). */
  function Join(groups: seq<Group>, pattern: string, handlers: Option<seq<Handler>>): Route
  {
    if groups == [] then Route(pattern, handlers)
    else
      var all := Chain(groups) + Flat(handlers);
      Route(Prefix(groups) + pattern, if all == [] then None else Some(all))
  }

  /** The loop of `add` over the active groups. */
  method Combine(groups: seq<Group>, pattern: string, handlers: Option<seq<Handler>>) returns (r: Route)
    ensures r == Join(groups, pattern, handlers)
  {
    if |groups| == 0 {
      return Route(pattern, handlers);
    }
    var gpattern := "";
    var ghandlers: Option<seq<Handler>> := None;
    var i := 0;
    while i < |groups|
      invariant 0 <= i <= |groups|
      invariant gpattern == Prefix(groups[..i])
      invariant Flat(ghandlers) == Chain(groups[..i])
      invariant ghandlers.Some? ==> ghandlers.value != []
    {
      assert groups[..i + 1][..i] == groups[..i];
      gpattern := gpattern + groups[i].pattern;
      if |Flat(groups[i].handlers)| > 0 {
        ghandlers := Some(Flat(ghandlers) + Flat(groups[i].handlers));
      }
      i := i + 1;
    }
    assert groups[..i] == groups;
    if |Flat(handlers)| > 0 {
      ghandlers := Some(Flat(ghandlers) + Flat(handlers));
    } else {
      assert Flat(ghandlers) == Chain(groups) + Flat(handlers);
    }
    return Route(gpattern + pattern, ghandlers);
  }

  /** Groups nest: a route added inside a group pushed on top of `groups`
      is stored exactly as if it had been added under `groups` alone with
      that group's pattern and handlers already applied to it. */
  lemma Nesting(groups: seq<Group>, g: Group, pattern: string, handlers: Option<seq<Handler>>)
    requires groups != []
    ensures Join(groups + [g], pattern, handlers)
         == Join(groups, Join([g], pattern, handlers).pattern, Join([g], pattern, handlers).handlers)
  {
    var gs := groups + [g];
    assert gs[..|gs| - 1] == groups;
    assert [g][..0] == [];
    assert Prefix([g]) == "" + g.pattern == g.pattern;
    assert Chain([g]) == [] + Flat(g.handlers) == Flat(g.handlers);
    var inner := Join([g], pattern, handlers);
    var mine := Flat(g.handlers) + Flat(handlers);
    assert inner.pattern == g.pattern + pattern;
    assert inner.handlers == if mine == [] then None else Some(mine);
    assert Flat(inner.handlers) == mine;
    var all := Chain(gs) + Flat(handlers);
    assert all == Chain(groups) + mine;
    var outer := Join(gs, pattern, handlers);
    assert outer == Route(Prefix(gs) + pattern, if all == [] then None else Some(all));
    var other := Join(groups, inner.pattern, inner.handlers);
    assert other == Route(Prefix(groups) + inner.pattern, if all == [] then None else Some(all));
    assert Prefix(gs) == Prefix(groups) + g.pattern;
    assert Prefix(gs) + pattern == Prefix(groups) + inner.pattern by {
      Regroup(Prefix(groups), g.pattern, pattern);
    }
  }

  /** Regrouping a concatenation of three strings. */
  lemma Regroup(a: string, b: string, c: string)
    ensures (a + b) + c == a + (b + c)
  {
  }

  /** Under active groups the stored pattern is the group patterns followed
      by the pattern, the stored handlers are the group handlers followed by
      the route's own, and they are `nil` exactly when both are empty. */
  lemma Applied(groups: seq<Group>, pattern: string, handlers: Option<seq<Handler>>)
    requires groups != []
    ensures Join(groups, pattern, handlers).pattern == Prefix(groups) + pattern
    ensures Flat(Join(groups, pattern, handlers).handlers) == Chain(groups) + Flat(handlers)
    ensures Join(groups, pattern, handlers).handlers == None <==> Chain(groups) == [] && Flat(handlers) == []
  {
  }

  /** One call of `add`: a method and a pattern. */
  datatype Reg = Reg(verb: string, pattern: string)

  /** The pattern without one trailing `/`. */
  function Unslashed(pattern: string): (base: string)
    ensures pattern == base || pattern == base + "/"
    ensures base == "" || base[|base| - 1] != '/' || pattern == base + "/"
  {
    if pattern != "" && pattern[|pattern| - 1] == '/' then pattern[..|pattern| - 1] else pattern
  }

  /** The calls of `add` that `Add(verb, pattern, ..)` makes, in order:
      first a HEAD copy of a GET route when `autoHead` is set; then, with
      `autoTrailingSlash` and a pattern longer than one byte or an active
      group, the pattern with and without its trailing slash; otherwise the
      pattern as given. (The routers strip the slash by reading the last
      byte even of an empty pattern; this definition reads it only when
      there is one, see `RadixRoutes.AddAsWritten`.) */
  function Registrations(verb: string, pattern: string, autoHead: bool, autoTrailingSlash: bool,
                         grouped: bool): (regs: seq<Reg>)
    ensures regs != [] && regs[|regs| - 1].verb == verb
  {
    var head := if verb == "GET" && autoHead then [Reg("HEAD", pattern)] else [];
    if autoTrailingSlash && (|pattern| > 1 || grouped) then
      var base := Unslashed(pattern);
      head + [Reg(verb, base + "/"), Reg(verb, base)]
    else head + [Reg(verb, pattern)]
  }

  /** The calls of `Add` after the HEAD copy. */
  lemma Variants(verb: string, pattern: string, autoTrailingSlash: bool, grouped: bool)
    ensures autoTrailingSlash && (|pattern| > 1 || grouped) ==>
              Registrations(verb, pattern, false, autoTrailingSlash, grouped)
                == [Reg(verb, Unslashed(pattern) + "/"), Reg(verb, Unslashed(pattern))]
    ensures !(autoTrailingSlash && (|pattern| > 1 || grouped)) ==>
              Registrations(verb, pattern, false, autoTrailingSlash, grouped) == [Reg(verb, pattern)]
  {
  }

  /** With the trailing-slash option, a route (also the empty one inside a
      group) is registered both with and without a trailing slash, one of
      the two being the pattern as given; and a GET route also under HEAD. */
  lemma TrailingSlashPair(verb: string, pattern: string, autoHead: bool, grouped: bool)
    requires |pattern| > 1 || grouped
    ensures var regs := Registrations(verb, pattern, autoHead, true, grouped);
            var n := |regs|;
            && n >= 2
            && regs[n - 2].verb == verb && regs[n - 1].verb == verb
            && regs[n - 2].pattern == regs[n - 1].pattern + "/"
            && (pattern == regs[n - 1].pattern || pattern == regs[n - 2].pattern)
            && (verb == "GET" && autoHead <==> n == 3 && regs[0] == Reg("HEAD", pattern))
  {
  }

  /** The corrected `Add` registers the empty route of a group as the group
      prefix followed by "/" and as the group prefix itself. */
  lemma EmptyGroupRouteRegistered(verb: string, groups: seq<Group>)
    requires groups != [] && verb != "GET"
    ensures Registrations(verb, "", false, true, true) == [Reg(verb, "/"), Reg(verb, "")]
    ensures Join(groups, "/", None).pattern == Prefix(groups) + "/"
    ensures Join(groups, "", None).pattern == Prefix(groups)
  {
    assert Unslashed("") == "";
    assert "" + "/" == "/";
    assert Prefix(groups) + "" == Prefix(groups);
  }

  /** A registration call made inside the function passed to `GroupAdd`. */
  datatype Action =
    | Handle(verb: string, pattern: string, handlers: Option<seq<Handler>>)
    | Nest(pattern: string, handlers: Option<seq<Handler>>, body: seq<Action>)
}
