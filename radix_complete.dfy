/** What `add` builds on a method whose tree is still new, and what `Match`
    then finds there: a static route is found at exactly its own path, a
    route with one parameter at every path that puts a value in its place,
    a route added again only takes the new handlers, and two parameters of
    different names at the same place panic. */
module RadixComplete {
  import opened Common
  import opened Router
  import opened Groups
  import opened RadixSpec
  import opened RadixMatch

  /** The root `NewTree` makes for every method: the static leaf "/" with
      no parent, no children and no handlers. */
  predicate BareRoot(leaves: seq<Leaf>, id: nat)
  {
    id < |leaves| && leaves[id] == Leaf(false, '/', "/", "", None, [], None)
  }

  /** The scan of `add` over bytes without `:` only gathers them into
      the static run. */
  lemma {:induction false} ScanRun(leaves: seq<Leaf>, root: nat, p: string, i: nat, j: nat, radix: string,
                                   h: Option<seq<Handler>>)
    requires Wf(leaves) && root < |leaves| && i <= j <= |p| && ':' !in radix && ':' !in p[i..j]
    ensures ':' !in radix + p[i..j]
    ensures AddScan(leaves, root, p, i, radix, h) == AddScan(leaves, root, p, j, radix + p[i..j], h)
    decreases j - i
  {
    if i < j {
      assert p[i] in p[i..j];
      assert p[i + 1..j] == p[i..j][1..];
      assert ':' !in radix + [p[i]];
      ScanRun(leaves, root, p, i + 1, j, radix + [p[i]], h);
      assert (radix + [p[i]]) + p[i + 1..j] == radix + p[i..j];
    } else {
      assert radix + p[i..j] == radix;
    }
  }

  /** The scan of `add` over a first part `p[..j]` without `:` only
      gathers it. */
  lemma ScanPrefix(f: seq<Leaf>, root: nat, p: string, j: nat, h: Option<seq<Handler>>)
    requires Wf(f) && root < |f| && j <= |p| && ':' !in p[..j]
    ensures AddScan(f, root, p, 0, "", h) == AddScan(f, root, p, j, p[..j], h)
  {
    assert p[0..j] == p[..j];
    ScanRun(f, root, p, 0, j, "", h);
    assert "" + p[0..j] == p[..j];
  }

  /** The scan of `add` over a rest without `:` is one flush of it. */
  lemma ScanStatic(leaves: seq<Leaf>, root: nat, p: string, i: nat, radix: string,
                   h: Option<seq<Handler>>)
    requires Wf(leaves) && root < |leaves| && i <= |p| && ':' !in radix && ':' !in p[i..]
    ensures AddScan(leaves, root, p, i, radix, h) == Flush(leaves, root, radix + p[i..], h)
  {
    assert p[i..] == p[i..|p|];
    ScanRun(leaves, root, p, i, |p|, radix, h);
  }

  /** `add` of a pattern that is not empty and starts with "/": the scan
      over it from the method's root. */
  lemma AddScanned(ls: seq<Leaf>, nodes: seq<nat>, groups: seq<Group>, verb: string,
                   pattern: string, h: Option<seq<Handler>>)
    requires Wf(ls) && |nodes| == RouteLength && ChildrenIn(ls, nodes) && verb in RouterMethods
    requires var p := Join(groups, pattern, h).pattern;
             p != "" && p[0] == '/'
    ensures var r := Join(groups, pattern, h);
            var st := AddScan(ls, nodes[RouterMethods[verb]], r.pattern, 0, "", r.handlers);
            AddSpec(ls, nodes, groups, verb, pattern, h)
              == Added(st.leaves, if st.res.Panic? then Panic(st.res.msg) else Ok(NewLeaf(r.pattern, r.handlers)))
  {
  }

  /** `add` of a route without parameters: one flush of its pattern under
      the method's root. */
  lemma AddStatic(ls: seq<Leaf>, nodes: seq<nat>, groups: seq<Group>, verb: string,
                  pattern: string, h: Option<seq<Handler>>)
    requires Wf(ls) && |nodes| == RouteLength && ChildrenIn(ls, nodes) && verb in RouterMethods
    requires var p := Join(groups, pattern, h).pattern;
             p != "" && p[0] == '/' && ':' !in p
    ensures var r := Join(groups, pattern, h);
            var st := Flush(ls, nodes[RouterMethods[verb]], r.pattern, r.handlers);
            AddSpec(ls, nodes, groups, verb, pattern, h)
              == Added(st.leaves, if st.res.Panic? then Panic(st.res.msg) else Ok(NewLeaf(r.pattern, r.handlers)))
  {
    var r := Join(groups, pattern, h);
    AddScanned(ls, nodes, groups, verb, pattern, h);
    ScanStatic(ls, nodes[RouterMethods[verb]], r.pattern, 0, "", r.handlers);
    assert r.pattern[0..] == r.pattern && "" + r.pattern == r.pattern;
  }

  /** The arena after a static run `s` longer than "/" is flushed under a
      bare root: the root gets the new leaf, holding the rest of `s` after
      the "/", as its only child. */
  function Grown(leaves: seq<Leaf>, root: nat, s: string, h: Option<seq<Handler>>): seq<Leaf>
    requires root < |leaves| && |s| > 1
  {
    leaves[root := leaves[root].(children := [|leaves|])] + [Leaf(false, s[1], s[1..], "", Some(root), [], h)]
  }

  /** Flushing a static run under a bare root: "/" itself only takes the
      handlers; a longer run becomes the root's one child, cut after the
      "/" the root already spells. */
  lemma FlushBare(leaves: seq<Leaf>, root: nat, s: string, h: Option<seq<Handler>>)
    requires Wf(leaves) && BareRoot(leaves, root) && s != "" && s[0] == '/' && ':' !in s
    ensures |s| == 1 ==> Flush(leaves, root, s, h) == Step(SetHandlers(leaves + [NewLeaf(s, h)], root, h), Ok(root))
    ensures |s| > 1 ==> Flush(leaves, root, s, h) == Step(Grown(leaves, root, s, h), Ok(|leaves|))
  {
    var n := |leaves|;
    var l0 := leaves + [NewLeaf(s, h)];
    assert l0[root] == leaves[root] && l0[n] == NewLeaf(s, h);
    if |s| > 1 {
      assert LCP("/", s) == 1 by {
        LCPUnique("/", s, 1);
      }
      NoColonSuffix(s, 1);
      WfAppend(leaves, NewLeaf(s, h));
      WfResetPattern(l0, n, s[1..]);
      var l1 := ResetPattern(l0, n, s[1..]);
      assert l1[root] == leaves[root];
      var l2 := l1[n := l1[n].(parent := Some(root))];
      assert IndexFrom(l1, l1[root].children, l1[n].pattern, 0) == 0;
      assert l2[root].children + [n] == [n];
      assert InsertChild(l1, root, n) == Step(l2[root := l2[root].(children := [n])], Ok(n));
      assert l2[root := l2[root].(children := [n])] == Grown(leaves, root, s, h);
      assert Scan(l1, root, n, 0) == Step(Grown(leaves, root, s, h), Ok(n));
      assert Insert(l0, root, n) == Scan(l1, root, n, 0);
    }
  }

  /** A static leaf whose pattern is all that is left of the path ends
      the match at its handlers. */
  lemma MatchStaticEnd(f: seq<Leaf>, x: nat, q: string)
    requires Wf(f) && x < |f| && !f[x].hasParam && f[x].pattern == q
    ensures MatchFrom(f, x, q) == Found(f[x].handlers, [], [x])
  {
    assert q[..|q|] == q;
    MatchUnfold(f, x, q);
  }

  /** A static leaf with one child consumes its pattern and goes on at
      that child when the rest of the path starts as the child does. */
  lemma MatchStaticOn(f: seq<Leaf>, x: nat, y: nat, rest: string)
    requires Wf(f) && x < |f| && !f[x].hasParam && f[x].children == [y]
    requires y < |f| && rest != "" && (f[y].hasParam || f[y].alpha == rest[0])
    ensures MatchFrom(f, x, f[x].pattern + rest) == Prepend([], x, MatchFrom(f, y, rest))
  {
    var p := f[x].pattern;
    var q := p + rest;
    assert q[..|p|] == p && q[|p|..] == rest;
    assert NextChild(f, x, q[|p|]) == Some(y);
    assert HopAt(f, x, q) == Go([], y, rest);
    MatchUnfold(f, x, q);
  }

  /** A parameter leaf without children binds all the rest of the path
      and ends the match at its handlers. */
  lemma MatchParamEnd(f: seq<Leaf>, x: nat, v: string)
    requires Wf(f) && x < |f| && f[x].hasParam && f[x].children == []
    ensures MatchFrom(f, x, v) == Found(f[x].handlers, [Bind(f[x].param, v)], [x])
  {
    assert v[..|v|] == v;
    MatchUnfold(f, x, v);
  }

  /** A parameter leaf with one child binds the bytes up to the next `/`
      and goes on at that child with the rest. */
  lemma MatchParamOn(f: seq<Leaf>, x: nat, y: nat, v: string, t: string)
    requires Wf(f) && x < |f| && f[x].hasParam && f[x].children == [y]
    requires y < |f| && '/' !in v && t != "" && t[0] == '/' && f[y].alpha == '/'
    ensures MatchFrom(f, x, v + t) == Prepend([Bind(f[x].param, v)], x, MatchFrom(f, y, t))
  {
    assert LeafOk(f, f[x]);
    NameRun(v, t);
    var q := v + t;
    assert q[..|v|] == v && q[|v|..] == t;
    assert NextChild(f, x, q[|v|]) == Some(y);
    assert HopAt(f, x, q) == Go([Bind(f[x].param, v)], y, t);
    MatchUnfold(f, x, q);
  }

  /** Under a static leaf without handlers whose one child is a static
      leaf without children, a match finds the child's handlers at
      exactly the two patterns joined, and binds nothing. */
  lemma MatchTwoStatic(f: seq<Leaf>, x: nat, y: nat, q: string)
    requires Wf(f) && x < |f| && !f[x].hasParam && f[x].handlers == None && f[x].children == [y]
    requires y < |f| && !f[y].hasParam && f[y].children == []
    ensures var m := MatchFrom(f, x, q);
            m.handlers == (if q == f[x].pattern + f[y].pattern then f[y].handlers else None) && m.binds == []
  {
    assert LeafOk(f, f[y]);
    if q == f[x].pattern + f[y].pattern {
      MatchStaticOn(f, x, y, f[y].pattern);
      MatchStaticEnd(f, y, f[y].pattern);
    } else {
      MatchUnfold(f, x, q);
      var h := HopAt(f, x, q);
      if h.Go? {
        MatchUnfold(f, y, h.rest);
      }
    }
  }

  /** `b` before the rest keeps a prefix a prefix. */
  lemma PrefixJoin(a: string, b: string, r: string)
    requires IsPrefix(b, r)
    ensures IsPrefix(a + b, a + r)
  {
    assert (a + r)[..|a + b|] == a + r[..|b|];
  }

  /** Under a static leaf without handlers whose one child is static, a
      path that does not start with the two patterns joined finds
      nothing. */
  lemma MissTwoStatic(f: seq<Leaf>, x: nat, y: nat, q: string)
    requires Wf(f) && x < |f| && !f[x].hasParam && f[x].handlers == None && f[x].children == [y]
    requires y < |f| && !f[y].hasParam
    requires !IsPrefix(f[x].pattern + f[y].pattern, q)
    ensures MatchFrom(f, x, q).handlers == None
  {
    MatchUnfold(f, x, q);
    var h := HopAt(f, x, q);
    if h.Go? {
      assert h.next == y && q == f[x].pattern + h.rest;
      if IsPrefix(f[y].pattern, h.rest) {
        PrefixJoin(f[x].pattern, f[y].pattern, h.rest);
      }
    }
  }

  /** On the arena `Grown` leaves, a match from the root finds the
      handlers of `s` at exactly the path `s`, and binds nothing. */
  lemma MatchGrown(leaves: seq<Leaf>, root: nat, s: string, h: Option<seq<Handler>>, q: string)
    requires Wf(leaves) && BareRoot(leaves, root) && |s| > 1 && s[0] == '/' && ':' !in s
    ensures Wf(Grown(leaves, root, s, h))
    ensures var m := MatchFrom(Grown(leaves, root, s, h), root, q);
            m.handlers == (if q == s then h else None) && m.binds == []
  {
    FlushBare(leaves, root, s, h);
    var g := Grown(leaves, root, s, h);
    var n := |leaves|;
    assert g[root] == Leaf(false, '/', "/", "", None, [n], None);
    assert g[n] == Leaf(false, s[1], s[1..], "", Some(root), [], h);
    assert "/" + s[1..] == s;
    MatchTwoStatic(g, root, n, q);
  }

  /** On the arena after "/" was flushed under a bare root, a match from
      the root finds its handlers at exactly "/", and binds nothing. */
  lemma MatchSlash(leaves: seq<Leaf>, root: nat, h: Option<seq<Handler>>, q: string)
    requires Wf(leaves) && BareRoot(leaves, root)
    ensures Wf(SetHandlers(leaves + [NewLeaf("/", h)], root, h))
    ensures var m := MatchFrom(SetHandlers(leaves + [NewLeaf("/", h)], root, h), root, q);
            m.handlers == (if q == "/" then h else None) && m.binds == []
  {
    FlushBare(leaves, root, "/", h);
    var g := SetHandlers(leaves + [NewLeaf("/", h)], root, h);
    assert g[root].children == [] && g[root].pattern == "/" && g[root].handlers == h;
    MatchUnfold(g, root, q);
  }

  /** A static route without parameters, longer than "/", added to a
      method whose tree is new: the arena `Grown` leaves. */
  lemma AddGrown(leaves: seq<Leaf>, nodes: seq<nat>, groups: seq<Group>, verb: string,
                 pattern: string, h: Option<seq<Handler>>)
    requires Wf(leaves) && |nodes| == RouteLength && ChildrenIn(leaves, nodes)
    requires verb in RouterMethods && BareRoot(leaves, nodes[RouterMethods[verb]])
    requires var p := Join(groups, pattern, h).pattern;
             |p| > 1 && p[0] == '/' && ':' !in p
    ensures var r := Join(groups, pattern, h);
            AddSpec(leaves, nodes, groups, verb, pattern, h)
              == Added(Grown(leaves, nodes[RouterMethods[verb]], r.pattern, r.handlers), Ok(NewLeaf(r.pattern, r.handlers)))
  {
    var r := Join(groups, pattern, h);
    AddStatic(leaves, nodes, groups, verb, pattern, h);
    FlushBare(leaves, nodes[RouterMethods[verb]], r.pattern, r.handlers);
  }


  /** The route "/" added to a method whose tree is new: the root takes
      its handlers. */
  lemma AddSlash(leaves: seq<Leaf>, nodes: seq<nat>, groups: seq<Group>, verb: string,
                 pattern: string, h: Option<seq<Handler>>)
    requires Wf(leaves) && |nodes| == RouteLength && ChildrenIn(leaves, nodes)
    requires verb in RouterMethods && BareRoot(leaves, nodes[RouterMethods[verb]])
    requires Join(groups, pattern, h).pattern == "/"
    ensures var r := Join(groups, pattern, h);
            AddSpec(leaves, nodes, groups, verb, pattern, h)
              == Added(SetHandlers(leaves + [NewLeaf("/", r.handlers)], nodes[RouterMethods[verb]], r.handlers),
                       Ok(NewLeaf("/", r.handlers)))
  {
    var r := Join(groups, pattern, h);
    AddStatic(leaves, nodes, groups, verb, pattern, h);
    FlushBare(leaves, nodes[RouterMethods[verb]], r.pattern, r.handlers);
  }


  /** A route without parameters, added to a method whose tree is new,
      is found by `Match` at exactly its path, with its handlers and no
      parameters; every other path finds nothing. */
  lemma AddStaticThenMatch(leaves: seq<Leaf>, nodes: seq<nat>, groups: seq<Group>, verb: string,
                           pattern: string, handlers: Option<seq<Handler>>, q: string)
    requires Wf(leaves) && |nodes| == RouteLength && ChildrenIn(leaves, nodes)
    requires verb in RouterMethods && BareRoot(leaves, nodes[RouterMethods[verb]])
    requires var r := Join(groups, pattern, handlers);
             r.pattern != "" && r.pattern[0] == '/' && ':' !in r.pattern
    ensures var r := Join(groups, pattern, handlers);
            var a := AddSpec(leaves, nodes, groups, verb, pattern, handlers);
            && a.res == Ok(NewLeaf(r.pattern, r.handlers))
            && MatchSpec(a.leaves, nodes, verb, q).handlers == (if q == r.pattern then r.handlers else None)
            && MatchSpec(a.leaves, nodes, verb, q).binds == []
  {
    var r := Join(groups, pattern, handlers);
    var root := nodes[RouterMethods[verb]];
    if |r.pattern| > 1 {
      AddGrown(leaves, nodes, groups, verb, pattern, handlers);
      MatchGrown(leaves, root, r.pattern, r.handlers, q);
    } else {
      AddSlash(leaves, nodes, groups, verb, pattern, handlers);
      MatchSlash(leaves, root, r.handlers, q);
    }
  }


  /** A leaf hung under a childless leaf of the other kind becomes its only
      child. */
  lemma AttachLone(leaves: seq<Leaf>, x: nat, l: Leaf)
    requires Wf(leaves) && x < |leaves| && leaves[x].children == []
    requires l.hasParam != leaves[x].hasParam && LeafOk(leaves + [l], l)
    ensures Attach(leaves, x, l)
              == Step(leaves[x := leaves[x].(children := [|leaves|])] + [l.(parent := Some(x))], Ok(|leaves|))
  {
    var n := |leaves|;
    WfAppend(leaves, l);
    var l0 := leaves + [l];
    assert l0[x] == leaves[x] && l0[n] == l;
    assert LeafOk(leaves, leaves[x]);
    assert l0[x].pattern != l.pattern by {
      if l.hasParam {
        assert ':' !in leaves[x].pattern && l.pattern == ":";
        assert l.pattern[0] in l.pattern;
      } else {
        assert ':' !in l.pattern && leaves[x].pattern == ":";
        assert leaves[x].pattern[0] in leaves[x].pattern;
      }
    }
    var l2 := l0[n := l0[n].(parent := Some(x))];
    assert IndexFrom(l0, l0[x].children, l0[n].pattern, 0) == 0;
    assert l2[x].children + [n] == [n];
    assert InsertChild(l0, x, n) == Step(l2[x := l2[x].(children := [n])], Ok(n));
    assert l2[x := l2[x].(children := [n])] == leaves[x := leaves[x].(children := [n])] + [l.(parent := Some(x))];
    if leaves[x].hasParam {
      assert Scan(l0, x, n, 0) == Step(l2[x := l2[x].(children := [n])], Ok(n));
    }
  }

  /** A parameter name runs to the next `/`: the name of `name + t` is
      `name` when `name` holds no `/` and `t` is empty or starts a new
      segment. */
  lemma NameRun(name: string, t: string)
    requires '/' !in name && (t == "" || t[0] == '/')
    ensures RunUntil(name + t, '/') == |name|
  {
    if t != "" {
      assert (name + t)[|name|] == '/';
    }
    assert forall i | 0 <= i < |name| :: (name + t)[i] == name[i] && name[i] in name;
  }

  /** The arena after the parameter leaf `name` (with handlers `hp`) is
      hung under the child `Grown` gave the bare root. */
  function ParamGrown(leaves: seq<Leaf>, root: nat, s: string, name: string, hp: Option<seq<Handler>>): seq<Leaf>
    requires root < |leaves| && |s| > 1
  {
    var n := |leaves|;
    var g := Grown(leaves, root, s, None);
    g[n := g[n].(children := [n + 1])] + [ParamLeaf(name, hp).(parent := Some(n))]
  }

  /** The arena `add` leaves for the route `s + ":" + name + t` on a bare
      root: the root, one child spelling the rest of `s`, the parameter
      leaf under it and, when `t` is not empty, a static leaf for `t` under
      that; the last leaf of the chain holds the handlers. */
  function OneParam(leaves: seq<Leaf>, root: nat, s: string, name: string, t: string,
                    h: Option<seq<Handler>>): seq<Leaf>
    requires root < |leaves| && |s| > 1
  {
    var n := |leaves|;
    var a := ParamGrown(leaves, root, s, name, if t == "" then h else None);
    if t == "" then a else a[n + 1 := a[n + 1].(children := [n + 2])] + [NewLeaf(t, h).(parent := Some(n + 1))]
  }

  /** `OneParam` for a route that goes on after its parameter. */
  lemma OneParamTail(leaves: seq<Leaf>, root: nat, s: string, name: string, t: string, h: Option<seq<Handler>>)
    requires root < |leaves| && |s| > 1 && t != ""
    ensures var n := |leaves|;
            var a := ParamGrown(leaves, root, s, name, None);
            |a| == n + 2
            && OneParam(leaves, root, s, name, t, h)
                 == a[n + 1 := a[n + 1].(children := [n + 2])] + [NewLeaf(t, h).(parent := Some(n + 1))]
  {
  }

  /** The leaves of the chain `OneParam` builds. */
  lemma OneParamLeaves(leaves: seq<Leaf>, root: nat, s: string, name: string, t: string, h: Option<seq<Handler>>)
    requires BareRoot(leaves, root) && |s| > 1
    ensures var f := OneParam(leaves, root, s, name, t, h);
            var n := |leaves|;
            && |f| == (if t == "" then n + 2 else n + 3)
            && f[root] == Leaf(false, '/', "/", "", None, [n], None)
            && f[n] == Leaf(false, s[1], s[1..], "", Some(root), [n + 1], None)
            && f[n + 1] == Leaf(true, ':', ":", name, Some(n), if t == "" then [] else [n + 2], if t == "" then h else None)
            && (t != "" ==> f[n + 2] == Leaf(false, t[0], t, "", Some(n + 1), [], h))
  {
    if t != "" {
      OneParamTail(leaves, root, s, name, t, h);
    }
  }

  /** The scan of `add` reaching the `:` after the static run `s` on a bare
      root: `s` is flushed, the parameter leaf hung under it, and the scan
      goes on after the name with nothing gathered. */
  lemma ParamOnBare(leaves: seq<Leaf>, root: nat, s: string, name: string, t: string,
                    h: Option<seq<Handler>>)
    requires Wf(leaves) && BareRoot(leaves, root) && |s| > 1 && s[0] == '/' && ':' !in s
    requires name != "" && '/' !in name && (t == "" || t[0] == '/')
    ensures var p := s + ":" + name + t;
            var a := ParamGrown(leaves, root, s, name, if t == "" then h else None);
            ParamStep(leaves, root, p, |s|, s, h) == Piece(Step(a, Ok(|leaves| + 1)), |s| + 1 + |name|)
  {
    var p := s + ":" + name + t;
    var n := |leaves|;
    var j := |s|;
    assert p[j + 1..] == name + t;
    FlushBare(leaves, root, s, None);
    var g := Grown(leaves, root, s, None);
    NameRun(name, t);
    var next := j + 1 + |name|;
    assert p[j + 1..next] == name;
    var pl := ParamLeaf(name, if t == "" then h else None);
    assert NamedParam(p, j, h) == pl;
    AttachLone(g, n, pl);
  }

  /** At a `:` that does not panic, the scan of `add` goes on from where
      the parameter step left it, with nothing gathered. */
  lemma ScanColon(leaves: seq<Leaf>, root: nat, p: string, i: nat, radix: string,
                  h: Option<seq<Handler>>)
    requires Wf(leaves) && root < |leaves| && i < |p| && ':' !in radix && p[i] == ':'
    requires ParamStep(leaves, root, p, i, radix, h).step.res.Ok?
    ensures var pc := ParamStep(leaves, root, p, i, radix, h);
            AddScan(leaves, root, p, i, radix, h) == AddScan(pc.step.leaves, pc.step.res.value, p, pc.next, "", h)
  {
  }

  /** The scan of `add` after the parameter of `s + ":" + name + t`: nothing
      more when `t` is empty, else `t` hung under the parameter leaf. */
  lemma ScanAfterParam(a: seq<Leaf>, x: nat, p: string, next: nat, t: string, h: Option<seq<Handler>>)
    requires Wf(a) && x < |a| && a[x].hasParam && a[x].children == []
    requires next <= |p| && p[next..] == t && ':' !in t && (t != "" ==> t[0] == '/')
    ensures t == "" ==> AddScan(a, x, p, next, "", h) == Step(a, Ok(x))
    ensures t != "" ==> AddScan(a, x, p, next, "", h)
                          == Step(a[x := a[x].(children := [|a|])] + [NewLeaf(t, h).(parent := Some(x))], Ok(|a|))
  {
    if t != "" {
      ScanStatic(a, x, p, next, "", h);
      assert "" + t == t;
      AttachLone(a, x, NewLeaf(t, h));
    }
  }

  /** The parameter leaf `ParamGrown` hangs last. */
  lemma ParamGrownShape(leaves: seq<Leaf>, root: nat, s: string, name: string, hp: Option<seq<Handler>>)
    requires root < |leaves| && |s| > 1
    ensures var a := ParamGrown(leaves, root, s, name, hp);
            |a| == |leaves| + 2 && a[|leaves| + 1] == Leaf(true, ':', ":", name, Some(|leaves|), [], hp)
  {
  }

  /** The scan of `add` at the `:` of `s + ":" + name + t`, with `s`
      gathered, on a bare root: it goes on after the name at the
      parameter leaf `ParamGrown` hangs. */
  lemma ColonOnBare(leaves: seq<Leaf>, root: nat, s: string, name: string, t: string,
                    h: Option<seq<Handler>>)
    requires Wf(leaves) && BareRoot(leaves, root) && |s| > 1 && s[0] == '/' && ':' !in s
    requires name != "" && '/' !in name && (t == "" || t[0] == '/')
    ensures var a := ParamGrown(leaves, root, s, name, if t == "" then h else None);
            var p := s + ":" + name + t;
            && Wf(a)
            && AddScan(leaves, root, p, |s|, s, h) == AddScan(a, |leaves| + 1, p, |s| + 1 + |name|, "", h)
  {
    var p := s + ":" + name + t;
    ParamOnBare(leaves, root, s, name, t, h);
    assert p[|s|] == ':';
    ScanColon(leaves, root, p, |s|, s, h);
  }

  /** The scan of `add` over `s + ":" + name + t` up to the end of the
      name builds `ParamGrown` and goes on at its parameter leaf. */
  lemma ScanToParam(leaves: seq<Leaf>, root: nat, s: string, name: string, t: string,
                    h: Option<seq<Handler>>)
    requires Wf(leaves) && BareRoot(leaves, root) && |s| > 1 && s[0] == '/' && ':' !in s
    requires name != "" && '/' !in name && (t == "" || t[0] == '/')
    ensures var a := ParamGrown(leaves, root, s, name, if t == "" then h else None);
            var p := s + ":" + name + t;
            && Wf(a)
            && AddScan(leaves, root, p, 0, "", h) == AddScan(a, |leaves| + 1, p, |s| + 1 + |name|, "", h)
  {
    var p := s + ":" + name + t;
    assert p[..|s|] == s;
    ScanPrefix(leaves, root, p, |s|, h);
    ColonOnBare(leaves, root, s, name, t, h);
  }


  /** The scan of `add` over `s + ":" + name + t` builds `OneParam` and
      returns its last leaf. */
  lemma BuildOneParam(leaves: seq<Leaf>, root: nat, s: string, name: string, t: string,
                      h: Option<seq<Handler>>)
    requires Wf(leaves) && BareRoot(leaves, root) && |s| > 1 && s[0] == '/' && ':' !in s
    requires name != "" && '/' !in name && ':' !in t && (t == "" || t[0] == '/')
    ensures Wf(OneParam(leaves, root, s, name, t, h))
    ensures AddScan(leaves, root, s + ":" + name + t, 0, "", h)
              == Step(OneParam(leaves, root, s, name, t, h), Ok(if t == "" then |leaves| + 1 else |leaves| + 2))
  {
    var p := s + ":" + name + t;
    var n := |leaves|;
    var next := |s| + 1 + |name|;
    var hp := if t == "" then h else None;
    var a := ParamGrown(leaves, root, s, name, hp);
    ScanToParam(leaves, root, s, name, t, h);
    ParamGrownShape(leaves, root, s, name, hp);
    assert p[next..] == t;
    if t == "" {
      assert AddScan(a, n + 1, p, next, "", h) == Step(a, Ok(n + 1)) by {
        ScanAfterParam(a, n + 1, p, next, t, h);
      }
    } else {
      assert AddScan(a, n + 1, p, next, "", h) == Step(OneParam(leaves, root, s, name, t, h), Ok(n + 2)) by {
        ScanAfterParam(a, n + 1, p, next, t, h);
        OneParamTail(leaves, root, s, name, t, h);
      }
    }
  }

  /** The chain `OneParam` builds, on an arena `f` whose first new leaf
      is `n`: the root, one child spelling the rest of `s`, the parameter
      leaf under it and, when `t` is not empty, a static leaf for `t`
      under that; the last leaf of the chain holds the handlers. */
  predicate ParamChain(f: seq<Leaf>, root: nat, n: nat, s: string, name: string, t: string, h: Option<seq<Handler>>)
    requires |s| > 1
  {
    && Wf(f) && root < n && |f| == (if t == "" then n + 2 else n + 3)
    && f[root] == Leaf(false, '/', "/", "", None, [n], None)
    && f[n] == Leaf(false, s[1], s[1..], "", Some(root), [n + 1], None)
    && f[n + 1] == Leaf(true, ':', ":", name, Some(n), if t == "" then [] else [n + 2], if t == "" then h else None)
    && (t != "" ==> f[n + 2] == Leaf(false, t[0], t, "", Some(n + 1), [], h))
  }

  /** `OneParam` is such a chain. */
  lemma OneParamChain(leaves: seq<Leaf>, root: nat, s: string, name: string, t: string, h: Option<seq<Handler>>)
    requires Wf(leaves) && BareRoot(leaves, root) && |s| > 1 && s[0] == '/' && ':' !in s
    requires name != "" && '/' !in name && ':' !in t && (t == "" || t[0] == '/')
    ensures ParamChain(OneParam(leaves, root, s, name, t, h), root, |leaves|, s, name, t, h)
  {
    BuildOneParam(leaves, root, s, name, t, h);
    OneParamLeaves(leaves, root, s, name, t, h);
  }

  /** `add` of a route with one parameter on a method whose tree is new:
      the arena `OneParam`. */
  lemma AddOneParam(leaves: seq<Leaf>, nodes: seq<nat>, groups: seq<Group>, verb: string,
                    pattern: string, handlers: Option<seq<Handler>>, s: string, name: string, t: string)
    requires Wf(leaves) && |nodes| == RouteLength && ChildrenIn(leaves, nodes)
    requires verb in RouterMethods && BareRoot(leaves, nodes[RouterMethods[verb]])
    requires Join(groups, pattern, handlers).pattern == s + ":" + name + t
    requires |s| > 1 && s[0] == '/' && ':' !in s
    requires name != "" && '/' !in name && ':' !in t && (t == "" || t[0] == '/')
    ensures var r := Join(groups, pattern, handlers);
            AddSpec(leaves, nodes, groups, verb, pattern, handlers)
              == Added(OneParam(leaves, nodes[RouterMethods[verb]], s, name, t, r.handlers), Ok(NewLeaf(r.pattern, r.handlers)))
  {
    var r := Join(groups, pattern, handlers);
    AddScanned(leaves, nodes, groups, verb, pattern, handlers);
    BuildOneParam(leaves, nodes[RouterMethods[verb]], s, name, t, r.handlers);
  }

  /** From the parameter leaf of the chain, a value `v` followed by `t`
      is bound to the name and ends at the handlers. */
  lemma MatchParamLeaf(f: seq<Leaf>, root: nat, n: nat, s: string, name: string, t: string,
                       h: Option<seq<Handler>>, v: string)
    requires |s| > 1 && ParamChain(f, root, n, s, name, t, h)
    requires t == "" || (t[0] == '/' && '/' !in v)
    ensures var m := MatchFrom(f, n + 1, v + t);
            m.handlers == h && m.binds == [Bind(name, v)]
  {
    if t == "" {
      assert v + t == v;
      MatchParamEnd(f, n + 1, v);
    } else {
      MatchParamOn(f, n + 1, n + 2, v, t);
      MatchStaticEnd(f, n + 2, t);
      assert [Bind(name, v)] + [] == [Bind(name, v)];
    }
  }

  /** From the child of the root of the chain, the rest of `s` followed
      by a value `v` in place of the parameter is found, with `v` bound to
      the name. */
  lemma MatchBelowRoot(f: seq<Leaf>, root: nat, n: nat, s: string, name: string, t: string,
                       h: Option<seq<Handler>>, v: string)
    requires |s| > 1 && ParamChain(f, root, n, s, name, t, h)
    requires v != "" && (t == "" || (t[0] == '/' && '/' !in v))
    ensures var m := MatchFrom(f, n, s[1..] + (v + t));
            m.handlers == h && m.binds == [Bind(name, v)]
  {
    MatchStaticOn(f, n, n + 1, v + t);
    MatchParamLeaf(f, root, n, s, name, t, h, v);
  }

  /** From the root of the chain, a path that puts a value `v` in place
      of the parameter is found, with `v` bound to the name. */
  lemma MatchOneParam(f: seq<Leaf>, root: nat, n: nat, s: string, name: string, t: string,
                      h: Option<seq<Handler>>, v: string)
    requires |s| > 1 && s[0] == '/' && ParamChain(f, root, n, s, name, t, h)
    requires v != "" && (t == "" || (t[0] == '/' && '/' !in v))
    ensures var m := MatchFrom(f, root, s + v + t);
            m.handlers == h && m.binds == [Bind(name, v)]
  {
    var rest := s[1..] + (v + t);
    assert s + v + t == f[root].pattern + rest by {
      assert s == "/" + s[1..];
    }
    MatchStaticOn(f, root, n, rest);
    MatchBelowRoot(f, root, n, s, name, t, h, v);
  }

  /** From the root of the chain, a path that does not start with the
      static part `s` finds nothing. */
  lemma MissOneParam(f: seq<Leaf>, root: nat, n: nat, s: string, name: string, t: string,
                     h: Option<seq<Handler>>, q: string)
    requires |s| > 1 && s[0] == '/' && ParamChain(f, root, n, s, name, t, h)
    requires !IsPrefix(s, q)
    ensures MatchFrom(f, root, q).handlers == None
  {
    assert "/" + s[1..] == s;
    MissTwoStatic(f, root, n, q);
  }

  /** `add` of a route with one parameter, `s + ":" + name + t`, on a
      method whose tree is new: the route is added, and afterwards `Match`
      finds its handlers at every path that puts a value `v` in place of
      the parameter, binding `v` to the name (a value holds no `/` unless
      the parameter ends the route). */
  lemma AddParamThenMatch(leaves: seq<Leaf>, nodes: seq<nat>, groups: seq<Group>, verb: string,
                          pattern: string, handlers: Option<seq<Handler>>,
                          s: string, name: string, t: string, v: string)
    requires Wf(leaves) && |nodes| == RouteLength && ChildrenIn(leaves, nodes)
    requires verb in RouterMethods && BareRoot(leaves, nodes[RouterMethods[verb]])
    requires Join(groups, pattern, handlers).pattern == s + ":" + name + t
    requires |s| > 1 && s[0] == '/' && ':' !in s
    requires name != "" && '/' !in name && ':' !in t && (t == "" || t[0] == '/')
    requires v != "" && (t != "" ==> '/' !in v)
    ensures var r := Join(groups, pattern, handlers);
            var a := AddSpec(leaves, nodes, groups, verb, pattern, handlers);
            && a.res == Ok(NewLeaf(r.pattern, r.handlers))
            && MatchSpec(a.leaves, nodes, verb, s + v + t).handlers == r.handlers
            && MatchSpec(a.leaves, nodes, verb, s + v + t).binds == [Bind(name, v)]
  {
    var r := Join(groups, pattern, handlers);
    var root := nodes[RouterMethods[verb]];
    AddOneParam(leaves, nodes, groups, verb, pattern, handlers, s, name, t);
    OneParamChain(leaves, root, s, name, t, r.handlers);
    MatchOneParam(OneParam(leaves, root, s, name, t, r.handlers), root, |leaves|, s, name, t, r.handlers, v);
  }


  /** After the same `add`, a path that does not start with the static
      part before the parameter finds nothing. */
  lemma AddParamMiss(leaves: seq<Leaf>, nodes: seq<nat>, groups: seq<Group>, verb: string,
                     pattern: string, handlers: Option<seq<Handler>>,
                     s: string, name: string, t: string, q: string)
    requires Wf(leaves) && |nodes| == RouteLength && ChildrenIn(leaves, nodes)
    requires verb in RouterMethods && BareRoot(leaves, nodes[RouterMethods[verb]])
    requires Join(groups, pattern, handlers).pattern == s + ":" + name + t
    requires |s| > 1 && s[0] == '/' && ':' !in s
    requires name != "" && '/' !in name && ':' !in t && (t == "" || t[0] == '/')
    requires !IsPrefix(s, q)
    ensures MatchSpec(AddSpec(leaves, nodes, groups, verb, pattern, handlers).leaves, nodes, verb, q).handlers == None
  {
    var r := Join(groups, pattern, handlers);
    var root := nodes[RouterMethods[verb]];
    AddOneParam(leaves, nodes, groups, verb, pattern, handlers, s, name, t);
    OneParamChain(leaves, root, s, name, t, r.handlers);
    MissOneParam(OneParam(leaves, root, s, name, t, r.handlers), root, |leaves|, s, name, t, r.handlers, q);
  }


  /** `findChild` does not see a leaf appended to the arena. */
  lemma {:induction false} FindFromExtend(ls: seq<Leaf>, x: Leaf, cs: seq<nat>, b: char, i: nat)
    requires ChildrenIn(ls, cs) && i <= |cs|
    ensures ChildrenIn(ls + [x], cs)
    ensures FindFrom(ls + [x], cs, b, i) == FindFrom(ls, cs, b, i)
    decreases |cs| - i
  {
    assert forall j :: 0 <= j < |cs| ==> (ls + [x])[cs[j]] == ls[cs[j]];
    if i < |cs| {
      FindFromExtend(ls, x, cs, b, i + 1);
    }
  }

  /** One turn of `Match` does not see a leaf appended to the arena. */
  lemma HopExtend(ls: seq<Leaf>, x: Leaf, id: nat, q: string)
    requires Wf(ls) && Wf(ls + [x]) && id < |ls|
    ensures HopAt(ls + [x], id, q) == HopAt(ls, id, q)
  {
    var l := ls[id];
    assert (ls + [x])[id] == l;
    assert LeafOk(ls, l);
    if l.children != [] {
      forall b: char
        ensures NextChild(ls + [x], id, b) == NextChild(ls, id, b)
      {
        FindFromExtend(ls, x, l.children, b, 0);
        assert (ls + [x])[l.children[0]] == ls[l.children[0]];
      }
    }
  }

  /** `Match` does not see a leaf appended to the arena: a leaf no other
      leaf names as a child is never reached. */
  lemma {:induction false} MatchExtend(ls: seq<Leaf>, x: Leaf, id: nat, q: string)
    requires Wf(ls) && Wf(ls + [x]) && id < |ls|
    ensures MatchFrom(ls + [x], id, q) == MatchFrom(ls, id, q)
    decreases |q|, if ls[id].hasParam then 1 else 0
  {
    HopExtend(ls, x, id, q);
    MatchUnfold(ls + [x], id, q);
    MatchUnfold(ls, id, q);
    var h := HopAt(ls, id, q);
    if h.Go? {
      MatchExtend(ls, x, h.next, h.rest);
    }
  }

  /** Flushing a static run `s` under a root "/" whose one child already
      spells the rest of `s`: the child takes the handlers unless they are
      `nil`, and the new leaf stays detached at the end of the arena. */
  lemma FlushExisting(f: seq<Leaf>, root: nat, n: nat, s: string, h: Option<seq<Handler>>)
    requires |s| > 1 && s[0] == '/' && ':' !in s
    requires Wf(f) && root < |f| && f[root] == Leaf(false, '/', "/", "", None, [n], None)
    requires n < |f| && !f[n].hasParam && f[n].pattern == s[1..]
    ensures Flush(f, root, s, h) == Step(SetHandlers(f + [Leaf(false, s[1], s[1..], "", None, [], h)], n, h), Ok(n))
  {
    var m := |f|;
    var l0 := f + [NewLeaf(s, h)];
    assert l0[root] == f[root] && l0[m] == NewLeaf(s, h);
    assert LCP("/", s) == 1 by {
      LCPUnique("/", s, 1);
    }
    NoColonSuffix(s, 1);
    WfAppend(f, NewLeaf(s, h));
    WfResetPattern(l0, m, s[1..]);
    var l1 := ResetPattern(l0, m, s[1..]);
    assert l1 == f + [Leaf(false, s[1], s[1..], "", None, [], h)];
    assert l1[n] == f[n] && l1[root] == f[root];
    assert Insert(l0, root, m) == Scan(l1, root, m, 0);
    assert Scan(l1, root, m, 0) == Step(SetHandlers(l1, n, h), Ok(n));
  }

  /** The handlers `Grown` gives the new leaf, replaced unless `nil`. */
  lemma GrownHandlers(leaves: seq<Leaf>, root: nat, s: string, h1: Option<seq<Handler>>, h2: Option<seq<Handler>>)
    requires root < |leaves| && |s| > 1
    ensures SetHandlers(Grown(leaves, root, s, h1), |leaves|, h2) == Grown(leaves, root, s, if h2.Some? then h2 else h1)
  {
  }

  /** Flushing the same static run again under the root `Grown` left: the
      leaf already there takes the new handlers unless they are `nil`, and
      the new leaf stays detached at the end of the arena. */
  lemma FlushAgain(leaves: seq<Leaf>, root: nat, s: string, h1: Option<seq<Handler>>, h2: Option<seq<Handler>>)
    requires Wf(leaves) && BareRoot(leaves, root) && |s| > 1 && s[0] == '/' && ':' !in s
    ensures Wf(Grown(leaves, root, s, h1))
    ensures Flush(Grown(leaves, root, s, h1), root, s, h2)
              == Step(Grown(leaves, root, s, if h2.Some? then h2 else h1) + [Leaf(false, s[1], s[1..], "", None, [], h2)],
                      Ok(|leaves|))
  {
    FlushBare(leaves, root, s, h1);
    var g := Grown(leaves, root, s, h1);
    var n := |leaves|;
    var x := Leaf(false, s[1], s[1..], "", None, [], h2);
    assert g[root] == Leaf(false, '/', "/", "", None, [n], None) && g[n].pattern == s[1..] && !g[n].hasParam;
    FlushExisting(g, root, n, s, h2);
    GrownHandlers(leaves, root, s, h1, h2);
    assert SetHandlers(g + [x], n, h2) == SetHandlers(g, n, h2) + [x];
  }

  /** The same route added again over `Grown`. */
  lemma AddGrownAgain(leaves: seq<Leaf>, nodes: seq<nat>, groups: seq<Group>, verb: string,
                      pattern: string, h1: Option<seq<Handler>>, h2: Option<seq<Handler>>)
    requires Wf(leaves) && |nodes| == RouteLength && ChildrenIn(leaves, nodes)
    requires verb in RouterMethods && BareRoot(leaves, nodes[RouterMethods[verb]])
    requires var p := Join(groups, pattern, h1).pattern;
             |p| > 1 && p[0] == '/' && ':' !in p
    ensures var root := nodes[RouterMethods[verb]];
            var r1 := Join(groups, pattern, h1);
            var r2 := Join(groups, pattern, h2);
            var p := r1.pattern;
            var g := Grown(leaves, root, p, r1.handlers);
            && Wf(g) && ChildrenIn(g, nodes)
            && AddSpec(g, nodes, groups, verb, pattern, h2)
                 == Added(Grown(leaves, root, p, if r2.handlers.Some? then r2.handlers else r1.handlers)
                            + [Leaf(false, p[1], p[1..], "", None, [], r2.handlers)],
                          Ok(NewLeaf(p, r2.handlers)))
  {
    var root := nodes[RouterMethods[verb]];
    var r1 := Join(groups, pattern, h1);
    var p := r1.pattern;
    assert Join(groups, pattern, h2).pattern == p;
    FlushBare(leaves, root, p, r1.handlers);
    var g := Grown(leaves, root, p, r1.handlers);
    AddStatic(g, nodes, groups, verb, pattern, h2);
    FlushAgain(leaves, root, p, r1.handlers, Join(groups, pattern, h2).handlers);
  }


  /** Adding the same static route twice, on a method whose tree was new:
      the second `add` changes no leaf of the tree but the route's own,
      which takes the new handlers unless they are `nil` (one detached leaf
      is left at the end of the arena), and `Match` then finds the latest
      handlers at the route's path and nothing anywhere else. */
  lemma AddStaticTwice(leaves: seq<Leaf>, nodes: seq<nat>, groups: seq<Group>, verb: string,
                       pattern: string, h1: Option<seq<Handler>>, h2: Option<seq<Handler>>, q: string)
    requires Wf(leaves) && |nodes| == RouteLength && ChildrenIn(leaves, nodes)
    requires verb in RouterMethods && BareRoot(leaves, nodes[RouterMethods[verb]])
    requires var p := Join(groups, pattern, h1).pattern;
             |p| > 1 && p[0] == '/' && ':' !in p
    ensures var a1 := AddSpec(leaves, nodes, groups, verb, pattern, h1);
            var r2 := Join(groups, pattern, h2);
            var a2 := AddSpec(a1.leaves, nodes, groups, verb, pattern, h2);
            && a2.res == Ok(NewLeaf(r2.pattern, r2.handlers))
            && |leaves| < |a1.leaves|
            && |a2.leaves| == |a1.leaves| + 1
            && a2.leaves[..|a1.leaves|] == SetHandlers(a1.leaves, |leaves|, r2.handlers)
            && MatchSpec(a2.leaves, nodes, verb, q).handlers
                 == if q == r2.pattern then (if r2.handlers.Some? then r2.handlers else Join(groups, pattern, h1).handlers)
                    else None
  {
    var r1 := Join(groups, pattern, h1);
    var r2 := Join(groups, pattern, h2);
    var p := r1.pattern;
    var root := nodes[RouterMethods[verb]];
    AddGrown(leaves, nodes, groups, verb, pattern, h1);
    AddGrownAgain(leaves, nodes, groups, verb, pattern, h1, h2);
    var hh := if r2.handlers.Some? then r2.handlers else r1.handlers;
    var g2 := Grown(leaves, root, p, hh);
    var x := Leaf(false, p[1], p[1..], "", None, [], r2.handlers);
    GrownHandlers(leaves, root, p, r1.handlers, r2.handlers);
    assert (g2 + [x])[..|g2|] == g2;
    MatchGrown(leaves, root, p, hh, q);
    MatchExtend(g2, x, root, q);
  }

  /** A parameter with an empty name (a `:` followed by `/` or by nothing)
      panics, on a method whose tree is new. */
  lemma AddEmptyParam(leaves: seq<Leaf>, nodes: seq<nat>, groups: seq<Group>, verb: string,
                      pattern: string, handlers: Option<seq<Handler>>, s: string, t: string)
    requires Wf(leaves) && |nodes| == RouteLength && ChildrenIn(leaves, nodes)
    requires verb in RouterMethods && BareRoot(leaves, nodes[RouterMethods[verb]])
    requires Join(groups, pattern, handlers).pattern == s + ":" + t
    requires s != "" && s[0] == '/' && ':' !in s && (t == "" || t[0] == '/')
    ensures AddSpec(leaves, nodes, groups, verb, pattern, handlers).res == Panic(EmptyParam)
  {
    var r := Join(groups, pattern, handlers);
    var p := r.pattern;
    var root := nodes[RouterMethods[verb]];
    var j := |s|;
    AddScanned(leaves, nodes, groups, verb, pattern, handlers);
    assert p[..j] == s && p[j] == ':';
    ScanPrefix(leaves, root, p, j, r.handlers);
    assert ParamStep(leaves, root, p, j, s, r.handlers).step.res == Panic(EmptyParam) by {
      FlushBare(leaves, root, s, None);
      assert p[j + 1..] == t;
      assert RunUntil(p[j + 1..], '/') == 0;
    }
  }


  /** Flushing the static run `s` again under the root of the chain: the
      run is already there, so the scan goes on at its leaf, leaving one
      detached leaf at the end of the arena. */
  lemma FlushOnChain(f: seq<Leaf>, root: nat, n: nat, s: string, name: string, t: string, h: Option<seq<Handler>>)
    requires |s| > 1 && s[0] == '/' && ':' !in s && ParamChain(f, root, n, s, name, t, h)
    ensures Flush(f, root, s, None) == Step(f + [Leaf(false, s[1], s[1..], "", None, [], None)], Ok(n))
  {
    FlushExisting(f, root, n, s, None);
  }

  /** A parameter leaf hung under a static leaf whose first child is a
      parameter leaf of another name panics, naming both. */
  lemma ClashAt(ls: seq<Leaf>, x: nat, p: string, j: nat, name1: string, name2: string, t2: string,
                h: Option<seq<Handler>>)
    requires Wf(ls) && x < |ls| && !ls[x].hasParam && ls[x].children != [] && ls[x].children[0] < |ls|
    requires ls[ls[x].children[0]].hasParam && ls[ls[x].children[0]].param == name1
    requires j < |p| && p[j + 1..] == name2 + t2 && name2 != "" && '/' !in name2 && (t2 == "" || t2[0] == '/')
    requires name1 != name2
    ensures ParamAt(ls, x, p, j, h).step.res == Panic(ParamConflict(name1, name2))
  {
    NameRun(name2, t2);
    assert p[j + 1..j + 1 + |name2|] == name2;
    var pl := NamedParam(p, j, h);
    var m := |ls|;
    var l2 := ls + [pl];
    WfAppend(ls, pl);
    assert l2[x] == ls[x] && l2[m] == pl;
    assert LeafOk(ls, ls[x]);
    var c := ls[x].children[0];
    assert l2[c] == ls[c] && LeafOk(ls, ls[c]);
    assert IndexFrom(l2, l2[x].children, pl.pattern, 0) == 0;
    assert Insert(l2, x, m) == InsertChild(l2, x, m);
  }

  /** At the `:` of `s + ":" + name2 + t2` on the chain of a parameter
      `name1`: the static run is found again, and the new parameter leaf
      clashes with the old one. */
  lemma ChainClash(f: seq<Leaf>, root: nat, n: nat, s: string, name1: string, t1: string,
                   h1: Option<seq<Handler>>, p: string, name2: string, t2: string, h2: Option<seq<Handler>>)
    requires |s| > 1 && s[0] == '/' && ':' !in s && ParamChain(f, root, n, s, name1, t1, h1)
    requires p == s + ":" + name2 + t2 && name2 != "" && '/' !in name2 && (t2 == "" || t2[0] == '/')
    requires name1 != name2
    ensures ParamStep(f, root, p, |s|, s, h2).step.res == Panic(ParamConflict(name1, name2))
  {
    var j := |s|;
    var x := Leaf(false, s[1], s[1..], "", None, [], None);
    var l1 := f + [x];
    FlushOnChain(f, root, n, s, name1, t1, h1);
    WfAppend(f, x);
    assert l1[n] == f[n] && l1[n + 1] == f[n + 1];
    assert p[j + 1..] == name2 + t2;
    ClashAt(l1, n, p, j, name1, name2, t2, h2);
  }

  /** The scan of `add` over `s + ":" + name2 + t2` on the chain of a
      parameter `name1` panics. */
  lemma ConflictScan(f: seq<Leaf>, root: nat, n: nat, s: string, name1: string, t1: string,
                     h1: Option<seq<Handler>>, p: string, name2: string, t2: string, h2: Option<seq<Handler>>)
    requires |s| > 1 && s[0] == '/' && ':' !in s && ParamChain(f, root, n, s, name1, t1, h1)
    requires p == s + ":" + name2 + t2 && name2 != "" && '/' !in name2 && (t2 == "" || t2[0] == '/')
    requires name1 != name2
    ensures AddScan(f, root, p, 0, "", h2).res == Panic(ParamConflict(name1, name2))
  {
    var j := |s|;
    assert p[..j] == s && p[j] == ':';
    ScanPrefix(f, root, p, j, h2);
    ChainClash(f, root, n, s, name1, t1, h1, p, name2, t2, h2);
  }

  /** Two routes with parameters of different names at the same place
      (`/a/:id` then `/a/:name`), on a method whose tree was new: the
      second `add` panics, naming both parameters. */
  lemma AddParamConflict(leaves: seq<Leaf>, nodes: seq<nat>, groups: seq<Group>, verb: string,
                         pattern1: string, h1: Option<seq<Handler>>, pattern2: string, h2: Option<seq<Handler>>,
                         s: string, name1: string, t1: string, name2: string, t2: string)
    requires Wf(leaves) && |nodes| == RouteLength && ChildrenIn(leaves, nodes)
    requires verb in RouterMethods && BareRoot(leaves, nodes[RouterMethods[verb]])
    requires Join(groups, pattern1, h1).pattern == s + ":" + name1 + t1
    requires Join(groups, pattern2, h2).pattern == s + ":" + name2 + t2
    requires |s| > 1 && s[0] == '/' && ':' !in s
    requires name1 != "" && '/' !in name1 && ':' !in t1 && (t1 == "" || t1[0] == '/')
    requires name2 != "" && '/' !in name2 && (t2 == "" || t2[0] == '/')
    requires name1 != name2
    ensures var a1 := AddSpec(leaves, nodes, groups, verb, pattern1, h1);
            AddSpec(a1.leaves, nodes, groups, verb, pattern2, h2).res == Panic(ParamConflict(name1, name2))
  {
    var r1 := Join(groups, pattern1, h1);
    var r2 := Join(groups, pattern2, h2);
    var root := nodes[RouterMethods[verb]];
    AddOneParam(leaves, nodes, groups, verb, pattern1, h1, s, name1, t1);
    OneParamChain(leaves, root, s, name1, t1, r1.handlers);
    var f := OneParam(leaves, root, s, name1, t1, r1.handlers);
    assert ChildrenIn(f, nodes);
    AddScanned(f, nodes, groups, verb, pattern2, h2);
    ConflictScan(f, root, |leaves|, s, name1, t1, r1.handlers, r2.pattern, name2, t2, r2.handlers);
  }

}
