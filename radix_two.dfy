/** Two static routes added one after the other to a method whose tree is
    new, where the second shares more than the leading "/" with the first:
    either the second is a proper prefix of the first, and `insert`
    reparents (tree.go lines 304-311), or the two part after a common
    prefix, and `insert` splits (lines 331-339). In both cases `Match` then
    finds each route at its own path with its own handlers, and nothing
    anywhere else. */
module RadixTwoRoutes {
  import opened Common
  import opened Router
  import opened Groups
  import opened RadixSpec
  import opened RadixMatch
  import opened RadixComplete
  import opened RadixSplits

  /** A rank for the arena after a route was grown under a bare root and
      one more leaf appended: every old leaf one above its old rank, the two
      new leaves at the bottom. */
  function Lifted(rk: seq<nat>): (r: seq<nat>)
    ensures |r| == |rk| + 2 && r[|rk|] == 0 && r[|rk| + 1] == 0
    ensures forall x :: 0 <= x < |rk| ==> r[x] == rk[x] + 1
  {
    seq(|rk|, x requires 0 <= x < |rk| => rk[x] + 1) + [0, 0]
  }

  /** The detached static leaf `Attach` appends for the run `s`, once cut
      after its first `cut` bytes. */
  function Detached(s: string, cut: nat, h: Option<seq<Handler>>): Leaf
    requires cut < |s|
  {
    Leaf(false, s[cut], s[cut..], "", None, [], h)
  }

  /** The arena `Grown` leaves with one detached static leaf appended meets
      every hypothesis of the splices of `insert`, for the grown leaf under
      the root and the appended one. */
  lemma SpliceOnGrown(leaves: seq<Leaf>, rk: seq<nat>, root: nat, s: string, h: Option<seq<Handler>>, x: Leaf)
    requires Wf(leaves) && BareRoot(leaves, root) && Ranked(leaves, rk)
    requires |s| > 1 && s[0] == '/' && ':' !in s
    requires !x.hasParam && x.children == [] && x.parent == None && x.pattern != ""
    requires x.alpha == x.pattern[0] && ':' !in x.pattern
    ensures var a := Grown(leaves, root, s, h) + [x];
            && Wf(Grown(leaves, root, s, h)) && Wf(a)
            && Splice(a, Lifted(rk), |leaves|, |leaves| + 1, root)
  {
    var g := Grown(leaves, root, s, h);
    var a := g + [x];
    var n := |leaves|;
    MatchGrown(leaves, root, s, h, s);
    assert LeafOk(a, x);
    WfAppend(g, x);
    var rank := Lifted(rk);
    forall y, j | 0 <= y < |a| && 0 <= j < |a[y].children| && a[y].children[j] < |a|
      ensures rank[a[y].children[j]] < rank[y] && a[y].children[j] != n + 1
      ensures a[y].children[j] == n ==> y == root
    {
      if y < n && y != root {
        assert LeafOk(leaves, leaves[y]);
        assert a[y] == leaves[y];
      }
    }
    assert Ranked(a, rank);
    assert Distinct(a, root);
  }

  /** Flushing a static run `s` under a static root "/": the new leaf, cut
      after the "/", is scanned against the children of the root. */
  lemma FlushUnder(f: seq<Leaf>, root: nat, s: string, h: Option<seq<Handler>>)
    requires Wf(f) && root < |f| && !f[root].hasParam && f[root].pattern == "/"
    requires |s| > 1 && s[0] == '/' && ':' !in s
    ensures Wf(f + [Detached(s, 1, h)])
    ensures Flush(f, root, s, h) == Scan(f + [Detached(s, 1, h)], root, |f|, 0)
  {
    var m := |f|;
    var l0 := f + [NewLeaf(s, h)];
    assert l0[root] == f[root] && l0[m] == NewLeaf(s, h);
    assert LCP("/", s) == 1 by {
      LCPUnique("/", s, 1);
    }
    NoColonSuffix(s, 1);
    WfAppend(f, NewLeaf(s, h));
    WfResetPattern(l0, m, s[1..]);
    var l1 := ResetPattern(l0, m, s[1..]);
    assert l1 == f + [Detached(s, 1, h)];
    assert Insert(l0, root, m) == Scan(l1, root, m, 0);
  }

  /** The scan of a new static leaf under a leaf whose only child is
      static, differs from it and agrees with it on the first byte: the
      new leaf is handed down to that child. */
  lemma ScanInto(f: seq<Leaf>, root: nat, n: nat, m: nat)
    requires Wf(f) && root < |f| && n < |f| && m < |f| && f[root].children == [n]
    requires !f[n].hasParam && !f[m].hasParam && f[n].pattern != f[m].pattern && f[n].alpha == f[m].alpha
    ensures Scan(f, root, m, 0) == Insert(f, n, m)
  {
    assert LeafOk(f, f[n]) && LeafOk(f, f[m]);
    assert LCP(f[n].pattern, f[m].pattern) > 0 by {
      assert f[n].pattern[0] == f[m].pattern[0];
    }
  }

  /** `insert` of a static leaf whose pattern is a proper prefix of the
      static leaf it meets: the reparenting splice. */
  lemma InsertPrefix(f: seq<Leaf>, n: nat, m: nat, p: nat)
    requires Wf(f) && n < |f| && m < |f| && p < |f| && f[n].parent == Some(p)
    requires !f[n].hasParam && !f[m].hasParam && f[n].pattern != f[m].pattern
    requires IsPrefix(f[m].pattern, f[n].pattern)
    ensures Insert(f, n, m) == Reparent(f, n, m, p, |f[m].pattern|)
  {
    LCPUnique(f[n].pattern, f[m].pattern, |f[m].pattern|);
  }

  /** `insert` of a static leaf that parts from the static leaf it meets
      after `k` common bytes, neither pattern ending there: the new leaf is
      cut to what follows the common part, and the split splice runs. */
  lemma InsertParting(f: seq<Leaf>, n: nat, m: nat, p: nat, k: nat)
    requires Wf(f) && n < |f| && m < |f| && p < |f| && f[n].parent == Some(p)
    requires !f[n].hasParam && !f[m].hasParam
    requires 0 < k < |f[n].pattern| && k < |f[m].pattern|
    requires f[n].pattern[..k] == f[m].pattern[..k] && f[n].pattern[k] != f[m].pattern[k]
    ensures Wf(ResetPattern(f, m, f[m].pattern[k..]))
    ensures Insert(f, n, m) == Split(ResetPattern(f, m, f[m].pattern[k..]), n, m, p, k)
  {
    assert LeafOk(f, f[m]);
    NoColonSuffix(f[m].pattern, k);
    WfResetPattern(f, m, f[m].pattern[k..]);
    LCPUnique(f[n].pattern, f[m].pattern, k);
    assert f[n].pattern != f[m].pattern;
  }

  /** At a static root "/" whose only child is static, a match goes on at
      that child with the rest `t` exactly when the path is "/" then `t`. */
  lemma HopToChild(f: seq<Leaf>, root: nat, n: nat, t: string, q: string)
    requires Wf(f) && root < |f| && n < |f| && !f[root].hasParam && f[root].pattern == "/"
    requires f[root].children == [n] && !f[n].hasParam && t != "" && f[n].alpha == t[0]
    ensures var h := HopAt(f, root, q);
            h.Go? && h.next == n && h.rest == t <==> q == "/" + t
  {
    if q == "/" + t {
      assert q[..1] == "/" && q[1..] == t;
      assert NextChild(f, root, q[1]) == Some(n);
    }
  }

  /** Under a static root "/" whose only child `n` is static, inserting a
      static leaf `m` whose pattern `t` is a proper prefix of `n`'s: the
      route "/" then `t` is found with the handlers of `m`, and every other
      path finds and binds what it did before. */
  lemma ReparentFound(f: seq<Leaf>, rank: seq<nat>, root: nat, n: nat, m: nat, q: string)
    requires Splice(f, rank, n, m, root) && f[n].parent == Some(root)
    requires !f[root].hasParam && f[root].pattern == "/" && f[root].children == [n]
    requires |f[m].pattern| < |f[n].pattern| && IsPrefix(f[m].pattern, f[n].pattern)
    ensures var s := Insert(f, n, m);
            && s.res.Ok?
            && MatchFrom(s.leaves, root, q).handlers
                 == (if q == "/" + f[m].pattern then f[m].handlers else MatchFrom(f, root, q).handlers)
            && MatchFrom(s.leaves, root, q).binds == MatchFrom(f, root, q).binds
  {
    InsertPrefix(f, n, m, root);
    ReparentKeeps(f, rank, n, m, root, |f[m].pattern|, q);
    var t := f[m].pattern;
    assert LeafOk(f, f[m]) && LeafOk(f, f[n]);
    assert f[n].alpha == t[0] by {
      assert f[n].pattern[..|t|] == t;
      assert f[n].pattern[..|t|][0] == f[n].pattern[0];
    }
    HopToChild(f, root, n, t, q);
  }

  /** Cutting the orphan leaf `m` of a splice down to what follows its
      first `k` bytes keeps every hypothesis of the splice and every match
      from the root. */
  lemma CutOrphan(f: seq<Leaf>, rank: seq<nat>, root: nat, n: nat, m: nat, k: nat, q: string)
    requires Splice(f, rank, n, m, root) && k < |f[m].pattern|
    requires Wf(ResetPattern(f, m, f[m].pattern[k..]))
    ensures Splice(ResetPattern(f, m, f[m].pattern[k..]), rank, n, m, root)
    ensures MatchFrom(ResetPattern(f, m, f[m].pattern[k..]), root, q) == MatchFrom(f, root, q)
  {
    var l2 := ResetPattern(f, m, f[m].pattern[k..]);
    assert forall x :: 0 <= x < |f| ==> l2[x].children == f[x].children;
    assert root != m && n != m;
    assert Frozen(f, l2, rank, rank[root] + 1, {m});
    MatchSame(f, l2, rank, rank[root] + 1, {m}, root, q);
  }

  /** Under a static root "/" whose only child `n` is static, inserting a
      static leaf `m` that parts from `n` after `k` common bytes: the route
      "/" then `m`'s pattern is found with the handlers of `m`, and every
      other path finds and binds what it did before. */
  lemma SplitFound(f: seq<Leaf>, rank: seq<nat>, root: nat, n: nat, m: nat, k: nat, q: string)
    requires Splice(f, rank, n, m, root) && f[n].parent == Some(root)
    requires !f[root].hasParam && f[root].pattern == "/" && f[root].children == [n]
    requires 0 < k < |f[n].pattern| && k < |f[m].pattern|
    requires f[n].pattern[..k] == f[m].pattern[..k] && f[n].pattern[k] != f[m].pattern[k]
    ensures var s := Insert(f, n, m);
            && s.res.Ok?
            && MatchFrom(s.leaves, root, q).handlers
                 == (if q == "/" + f[m].pattern then f[m].handlers else MatchFrom(f, root, q).handlers)
            && MatchFrom(s.leaves, root, q).binds == MatchFrom(f, root, q).binds
  {
    var t := f[m].pattern;
    InsertParting(f, n, m, root, k);
    CutOrphan(f, rank, root, n, m, k, q);
    var l2 := ResetPattern(f, m, t[k..]);
    assert l2[n].pattern == f[n].pattern && l2[m].pattern == t[k..] && l2[m].handlers == f[m].handlers;
    assert l2[m].alpha == t[k] != l2[n].pattern[k];
    assert l2[n].pattern[..k] == t[..k];
    assert l2[n].alpha == t[0] by {
      assert LeafOk(f, f[n]);
      assert f[n].pattern[..k][0] == f[n].pattern[0];
    }
    SplitUnderRoot(l2, rank, root, n, m, k, t, q);
  }

  /** The split splice of a static leaf `m` under the only child `n` of a
      static root "/", where `n`'s first `k` bytes and `m` spell `t`: the
      route "/" then `t` is found with the handlers of `m`, and every other
      path finds and binds what it did before. */
  lemma SplitUnderRoot(l: seq<Leaf>, rank: seq<nat>, root: nat, n: nat, m: nat, k: nat, t: string, q: string)
    requires Splice(l, rank, n, m, root)
    requires !l[root].hasParam && l[root].pattern == "/" && l[root].children == [n]
    requires 0 < k < |l[n].pattern| && l[m].alpha != l[n].pattern[k]
    requires k < |t| && l[n].pattern[..k] == t[..k] && l[m].pattern == t[k..] && l[n].alpha == t[0]
    ensures var s := Split(l, n, m, root, k);
            && s.res.Ok?
            && MatchFrom(s.leaves, root, q).handlers
                 == (if q == "/" + t then l[m].handlers else MatchFrom(l, root, q).handlers)
            && MatchFrom(s.leaves, root, q).binds == MatchFrom(l, root, q).binds
  {
    assert l[n].pattern[..k] + l[m].pattern == t;
    SplitKeeps(l, rank, n, m, root, k, q);
    HopToChild(l, root, n, t, q);
  }

  /** The arena after a second static run `s2` was flushed under the root
      `Grown` left for `s1`, where the two differ but agree on the byte
      after the "/": the leaves `ScanInto` and the splices look at. */
  lemma GrownPair(leaves: seq<Leaf>, root: nat, s1: string, h1: Option<seq<Handler>>,
                  s2: string, h2: Option<seq<Handler>>)
    requires Wf(leaves) && BareRoot(leaves, root)
    requires |s1| > 1 && s1[0] == '/' && |s2| > 1 && s2[0] == '/' && s1 != s2 && s1[1] == s2[1]
    ensures var l1 := Grown(leaves, root, s1, h1) + [Detached(s2, 1, h2)];
            var n := |leaves|;
            && |l1| == n + 2 && l1[n].parent == Some(root)
            && !l1[root].hasParam && l1[root].pattern == "/" && l1[root].children == [n]
            && !l1[n].hasParam && !l1[n + 1].hasParam && l1[n].alpha == l1[n + 1].alpha
            && l1[n].pattern == s1[1..] && l1[n + 1].pattern == s2[1..] && l1[n + 1].handlers == h2
            && s1[1..] != s2[1..]
  {
    assert s1 == [s1[0]] + s1[1..] && s2 == [s2[0]] + s2[1..];
  }

  /** Flushing a static run `s` under a static root "/" whose only child
      `n` is static and spells more than the rest of `s` after the "/":
      the route `s` is then found with its handlers `h`, and every other
      path finds and binds what it did before. */
  lemma FlushPrefixFound(g: seq<Leaf>, rank: seq<nat>, root: nat, n: nat, s: string,
                         h: Option<seq<Handler>>, q: string)
    requires Wf(g) && root < |g| && n < |g| && g[n].parent == Some(root)
    requires !g[root].hasParam && g[root].pattern == "/" && g[root].children == [n] && !g[n].hasParam
    requires |s| > 1 && s[0] == '/' && ':' !in s
    requires |s[1..]| < |g[n].pattern| && IsPrefix(s[1..], g[n].pattern)
    requires Wf(g + [Detached(s, 1, h)]) && Splice(g + [Detached(s, 1, h)], rank, n, |g|, root)
    ensures var f := Flush(g, root, s, h);
            && f.res.Ok?
            && MatchFrom(f.leaves, root, q).handlers == (if q == s then h else MatchFrom(g, root, q).handlers)
            && MatchFrom(f.leaves, root, q).binds == MatchFrom(g, root, q).binds
  {
    var m := |g|;
    var l1 := g + [Detached(s, 1, h)];
    FlushUnder(g, root, s, h);
    assert l1[root] == g[root] && l1[n] == g[n];
    assert l1[m].pattern == s[1..] && l1[m].handlers == h;
    assert g[n].alpha == s[1] by {
      assert LeafOk(g, g[n]);
      assert g[n].pattern[..|s[1..]|][0] == g[n].pattern[0];
    }
    ScanInto(l1, root, n, m);
    ReparentFound(l1, rank, root, n, m, q);
    MatchExtend(g, Detached(s, 1, h), root, q);
    assert "/" + s[1..] == s;
  }

  /** Flushing a static run `s` under a static root "/" whose only child
      `n` is static and parts from the rest of `s` after the "/" after `k`
      common bytes: the route `s` is then found with its handlers `h`, and
      every other path finds and binds what it did before. */
  lemma FlushPartingFound(g: seq<Leaf>, rank: seq<nat>, root: nat, n: nat, s: string,
                          h: Option<seq<Handler>>, k: nat, q: string)
    requires Wf(g) && root < |g| && n < |g| && g[n].parent == Some(root)
    requires !g[root].hasParam && g[root].pattern == "/" && g[root].children == [n] && !g[n].hasParam
    requires |s| > 1 && s[0] == '/' && ':' !in s
    requires 0 < k < |g[n].pattern| && k < |s[1..]|
    requires g[n].pattern[..k] == s[1..][..k] && g[n].pattern[k] != s[1..][k]
    requires Wf(g + [Detached(s, 1, h)]) && Splice(g + [Detached(s, 1, h)], rank, n, |g|, root)
    ensures var f := Flush(g, root, s, h);
            && f.res.Ok?
            && MatchFrom(f.leaves, root, q).handlers == (if q == s then h else MatchFrom(g, root, q).handlers)
            && MatchFrom(f.leaves, root, q).binds == MatchFrom(g, root, q).binds
  {
    var m := |g|;
    var l1 := g + [Detached(s, 1, h)];
    FlushUnder(g, root, s, h);
    assert l1[root] == g[root] && l1[n] == g[n];
    assert l1[m].pattern == s[1..] && l1[m].handlers == h;
    assert g[n].alpha == s[1] by {
      assert LeafOk(g, g[n]);
      assert g[n].pattern[..k][0] == g[n].pattern[0];
    }
    ScanInto(l1, root, n, m);
    SplitFound(l1, rank, root, n, m, k, q);
    MatchExtend(g, Detached(s, 1, h), root, q);
    assert "/" + s[1..] == s;
  }

  /** Adding the static run `s` after `s + x` under a bare root: `insert`
      reparents, and a match from the root then finds the handlers of `s`
      at `s`, those of `s + x` at `s + x`, nothing anywhere else, and binds
      nothing. */
  lemma ReparentOnGrown(leaves: seq<Leaf>, rk: seq<nat>, root: nat, s: string, x: string,
                        h1: Option<seq<Handler>>, h2: Option<seq<Handler>>, q: string)
    requires Wf(leaves) && BareRoot(leaves, root) && Ranked(leaves, rk)
    requires |s| > 1 && s[0] == '/' && ':' !in s && ':' !in x && x != ""
    ensures ':' !in s + x && Wf(Grown(leaves, root, s + x, h1))
    ensures var f := Flush(Grown(leaves, root, s + x, h1), root, s, h2);
            && f.res.Ok?
            && MatchFrom(f.leaves, root, q).handlers == (if q == s then h2 else if q == s + x then h1 else None)
            && MatchFrom(f.leaves, root, q).binds == []
  {
    var s1 := s + x;
    assert ':' !in s1 && s1[1] == s[1] && s1[1..] == s[1..] + x && s1 != s;
    var g := Grown(leaves, root, s1, h1);
    MatchGrown(leaves, root, s1, h1, q);
    GrownPair(leaves, root, s1, h1, s, h2);
    SpliceOnGrown(leaves, rk, root, s1, h1, Detached(s, 1, h2));
    assert IsPrefix(s[1..], s1[1..]) by {
      assert (s[1..] + x)[..|s[1..]|] == s[1..];
    }
    FlushPrefixFound(g, Lifted(rk), root, |leaves|, s, h2, q);
  }

  /** Adding the static run `s + y` after `s + x` under a bare root, where
      `x` and `y` differ in their first byte: `insert` splits, and a match
      from the root then finds the handlers of each route at its own path,
      nothing anywhere else, and binds nothing. */
  lemma SplitOnGrown(leaves: seq<Leaf>, rk: seq<nat>, root: nat, s: string, x: string, y: string,
                     h1: Option<seq<Handler>>, h2: Option<seq<Handler>>, q: string)
    requires Wf(leaves) && BareRoot(leaves, root) && Ranked(leaves, rk)
    requires |s| > 1 && s[0] == '/' && ':' !in s && ':' !in x && ':' !in y
    requires x != "" && y != "" && x[0] != y[0]
    ensures ':' !in s + x && ':' !in s + y && Wf(Grown(leaves, root, s + x, h1))
    ensures var f := Flush(Grown(leaves, root, s + x, h1), root, s + y, h2);
            && f.res.Ok?
            && MatchFrom(f.leaves, root, q).handlers
                 == (if q == s + y then h2 else if q == s + x then h1 else None)
            && MatchFrom(f.leaves, root, q).binds == []
  {
    var s1 := s + x;
    var s2 := s + y;
    var k := |s| - 1;
    assert ':' !in s1 && ':' !in s2 && s1[1] == s2[1];
    assert s1[1..] == s[1..] + x && s2[1..] == s[1..] + y;
    assert s1[1..][..k] == s2[1..][..k] && s1[1..][k] == x[0] && s2[1..][k] == y[0];
    assert s1 != s2;
    var g := Grown(leaves, root, s1, h1);
    MatchGrown(leaves, root, s1, h1, q);
    GrownPair(leaves, root, s1, h1, s2, h2);
    SpliceOnGrown(leaves, rk, root, s1, h1, Detached(s2, 1, h2));
    FlushPartingFound(g, Lifted(rk), root, |leaves|, s2, h2, k, q);
  }

  /** tree_test.go's "/user/info" then "/user/pass": two static routes
      `s + x` and `s + y`, parting after more than the "/", added one after
      the other to a method whose tree is new. Both `add`s succeed, and
      `Match` then finds each route at exactly its own path with its own
      handlers and no parameters; every other path finds nothing. */
  lemma AddSplitThenMatch(leaves: seq<Leaf>, rk: seq<nat>, nodes: seq<nat>, groups: seq<Group>, verb: string,
                          p1: string, h1: Option<seq<Handler>>, p2: string, h2: Option<seq<Handler>>,
                          s: string, x: string, y: string, q: string)
    requires Wf(leaves) && |nodes| == RouteLength && ChildrenIn(leaves, nodes) && Ranked(leaves, rk)
    requires verb in RouterMethods && BareRoot(leaves, nodes[RouterMethods[verb]])
    requires Join(groups, p1, h1).pattern == s + x && Join(groups, p2, h2).pattern == s + y
    requires |s| > 1 && s[0] == '/' && ':' !in s && ':' !in x && ':' !in y
    requires x != "" && y != "" && x[0] != y[0]
    ensures var a1 := AddSpec(leaves, nodes, groups, verb, p1, h1);
            var a2 := AddSpec(a1.leaves, nodes, groups, verb, p2, h2);
            && a1.res.Ok? && a2.res.Ok?
            && MatchSpec(a2.leaves, nodes, verb, q).handlers
                 == (if q == s + y then Join(groups, p2, h2).handlers
                     else if q == s + x then Join(groups, p1, h1).handlers else None)
            && MatchSpec(a2.leaves, nodes, verb, q).binds == []
  {
    var root := nodes[RouterMethods[verb]];
    var r1 := Join(groups, p1, h1);
    var r2 := Join(groups, p2, h2);
    SplitOnGrown(leaves, rk, root, s, x, y, r1.handlers, r2.handlers, q);
    AddGrown(leaves, nodes, groups, verb, p1, h1);
    var g := Grown(leaves, root, s + x, r1.handlers);
    assert ChildrenIn(g, nodes);
    assert (s + y)[0] == '/';
    AddStatic(g, nodes, groups, verb, p2, h2);
  }

  /** tree_test.go's "/abcd" then "/abc": a static route `s + x`, then its
      proper prefix `s` (longer than "/"), added to a method whose tree is
      new. Both `add`s succeed, and `Match` then finds each route at
      exactly its own path with its own handlers and no parameters; every
      other path finds nothing. */
  lemma AddReparentThenMatch(leaves: seq<Leaf>, rk: seq<nat>, nodes: seq<nat>, groups: seq<Group>, verb: string,
                             p1: string, h1: Option<seq<Handler>>, p2: string, h2: Option<seq<Handler>>,
                             s: string, x: string, q: string)
    requires Wf(leaves) && |nodes| == RouteLength && ChildrenIn(leaves, nodes) && Ranked(leaves, rk)
    requires verb in RouterMethods && BareRoot(leaves, nodes[RouterMethods[verb]])
    requires Join(groups, p1, h1).pattern == s + x && Join(groups, p2, h2).pattern == s
    requires |s| > 1 && s[0] == '/' && ':' !in s && ':' !in x && x != ""
    ensures var a1 := AddSpec(leaves, nodes, groups, verb, p1, h1);
            var a2 := AddSpec(a1.leaves, nodes, groups, verb, p2, h2);
            && a1.res.Ok? && a2.res.Ok?
            && MatchSpec(a2.leaves, nodes, verb, q).handlers
                 == (if q == s then Join(groups, p2, h2).handlers
                     else if q == s + x then Join(groups, p1, h1).handlers else None)
            && MatchSpec(a2.leaves, nodes, verb, q).binds == []
  {
    var root := nodes[RouterMethods[verb]];
    var r1 := Join(groups, p1, h1);
    var r2 := Join(groups, p2, h2);
    ReparentOnGrown(leaves, rk, root, s, x, r1.handlers, r2.handlers, q);
    AddGrown(leaves, nodes, groups, verb, p1, h1);
    var g := Grown(leaves, root, s + x, r1.handlers);
    assert ChildrenIn(g, nodes);
    assert (s + x)[0] == '/';
    AddStatic(g, nodes, groups, verb, p2, h2);
  }
}
