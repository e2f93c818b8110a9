/** The routes and paths of tree_test.go, on a tree just made by `NewTree`,
    as instances of what `RadixComplete` proves for every route of their
    shape. */
module RadixExamples {
  import opened Common
  import opened Router
  import opened Groups
  import opened RadixSpec
  import opened RadixMatch
  import opened RadixComplete
  import opened RadixSplits
  import opened RadixTwoRoutes

  /** The arena `NewTree` makes: the bare root "/" of method slot `k` is
      leaf `k`. */
  function NewLeaves(): (ls: seq<Leaf>)
    ensures |ls| == RouteLength && Wf(ls)
    ensures forall k :: 0 <= k < RouteLength ==> BareRoot(ls, k)
  {
    var ls := seq(RouteLength, _ => NewLeaf("/", None));
    assert forall k :: 0 <= k < RouteLength ==> LeafOk(ls, ls[k]);
    ls
  }

  /** The roots of `NewTree`, one per method slot. */
  function NewNodes(): (ns: seq<nat>)
    ensures |ns| == RouteLength && ChildrenIn(NewLeaves(), ns)
    ensures forall k :: 0 <= k < RouteLength ==> ns[k] == k
  {
    seq(RouteLength, k => k)
  }

  /** The literal facts the examples rest on. */
  lemma Pieces()
    ensures "GET" in RouterMethods && RouterMethods["GET"] == GET
    ensures "/a/:id/id" == "/a/" + ":" + "id" + "/id"
    ensures "/a/123/id" == "/a/" + "123" + "/id"
    ensures "/a/:id" == "/a/" + ":" + "id" + ""
    ensures "/a/:name" == "/a/" + ":" + "name" + ""
    ensures "/p/:/a" == "/p/" + ":" + "/a"
    ensures ':' !in "/a/" && ':' !in "/p/" && ':' !in "/id" && ':' !in "/user/pass"
    ensures '/' !in "id" && '/' !in "name" && '/' !in "123"
    ensures !IsPrefix("/a/", "/abc/1234")
    ensures "id" != "name" && "/user/pass32" != "/user/pass" && "/user/xxx" != "/user/pass"
  {
    assert "/abc/1234"[..3] != "/a/" by {
      assert "/abc/1234"[2] == 'b';
    }
  }

  /** tree_test.go: with "/a/:id/id" added, "/a/123/id" is found with `id`
      bound to "123", and "/abc/1234" finds nothing. */
  lemma ParamRouteExample(p: string, h: seq<Handler>)
    requires p == "/a/:id/id"
    ensures var a := AddSpec(NewLeaves(), NewNodes(), [], "GET", p, Some(h));
            && a.res.Ok?
            && MatchSpec(a.leaves, NewNodes(), "GET", "/a/123/id").handlers == Some(h)
            && MatchSpec(a.leaves, NewNodes(), "GET", "/a/123/id").binds == [Bind("id", "123")]
            && MatchSpec(a.leaves, NewNodes(), "GET", "/abc/1234").handlers == None
  {
    Pieces();
    assert BareRoot(NewLeaves(), NewNodes()[RouterMethods["GET"]]);
    AddParamThenMatch(NewLeaves(), NewNodes(), [], "GET", p, Some(h), "/a/", "id", "/id", "123");
    AddParamMiss(NewLeaves(), NewNodes(), [], "GET", p, Some(h), "/a/", "id", "/id", "/abc/1234");
  }

  /** tree_test.go: with "/user/pass" added, it is found, while
      "/user/pass32" and "/user/xxx" find nothing. */
  lemma StaticRouteExample(p: string, h: seq<Handler>)
    requires p == "/user/pass"
    ensures var a := AddSpec(NewLeaves(), NewNodes(), [], "GET", p, Some(h));
            && a.res.Ok?
            && MatchSpec(a.leaves, NewNodes(), "GET", p).handlers == Some(h)
            && MatchSpec(a.leaves, NewNodes(), "GET", "/user/pass32").handlers == None
            && MatchSpec(a.leaves, NewNodes(), "GET", "/user/xxx").handlers == None
  {
    Pieces();
    assert BareRoot(NewLeaves(), NewNodes()[RouterMethods["GET"]]);
    AddStaticThenMatch(NewLeaves(), NewNodes(), [], "GET", p, Some(h), p);
    AddStaticThenMatch(NewLeaves(), NewNodes(), [], "GET", p, Some(h), "/user/pass32");
    AddStaticThenMatch(NewLeaves(), NewNodes(), [], "GET", p, Some(h), "/user/xxx");
  }

  /** tree_test.go line 68: "/p/:/a" panics for its empty parameter name. */
  lemma EmptyParamExample(p: string, h: seq<Handler>)
    requires p == "/p/:/a"
    ensures AddSpec(NewLeaves(), NewNodes(), [], "GET", p, Some(h)).res == Panic(EmptyParam)
  {
    Pieces();
    assert BareRoot(NewLeaves(), NewNodes()[RouterMethods["GET"]]);
    AddEmptyParam(NewLeaves(), NewNodes(), [], "GET", p, Some(h), "/p/", "/a");
  }

  /** tree_test.go lines 78-79: "/a/:id" then "/a/:name" panics, naming
      both parameters. */
  lemma ParamConflictExample(p1: string, p2: string, h: seq<Handler>)
    requires p1 == "/a/:id" && p2 == "/a/:name"
    ensures var a := AddSpec(NewLeaves(), NewNodes(), [], "GET", p1, Some(h));
            AddSpec(a.leaves, NewNodes(), [], "GET", p2, Some(h)).res == Panic(ParamConflict("id", "name"))
  {
    Pieces();
    assert BareRoot(NewLeaves(), NewNodes()[RouterMethods["GET"]]);
    AddParamConflict(NewLeaves(), NewNodes(), [], "GET", p1, Some(h), p2, Some(h), "/a/", "id", "", "name", "");
  }

  /** `NewTree`'s arena has no children at all, so any rank orders it. */
  lemma NewRanked()
    ensures Ranked(NewLeaves(), seq(RouteLength, _ => 0))
  {
    assert forall k :: 0 <= k < RouteLength ==> NewLeaves()[k].children == [] by {
      forall k | 0 <= k < RouteLength
        ensures NewLeaves()[k].children == []
      {
        assert BareRoot(NewLeaves(), k);
      }
    }
  }

  /** tree_test.go lines 240-250: with "/user/info" and then "/user/pass"
      added, each is found with its own handlers, while "/user/pass32" and
      "/user/xxx" find nothing. */
  lemma SplitExample(p1: string, p2: string, h1: seq<Handler>, h2: seq<Handler>)
    requires p1 == "/user/info" && p2 == "/user/pass"
    ensures var a1 := AddSpec(NewLeaves(), NewNodes(), [], "GET", p1, Some(h1));
            var a2 := AddSpec(a1.leaves, NewNodes(), [], "GET", p2, Some(h2));
            && a1.res.Ok? && a2.res.Ok?
            && MatchSpec(a2.leaves, NewNodes(), "GET", "/user/info").handlers == Some(h1)
            && MatchSpec(a2.leaves, NewNodes(), "GET", "/user/pass").handlers == Some(h2)
            && MatchSpec(a2.leaves, NewNodes(), "GET", "/user/pass32").handlers == None
            && MatchSpec(a2.leaves, NewNodes(), "GET", "/user/xxx").handlers == None
  {
    Pieces();
    NewRanked();
    var s, x, y := "/user/", "info", "pass";
    assert p1 == s + x && p2 == s + y && x[0] != y[0];
    assert ':' !in s && ':' !in x && ':' !in y;
    assert "/user/pass32" != s + x && "/user/xxx" != s + x && "/user/xxx" != s + y;
    assert BareRoot(NewLeaves(), NewNodes()[RouterMethods["GET"]]);
    var rk := seq(RouteLength, _ => 0);
    AddSplitThenMatch(NewLeaves(), rk, NewNodes(), [], "GET", p1, Some(h1), p2, Some(h2), s, x, y, "/user/info");
    AddSplitThenMatch(NewLeaves(), rk, NewNodes(), [], "GET", p1, Some(h1), p2, Some(h2), s, x, y, "/user/pass");
    AddSplitThenMatch(NewLeaves(), rk, NewNodes(), [], "GET", p1, Some(h1), p2, Some(h2), s, x, y, "/user/pass32");
    AddSplitThenMatch(NewLeaves(), rk, NewNodes(), [], "GET", p1, Some(h1), p2, Some(h2), s, x, y, "/user/xxx");
  }

  /** tree_test.go lines 36-37: with "/abcd" and then "/abc" added, each is
      found with its own handlers, and "/ab" finds nothing. */
  lemma ReparentExample(p1: string, p2: string, h1: seq<Handler>, h2: seq<Handler>)
    requires p1 == "/abcd" && p2 == "/abc"
    ensures var a1 := AddSpec(NewLeaves(), NewNodes(), [], "GET", p1, Some(h1));
            var a2 := AddSpec(a1.leaves, NewNodes(), [], "GET", p2, Some(h2));
            && a1.res.Ok? && a2.res.Ok?
            && MatchSpec(a2.leaves, NewNodes(), "GET", "/abcd").handlers == Some(h1)
            && MatchSpec(a2.leaves, NewNodes(), "GET", "/abc").handlers == Some(h2)
            && MatchSpec(a2.leaves, NewNodes(), "GET", "/ab").handlers == None
  {
    Pieces();
    NewRanked();
    var s, x := "/abc", "d";
    assert p1 == s + x && ':' !in s && ':' !in x;
    assert "/ab" != s && "/ab" != s + x && "/abcd" != s;
    assert BareRoot(NewLeaves(), NewNodes()[RouterMethods["GET"]]);
    var rk := seq(RouteLength, _ => 0);
    AddReparentThenMatch(NewLeaves(), rk, NewNodes(), [], "GET", p1, Some(h1), p2, Some(h2), s, x, "/abcd");
    AddReparentThenMatch(NewLeaves(), rk, NewNodes(), [], "GET", p1, Some(h1), p2, Some(h2), s, x, "/abc");
    AddReparentThenMatch(NewLeaves(), rk, NewNodes(), [], "GET", p1, Some(h1), p2, Some(h2), s, x, "/ab");
  }
}
