/** The radix-tree router of tree.go. Its leaves live in the arena
    `leaves` of the `Tree` (a `*Leaf` is an index into it); each method
    below changes the arena in place, as the Go code changes the leaves, and
    is proved to produce exactly the arena the functions of `RadixSpec`
    describe. */
module RadixTree {
  import opened Common
  import opened Router
  import opened Groups
  import opened Fmt
  import opened Names
  import opened RadixSpec
  import opened RadixMatch
  import opened RadixRoutes
  import Contexts

  class Tree {
    var autoHead: bool
    var autoTrailingSlash: bool
    /** The active groups of `GroupAdd`, outermost first. */
    var groups: seq<Group>
    /** The root leaf of each method, by slot. */
    var nodes: seq<nat>
    /** The format of each named route. */
    var namedNodes: map<string, string>
    /** Every leaf ever allocated for this tree. */
    var leaves: seq<Leaf>

    /** The arena keeps its shape and every method has its root in it. */
    ghost predicate Valid()
      reads this
    {
      Wf(leaves) && |nodes| == RouteLength && ChildrenIn(leaves, nodes)
    }

    /** `NewTree(b)`: one "/" root per method, no names, no groups. */
    constructor ()
      ensures Valid()
      ensures |leaves| == RouteLength
      ensures forall k :: 0 <= k < RouteLength ==> nodes[k] == k && leaves[k] == NewLeaf("/", None)
      ensures namedNodes == map[] && groups == [] && !autoHead && !autoTrailingSlash
    {
      autoHead := false;
      autoTrailingSlash := false;
      groups := [];
      namedNodes := map[];
      var ls: seq<Leaf> := [];
      var ns: seq<nat> := [];
      var i := 0;
      while i < RouteLength
        invariant 0 <= i <= RouteLength
        invariant |ls| == i && |ns| == i
        invariant forall k :: 0 <= k < i ==> ns[k] == k && ls[k] == NewLeaf("/", None)
      {
        ls := ls + [NewLeaf("/", None)];
        ns := ns + [i];
        i := i + 1;
      }
      leaves := ls;
      nodes := ns;
    }

    /** `SetAutoHead(v)`. */
    method SetAutoHead(v: bool)
      modifies this
      ensures autoHead == v && autoTrailingSlash == old(autoTrailingSlash)
      ensures leaves == old(leaves) && nodes == old(nodes) && groups == old(groups) && namedNodes == old(namedNodes)
    {
      autoHead := v;
    }

    /** `SetAutoTrailingSlash(v)`. */
    method SetAutoTrailingSlash(v: bool)
      modifies this
      ensures autoTrailingSlash == v && autoHead == old(autoHead)
      ensures leaves == old(leaves) && nodes == old(nodes) && groups == old(groups) && namedNodes == old(namedNodes)
    {
      autoTrailingSlash := v;
    }

    /** `l.hasPrefixString(s)`: the length of the longest common prefix of
        `s` and the pattern of leaf `l`. */
    method HasPrefixString(l: nat, s: string) returns (pos: nat)
      requires l < |leaves|
      ensures pos == LCP(leaves[l].pattern, s)
      ensures pos <= |s| && pos <= |leaves[l].pattern|
    {
      var p := leaves[l].pattern;
      var j := |p|;
      if |s| < j {
        j := |s|;
      }
      var i := 0;
      while i < j && s[i] == p[i]
        invariant 0 <= i <= j
        invariant p[..i] == s[..i]
      {
        assert p[..i + 1] == p[..i] + [p[i]] && s[..i + 1] == s[..i] + [s[i]];
        i := i + 1;
      }
      LCPUnique(p, s, i);
      pos := i;
    }

    /** `l.findChild(b)`: the first static child of `l` whose pattern
        starts with `b`. */
    method FindChild(l: nat, b: char) returns (r: Option<nat>)
      requires Valid() && l < |leaves|
      ensures assert LeafOk(leaves, leaves[l]); r == FindFrom(leaves, leaves[l].children, b, 0)
      ensures r.Some? ==> r.value in leaves[l].children && !leaves[r.value].hasParam && leaves[r.value].alpha == b
    {
      assert LeafOk(leaves, leaves[l]);
      var cs := leaves[l].children;
      var i := 0;
      while i < |cs|
        invariant 0 <= i <= |cs|
        invariant FindFrom(leaves, cs, b, i) == FindFrom(leaves, cs, b, 0)
      {
        if leaves[cs[i]].alpha == b && !leaves[cs[i]].hasParam {
          return Some(cs[i]);
        }
        i := i + 1;
      }
      return None;
    }

    /** `l.deleteChild(node)`. */
    method DeleteChild(l: nat, node: nat)
      requires Valid() && l < |leaves| && node < |leaves|
      modifies this
      ensures leaves == RadixSpec.DeleteChild(old(leaves), l, node)
      ensures Valid()
      ensures nodes == old(nodes) && groups == old(groups) && namedNodes == old(namedNodes)
      ensures autoHead == old(autoHead) && autoTrailingSlash == old(autoTrailingSlash)
    {
      WfDeleteChild(leaves, l, node);
      assert LeafOk(leaves, leaves[l]);
      var cs := leaves[l].children;
      var p := leaves[node].pattern;
      var i := 0;
      while i < |cs|
        invariant 0 <= i <= |cs|
        invariant IndexFrom(leaves, cs, p, i) == IndexFrom(leaves, cs, p, 0)
      {
        if leaves[cs[i]].pattern != p {
          i := i + 1;
          continue;
        }
        var rest: seq<nat>;
        if |cs| == 1 {
          rest := cs[..0];
          assert rest == cs[..i] + cs[i + 1..];
        } else if i == 0 {
          rest := cs[1..];
          assert rest == cs[..i] + cs[i + 1..];
        } else if i + 1 == |cs| {
          rest := cs[..i];
          assert rest == cs[..i] + cs[i + 1..];
        } else {
          rest := cs[..i] + cs[i + 1..];
        }
        leaves := leaves[l := leaves[l].(children := rest)];
        return;
      }
    }

    /** `l.insertChild(node)`: the child that now carries the pattern of
        `node`, or the panic for two parameter names at one place. */
    method InsertChild(l: nat, node: nat) returns (r: Result<nat>)
      requires Valid() && l < |leaves| && node < |leaves|
      requires leaves[l].hasParam ==> !leaves[node].hasParam
      modifies this
      ensures Step(leaves, r) == RadixSpec.InsertChild(old(leaves), l, node)
      ensures Valid()
      ensures nodes == old(nodes) && groups == old(groups) && namedNodes == old(namedNodes)
      ensures autoHead == old(autoHead) && autoTrailingSlash == old(autoTrailingSlash)
    {
      WfInsertChild(leaves, l, node);
      assert LeafOk(leaves, leaves[l]);
      var cs := leaves[l].children;
      var n := leaves[node];
      var i := 0;
      while i < |cs|
        invariant 0 <= i <= |cs|
        invariant IndexFrom(leaves, cs, n.pattern, i) == IndexFrom(leaves, cs, n.pattern, 0)
      {
        var c := leaves[cs[i]];
        if c.pattern == n.pattern {
          if c.hasParam && n.hasParam && c.param != n.param {
            return Panic(ParamConflict(c.param, n.param));
          }
          if n.handlers.Some? {
            leaves := leaves[cs[i] := c.(handlers := n.handlers)];
          }
          return Ok(cs[i]);
        }
        i := i + 1;
      }
      leaves := leaves[node := n.(parent := Some(l))];
      var children := leaves[l].children + [node];
      leaves := leaves[l := leaves[l].(children := children)];
      i := |children| - 1;
      if i > 0 && leaves[children[i]].hasParam {
        children := children[0 := children[i]][i := children[0]];
        leaves := leaves[l := leaves[l].(children := children)];
        return Ok(children[0]);
      }
      return Ok(node);
    }

    /** `l.resetPattern(p)`: Go indexes `p[0]`, so `p` is never empty. */
    method ResetPattern(l: nat, p: string)
      requires Valid() && l < |leaves| && p != ""
      requires !leaves[l].hasParam && ':' !in p
      modifies this
      ensures leaves == RadixSpec.ResetPattern(old(leaves), l, p)
      ensures Valid()
      ensures nodes == old(nodes) && groups == old(groups) && namedNodes == old(namedNodes)
      ensures autoHead == old(autoHead) && autoTrailingSlash == old(autoTrailingSlash)
    {
      WfResetPattern(leaves, l, p);
      leaves := leaves[l := leaves[l].(pattern := p, alpha := p[0])];
    }
  
    /** `t.insert(root, node)`: splices the detached leaf `node` into the
        subtree at `root` and returns the leaf that now carries its
        pattern. */
    method Insert(root: nat, node: nat) returns (r: Result<nat>)
      requires Valid() && root < |leaves| && node < |leaves|
      modifies this
      ensures Step(leaves, r) == RadixSpec.Insert(old(leaves), root, node)
      ensures Valid()
      ensures nodes == old(nodes) && groups == old(groups) && namedNodes == old(namedNodes)
      ensures autoHead == old(autoHead) && autoTrailingSlash == old(autoTrailingSlash)
      decreases |leaves[node].pattern|, if leaves[root].hasParam then 2 else 0
    {
      var rl := leaves[root];
      var nl := leaves[node];
      assert LeafOk(leaves, rl) && LeafOk(leaves, nl);
      if rl.pattern == nl.pattern {
        WfSetHandlers(leaves, root, nl.handlers);
        if nl.handlers.Some? {
          leaves := leaves[root := rl.(handlers := nl.handlers)];
        }
        return Ok(root);
      }
      if !rl.hasParam && nl.hasParam {
        r := InsertChild(root, node);
        return;
      }
      if rl.hasParam && !nl.hasParam {
        r := InsertBelow(root, node);
        return;
      }
      var pos := HasPrefixString(root, nl.pattern);
      if pos == |nl.pattern| {
        if rl.parent.None? {
          return Panic(NilDeref);
        }
        r := Reparent(root, node, rl.parent.value, pos);
        return;
      }
      NoColonSuffix(nl.pattern, pos);
      ResetPattern(node, nl.pattern[pos..]);
      if pos == |rl.pattern| {
        r := InsertBelow(root, node);
        return;
      }
      // `newLeaf(root.pattern[:0], ..)` indexes the empty string
      if pos == 0 {
        return Panic(IndexOfEmpty);
      }
      // `root.parent.deleteChild(..)` on a root without parent
      if rl.parent.None? {
        return Panic(NilDeref);
      }
      r := Split(root, node, rl.parent.value, pos);
    }

    /** Lines 306-310 of `insert`: `node`, a proper prefix of `root`, takes
        the place of `root` under its parent `p`, and `root`, cut down to
        its suffix from `pos`, goes under `node`. */
    method Reparent(root: nat, node: nat, p: nat, pos: nat) returns (r: Result<nat>)
      requires Valid() && root < |leaves| && node < |leaves| && p < |leaves|
      requires !leaves[root].hasParam && !leaves[node].hasParam
      requires pos < |leaves[root].pattern|
      modifies this
      ensures Step(leaves, r) == RadixSpec.Reparent(old(leaves), root, node, p, pos)
      ensures Valid()
      ensures nodes == old(nodes) && groups == old(groups) && namedNodes == old(namedNodes)
      ensures autoHead == old(autoHead) && autoTrailingSlash == old(autoTrailingSlash)
    {
      DeleteChild(p, root);
      r := InsertChild(p, node);
      if r.Panic? {
        return;
      }
      assert LeafOk(leaves, leaves[root]);
      NoColonSuffix(leaves[root].pattern, pos);
      ResetPattern(root, leaves[root].pattern[pos..]);
      r := InsertChild(node, root);
      if r.Panic? {
        return;
      }
      return Ok(node);
    }

    /** Lines 332-339 of `insert`: a new leaf holding the first `pos` bytes
        of `root` takes its place under `p`; `root`, cut down to its suffix,
        and `node` become the children of the new leaf. */
    method Split(root: nat, node: nat, p: nat, pos: nat) returns (r: Result<nat>)
      requires Valid() && root < |leaves| && node < |leaves| && p < |leaves|
      requires !leaves[root].hasParam && !leaves[node].hasParam
      requires 0 < pos < |leaves[root].pattern|
      modifies this
      ensures Step(leaves, r) == RadixSpec.Split(old(leaves), root, node, p, pos)
      ensures Valid()
      ensures nodes == old(nodes) && groups == old(groups) && namedNodes == old(namedNodes)
      ensures autoHead == old(autoHead) && autoTrailingSlash == old(autoTrailingSlash)
    {
      var pid := |leaves|;
      var prefix := leaves[root].pattern[..pos];
      assert LeafOk(leaves, leaves[root]);
      NoColonPrefix(leaves[root].pattern, pos);
      WfAppend(leaves, NewLeaf(prefix, None));
      leaves := leaves + [NewLeaf(prefix, None)];
      DeleteChild(p, root);
      r := InsertChild(p, pid);
      if r.Panic? {
        return;
      }
      NoColonSuffix(leaves[root].pattern, pos);
      ResetPattern(root, leaves[root].pattern[pos..]);
      r := InsertChild(pid, root);
      if r.Panic? {
        return;
      }
      r := InsertChild(pid, node);
      if r.Panic? {
        return;
      }
      return Ok(node);
    }

    /** The loop `insert` runs over the children of `root` (lines 287-300
        and again 315-328): a child with the pattern of `node` takes its
        handlers, the first child sharing a first byte with it receives it,
        and otherwise `node` is appended. */
    method InsertBelow(root: nat, node: nat) returns (r: Result<nat>)
      requires Valid() && root < |leaves| && node < |leaves| && !leaves[node].hasParam
      modifies this
      ensures Step(leaves, r) == Scan(old(leaves), root, node, 0)
      ensures Valid()
      ensures nodes == old(nodes) && groups == old(groups) && namedNodes == old(namedNodes)
      ensures autoHead == old(autoHead) && autoTrailingSlash == old(autoTrailingSlash)
      decreases |leaves[node].pattern|, 1
    {
      assert LeafOk(leaves, leaves[root]);
      var cs := leaves[root].children;
      var i := 0;
      while i < |cs|
        invariant 0 <= i <= |cs|
        invariant leaves == old(leaves) && nodes == old(nodes) && groups == old(groups)
        invariant namedNodes == old(namedNodes)
        invariant autoHead == old(autoHead) && autoTrailingSlash == old(autoTrailingSlash)
        invariant Scan(leaves, root, node, i) == Scan(leaves, root, node, 0)
      {
        var c := cs[i];
        if leaves[c].pattern == leaves[node].pattern {
          WfSetHandlers(leaves, c, leaves[node].handlers);
          if leaves[node].handlers.Some? {
            leaves := leaves[c := leaves[c].(handlers := leaves[node].handlers)];
          }
          return Ok(c);
        }
        var pos := HasPrefixString(c, leaves[node].pattern);
        if pos > 0 {
          assert !leaves[c].hasParam by {
            assert LeafOk(leaves, leaves[c]) && LeafOk(leaves, leaves[node]);
            assert leaves[c].pattern[..pos][0] == leaves[node].pattern[..pos][0];
            assert leaves[node].pattern[0] in leaves[node].pattern;
          }
          r := Insert(c, node);
          return;
        }
        i := i + 1;
      }
      r := InsertChild(root, node);
      if r.Panic? {
        return;
      }
      return Ok(node);
    }
  
    /** `t.add(method, pattern, handlers)`: applies the groups, checks the
        pattern, then scans it (`Pieces`). */
    method Register(verb: string, pattern: string, handlers: Option<seq<Handler>>) returns (r: Result<Leaf>)
      requires Valid()
      modifies this
      ensures var a := AddSpec(old(leaves), old(nodes), old(groups), verb, pattern, handlers);
              leaves == a.leaves && r == a.res
      ensures Valid()
      ensures nodes == old(nodes) && groups == old(groups) && namedNodes == old(namedNodes)
      ensures autoHead == old(autoHead) && autoTrailingSlash == old(autoTrailingSlash)
    {
      if verb !in RouterMethods {
        return Panic(Unsupported(verb));
      }
      var route := Combine(groups, pattern, handlers);
      var p := route.pattern;
      var h := route.handlers;
      if p == "" {
        return Panic(EmptyPattern);
      }
      if p[0] != '/' {
        return Panic(NoLeadingSlash);
      }
      var s := Pieces(nodes[RouterMethods[verb]], p, h);
      if s.Panic? {
        return Panic(s.msg);
      }
      return Ok(NewLeaf(p, h));
    }

    /** `t.insert(root, l)` for a leaf `l` just allocated. */
    method InsertNew(root: nat, l: Leaf) returns (r: Result<nat>)
      requires Valid() && root < |leaves| && LeafOk(leaves + [l], l)
      modifies this
      ensures Step(leaves, r) == Attach(old(leaves), root, l)
      ensures Valid()
      ensures nodes == old(nodes) && groups == old(groups) && namedNodes == old(namedNodes)
      ensures autoHead == old(autoHead) && autoTrailingSlash == old(autoTrailingSlash)
    {
      WfAppend(leaves, l);
      var id := |leaves|;
      leaves := leaves + [l];
      r := Insert(root, id);
    }

    /** The scanning loop of `add` (tree.go lines 220-265) over the
        pattern `p` with the handlers `h`, starting at the method's root. */
    method Pieces(root0: nat, p: string, h: Option<seq<Handler>>) returns (r: Result<nat>)
      requires Valid() && root0 < |leaves|
      modifies this
      ensures Step(leaves, r) == AddScan(old(leaves), root0, p, 0, "", h)
      ensures Valid()
      ensures nodes == old(nodes) && groups == old(groups) && namedNodes == old(namedNodes)
      ensures autoHead == old(autoHead) && autoTrailingSlash == old(autoTrailingSlash)
    {
      var root: nat := root0;
      var radix := "";
      var i := 0;
      while i < |p|
        invariant 0 <= i <= |p| && ':' !in radix
        invariant Valid() && root < |leaves|
        invariant nodes == old(nodes) && groups == old(groups) && namedNodes == old(namedNodes)
        invariant autoHead == old(autoHead) && autoTrailingSlash == old(autoTrailingSlash)
        invariant AddScan(leaves, root, p, i, radix, h) == AddScan(old(leaves), root0, p, 0, "", h)
      {
        if p[i] == ':' {
          var next: nat;
          r, next := ParamPiece(root, p, i, radix, h);
          if r.Panic? {
            return;
          }
          root := r.value;
          radix := "";
          i := next;
          continue;
        }
        radix := radix + [p[i]];
        i := i + 1;
      }
      r := Flush(root, radix, h);
    }

    /** One turn of the loop of `add` at a `:` (lines 227-256): the static
        run gathered so far is inserted, then the parameter leaf. Returns
        the leaf the next piece goes under and where the scan resumes. */
    method ParamPiece(root0: nat, p: string, i: nat, radix: string, h: Option<seq<Handler>>)
      returns (r: Result<nat>, next: nat)
      requires Valid() && root0 < |leaves| && i < |p| && ':' !in radix
      modifies this
      ensures Valid()
      ensures Piece(Step(leaves, r), next) == ParamStep(old(leaves), root0, p, i, radix, h)
      ensures nodes == old(nodes) && groups == old(groups) && namedNodes == old(namedNodes)
      ensures autoHead == old(autoHead) && autoTrailingSlash == old(autoTrailingSlash)
    {
      r := Flush(root0, radix, None);
      next := i;
      if r.Ok? {
        r, next := ParamAfter(r.value, p, i, h);
      }
    }

    /** Inserts the static run `radix` under `root` (lines 228-235, 259-264). */
    method Flush(root: nat, radix: string, h: Option<seq<Handler>>) returns (r: Result<nat>)
      requires Valid() && root < |leaves| && ':' !in radix
      modifies this
      ensures Valid()
      ensures Step(leaves, r) == RadixSpec.Flush(old(leaves), root, radix, h)
      ensures nodes == old(nodes) && groups == old(groups) && namedNodes == old(namedNodes)
      ensures autoHead == old(autoHead) && autoTrailingSlash == old(autoTrailingSlash)
    {
      if |radix| > 0 {
        r := InsertNew(root, NewLeaf(radix, h));
      } else {
        r := Ok(root);
      }
    }

    /** Inserts the parameter leaf for the `:` at byte `i` under `root`
        (lines 237-256), which carries the handlers only when its name ends
        the pattern. */
    method ParamAfter(root: nat, p: string, i: nat, h: Option<seq<Handler>>)
      returns (r: Result<nat>, next: nat)
      requires Valid() && root < |leaves| && i < |p|
      modifies this
      ensures Valid()
      ensures Piece(Step(leaves, r), next) == ParamAt(old(leaves), root, p, i, h)
      ensures nodes == old(nodes) && groups == old(groups) && namedNodes == old(namedNodes)
      ensures autoHead == old(autoHead) && autoTrailingSlash == old(autoTrailingSlash)
    {
      var param, j := ParamName(p, i + 1);
      if |param| == 0 {
        return Panic(EmptyParam), i;
      }
      var l := ParamLeaf(param, if j == |p| then h else None);
      assert l == NamedParam(p, i, h);
      assert LeafOk(leaves + [l], l);
      r := InsertNew(root, l);
      next := j;
    }

    /** The inner loop of `add`: the parameter name starting at `from`,
        up to the next `/` or the end, and where it stops. */
    static method ParamName(p: string, from: nat) returns (param: string, j: nat)
      requires from <= |p|
      ensures j == from + RunUntil(p[from..], '/') && param == p[from..j]
    {
      param := "";
      j := from;
      while j < |p| && p[j] != '/'
        invariant from <= j <= |p|
        invariant param == p[from..j]
        invariant forall q :: from <= q < j ==> p[q] != '/'
      {
        param := param + [p[j]];
        j := j + 1;
      }
      SkipTo(p[from..], j - from);
    }

    /** `Add(method, pattern, handlers)`: the HEAD copy, the trailing-slash
        variant and the route itself, as `Registrations` lists them (with
        the empty group route read as "no trailing slash to strip"). */
    method Add(verb: string, pattern: string, handlers: Option<seq<Handler>>) returns (r: Result<Leaf>)
      requires Valid()
      modifies this
      ensures var a := AddAll(old(leaves), old(nodes), old(groups),
                              Registrations(verb, pattern, old(autoHead), old(autoTrailingSlash), old(groups) != []), handlers);
              leaves == a.leaves && r == a.res
      ensures Valid()
      ensures nodes == old(nodes) && groups == old(groups) && namedNodes == old(namedNodes)
      ensures autoHead == old(autoHead) && autoTrailingSlash == old(autoTrailingSlash)
    {
      ghost var regs := Registrations(verb, pattern, autoHead, autoTrailingSlash, groups != []);
      if verb == "GET" && autoHead {
        r := Register("HEAD", pattern, handlers);
        AddAllStep(old(leaves), nodes, groups, regs, handlers);
        if r.Panic? {
          return;
        }
        assert regs[1..] == Registrations(verb, pattern, false, autoTrailingSlash, groups != []);
      } else {
        assert regs == Registrations(verb, pattern, false, autoTrailingSlash, groups != []);
      }
      r := AddVariants(verb, pattern, handlers);
    }

    /** The part of `Add` after the HEAD copy (tree.go lines 163-169): the
        trailing-slash variant, if any, and the route itself. */
    method AddVariants(verb: string, pattern: string, handlers: Option<seq<Handler>>) returns (r: Result<Leaf>)
      requires Valid()
      modifies this
      ensures var a := AddAll(old(leaves), old(nodes), old(groups),
                              Registrations(verb, pattern, false, old(autoTrailingSlash), old(groups) != []), handlers);
              leaves == a.leaves && r == a.res
      ensures Valid()
      ensures nodes == old(nodes) && groups == old(groups) && namedNodes == old(namedNodes)
      ensures autoHead == old(autoHead) && autoTrailingSlash == old(autoTrailingSlash)
    {
      Variants(verb, pattern, autoTrailingSlash, groups != []);
      var p := pattern;
      if autoTrailingSlash && (|p| > 1 || |groups| > 0) {
        if p != "" && p[|p| - 1] == '/' {
          p := p[..|p| - 1];
        }
        assert p == Unslashed(pattern);
        r := AddPair(verb, p, handlers);
      } else {
        r := Register(verb, p, handlers);
        AddAllStep(old(leaves), nodes, groups, [Reg(verb, p)], handlers);
      }
    }

    /** The two calls of `Add` the trailing-slash option makes: `p + "/"`,
        then `p` unless the first panicked. */
    method AddPair(verb: string, p: string, handlers: Option<seq<Handler>>) returns (r: Result<Leaf>)
      requires Valid()
      modifies this
      ensures var a := AddAll(old(leaves), old(nodes), old(groups), [Reg(verb, p + "/"), Reg(verb, p)], handlers);
              leaves == a.leaves && r == a.res
      ensures Valid()
      ensures nodes == old(nodes) && groups == old(groups) && namedNodes == old(namedNodes)
      ensures autoHead == old(autoHead) && autoTrailingSlash == old(autoTrailingSlash)
    {
      ghost var regs := [Reg(verb, p + "/"), Reg(verb, p)];
      r := Register(verb, p + "/", handlers);
      AddAllStep(old(leaves), nodes, groups, regs, handlers);
      if r.Panic? {
        return;
      }
      ghost var mid := leaves;
      assert regs[1..] == [Reg(verb, p)];
      r := Register(verb, p, handlers);
      AddAllStep(mid, nodes, groups, regs[1..], handlers);
    }

    /** `GroupAdd(pattern, f, handlers)`, with the calls `f` makes given as
        `body`: pushes the group, runs the body, pops the group. */
    method GroupAdd(pattern: string, body: seq<Action>, handlers: Option<seq<Handler>>)
      returns (panic: Option<string>)
      requires Valid()
      modifies this
      ensures var o := Run(old(leaves), old(nodes), old(groups), old(autoHead), old(autoTrailingSlash),
                           [Nest(pattern, handlers, body)]);
              leaves == o.leaves && groups == o.groups && panic == o.panic
      ensures panic.None? ==> groups == old(groups)
      ensures Valid()
      ensures nodes == old(nodes) && namedNodes == old(namedNodes)
      ensures autoHead == old(autoHead) && autoTrailingSlash == old(autoTrailingSlash)
      decreases body, 2
    {
      groups := groups + [Group(pattern, handlers)];
      panic := RunBody(body);
      if panic.Some? {
        return;
      }
      groups := groups[..|groups| - 1];
      assert groups == old(groups);
    }

    /** One call of a group body. */
    method RunOne(a: Action) returns (panic: Option<string>)
      requires Valid()
      modifies this
      ensures var o := Run(old(leaves), old(nodes), old(groups), old(autoHead), old(autoTrailingSlash), [a]);
              leaves == o.leaves && groups == o.groups && panic == o.panic
      ensures Valid()
      ensures nodes == old(nodes) && namedNodes == old(namedNodes)
      ensures autoHead == old(autoHead) && autoTrailingSlash == old(autoTrailingSlash)
      decreases a, 0
    {
      if a.Handle? {
        assert [a][0] == a && [a][1..] == [];
        var r := Add(a.verb, a.pattern, a.handlers);
        panic := if r.Panic? then Some(r.msg) else None;
      } else {
        panic := GroupAdd(a.pattern, a.body, a.handlers);
      }
    }

    /** The calls of a group body, in order, until one panics. */
    method RunBody(actions: seq<Action>) returns (panic: Option<string>)
      requires Valid()
      modifies this
      ensures var o := Run(old(leaves), old(nodes), old(groups), old(autoHead), old(autoTrailingSlash), actions);
              leaves == o.leaves && groups == o.groups && panic == o.panic
      ensures Valid()
      ensures nodes == old(nodes) && namedNodes == old(namedNodes)
      ensures autoHead == old(autoHead) && autoTrailingSlash == old(autoTrailingSlash)
      decreases actions, 1
    {
      var i := 0;
      while i < |actions|
        invariant 0 <= i <= |actions|
        invariant Valid() && groups == old(groups)
        invariant nodes == old(nodes) && namedNodes == old(namedNodes)
        invariant autoHead == old(autoHead) && autoTrailingSlash == old(autoTrailingSlash)
        invariant Run(leaves, nodes, groups, autoHead, autoTrailingSlash, actions[i..])
               == Run(old(leaves), nodes, old(groups), autoHead, autoTrailingSlash, actions)
      {
        RunFirst(leaves, nodes, groups, autoHead, autoTrailingSlash, actions[i..]);
        assert actions[i..][0] == actions[i] && actions[i..][1..] == actions[i + 1..];
        panic := RunOne(actions[i]);
        if panic.Some? {
          return;
        }
        i := i + 1;
      }
      return None;
    }

    /** `Match(method, path, c)` (tree.go lines 79-143): walks down from the
        root of the method, binding in `c` every parameter it passes, and
        returns the handlers of the leaf the path ends at, if any. */
    method Match(verb: string, path: string, c: Contexts.Context) returns (h: Option<seq<Handler>>)
      requires Valid() && c.Valid()
      modifies c
      ensures var m := MatchSpec(leaves, nodes, verb, path);
              && h == m.handlers
              && c.pNames == old(c.pNames) + BindNames(m.binds)
              && c.pValues == old(c.pValues) + BindValues(m.binds)
      ensures c.Valid()
      ensures c.store == old(c.store) && c.handlers == old(c.handlers) && c.hi == old(c.hi)
      ensures c.req == old(c.req) && c.resp == old(c.resp) && c.logged == old(c.logged)
    {
      var id: nat := nodes[MethodIndex(verb)];
      var p := path;
      ghost var bs: seq<Bind> := [];
      ghost var goal := MatchSpec(leaves, nodes, verb, path);
      ghost var names0 := c.pNames;
      ghost var values0 := c.pValues;
      while true
        invariant c.Valid() && Pending(leaves, id, p, bs, goal)
        invariant c.pNames == names0 + BindNames(bs) && c.pValues == values0 + BindValues(bs)
        invariant c.Others() == old(c.Others())
        decreases |p|, if leaves[id].hasParam then 1 else 0
      {
        ghost var mid := (c.pNames, c.pValues);
        var hop := Hop(id, p, c);
        MatchTurn(leaves, id, p, bs, goal);
        RecordMore(names0, values0, mid, (c.pNames, c.pValues), bs, hop.binds);
        if hop.Stop? {
          return hop.handlers;
        }
        bs := bs + hop.binds;
        id := hop.next;
        p := hop.rest;
      }
    }

    /** One turn of the loop of `Match` (lines 86-139) at leaf `id` with
        the remaining path `p`; a parameter leaf binds its value in `c`. */
    method Hop(id: nat, p: string, c: Contexts.Context) returns (hop: Hop)
      requires Valid() && c.Valid() && id < |leaves|
      modifies c
      ensures hop == HopAt(leaves, id, p)
      ensures c.Valid()
      ensures c.pNames == old(c.pNames) + BindNames(hop.binds) && c.pValues == old(c.pValues) + BindValues(hop.binds)
      ensures c.Others() == old(c.Others())
    {
      var r := leaves[id];
      var rest: string;
      var b: seq<Bind> := [];
      if !r.hasParam {
        var l := |r.pattern|;
        if l <= |p| && r.pattern == p[..l] {
          if l == |p| {
            return Stop(r.handlers, []);
          }
          if r.children == [] {
            return Stop(None, []);
          }
          rest := p[l..];
        } else {
          return Stop(None, []);
        }
      } else {
        var i := ParamEnd(id, p);
        b := [Bind(r.param, p[..i])];
        c.SetParam(r.param, p[..i]);
        if i == |p| {
          return Stop(r.handlers, b);
        }
        rest := p[i..];
      }
      var next := Descend(id, rest[0]);
      if next.None? {
        return Stop(None, b);
      }
      return Go(b, next.value, rest);
    }

    /** The scan of `Match` over a parameter's value: to the end of the
        path for a leaf without children, else up to the next `/`. */
    method ParamEnd(id: nat, p: string) returns (i: nat)
      requires id < |leaves|
      ensures i == Capture(leaves, id, p)
    {
      if leaves[id].children == [] {
        return |p|;
      }
      i := 0;
      while i < |p| && p[i] != '/'
        invariant 0 <= i <= |p|
        invariant forall q :: 0 <= q < i ==> p[q] != '/'
      {
        i := i + 1;
      }
      SkipTo(p, i);
    }

    /** The choice of child in `Match` (lines 118-139) for the next byte
        `b` of the path. */
    method Descend(id: nat, b: char) returns (next: Option<nat>)
      requires Valid() && id < |leaves| && leaves[id].children != []
      ensures next == NextChild(leaves, id, b)
    {
      assert LeafOk(leaves, leaves[id]);
      var cs := leaves[id].children;
      if |cs| == 1 {
        if leaves[cs[0]].hasParam || leaves[cs[0]].alpha == b {
          return Some(cs[0]);
        }
        return None;
      }
      next := FindChild(id, b);
      if next.None? && leaves[cs[0]].hasParam {
        next := Some(cs[0]);
      }
    }

    /** `l.Name(name)` (tree.go lines 343-363) for a leaf `l` returned by
        `Add` on this tree: records the format of its pattern under `name`;
        an empty name records nothing. Once named, `URLFor` rebuilds the URL
        of the route from as many arguments as the pattern has parameters. */
    method Name(l: Leaf, name: string)
      modifies this
      ensures name == "" ==> namedNodes == old(namedNodes)
      ensures name != "" ==> namedNodes == old(namedNodes)[name := NameFormat(l.pattern)]
      ensures name != "" && l.pattern != "" && '%' !in l.pattern ==>
                forall args :: |args| == ParamCount(l.pattern) ==> URLFor(name, args) == Instantiate(l.pattern, args, 0)
      ensures leaves == old(leaves) && nodes == old(nodes) && groups == old(groups)
      ensures autoHead == old(autoHead) && autoTrailingSlash == old(autoTrailingSlash)
    {
      if name == "" {
        return;
      }
      var f := FormatOf(l.pattern);
      namedNodes := namedNodes[name := f];
      if l.pattern != "" && '%' !in l.pattern {
        assert f != "";
        forall args | |args| == ParamCount(l.pattern)
          ensures URLFor(name, args) == Instantiate(l.pattern, args, 0)
        {
          URLRoundTrip(l.pattern, args);
        }
      }
    }

    /** `URLFor(name, args...)` (tree.go lines 146-155): the format recorded
        under `name` filled with `args`; "" for an empty or unknown name. */
    function URLFor(name: string, args: seq<Arg>): (url: string)
      reads this
      ensures name == "" || name !in namedNodes || namedNodes[name] == "" ==> url == ""
      ensures name != "" && name in namedNodes && namedNodes[name] != "" ==> url == Sprintf(namedNodes[name], args)
    {
      if name == "" then ""
      else
        var f := if name in namedNodes then namedNodes[name] else "";
        if f == "" then "" else Sprintf(f, args)
    }
  }
}
