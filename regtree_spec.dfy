/** The regexp-radix tree of router/regtree/tree.go as values. The nodes of
    a router's trees live in an arena, a sequence where a Go pointer is an index; a
    node names its static children, its regexp children and the node
    `root` it was created under by index. `Get` and `String` are read-only
    recursion and stay functions; `Add` and `addChild` are given as
    functions from the arena before to the arena after (with the panics of
    the Go code as `Panic` results), which the class in regtree_tree.dfy
    is proved to follow step by step. */
module RegTreeSpec {
  import opened Common
  import opened Patterns

  /** What the regtree router stores as a node value: its handler slice,
      `None` for a nil slice. (An `interface{}` holding a nil slice is not
      itself nil, so a route always has a value.) */
  type Value = Option<seq<Handler>>

  /** A `*Tree` node. `val` is `None` for Go's nil `interface{}`. The
      compiled `re` of a regexp node is not stored: it is always the
      expression `key + "$"`, since a regexp node's key never changes. */
  datatype RNode = RNode(
    isStatic: bool,
    key: string,
    val: Option<Value>,
    params: seq<string>,
    format: string,
    schildren: seq<nat>,
    rchildren: seq<nat>,
    root: Option<nat>)

  /** `NewTree(key, val)`: a static node without children. */
  function NewTree(key: string, val: Option<Value>): (n: RNode)
    ensures n.isStatic && n.key == key && n.val == val && n.params == [] && n.format == ""
    ensures n.schildren == [] && n.rchildren == [] && n.root == None
  {
    RNode(true, key, val, [], "", [], [], None)
  }

  /** The panic of a route added twice. */
  const Exists := "the route is be exists: "

  /** Two keys that do not start with the same byte. */
  predicate Apart(a: string, b: string)
  {
    a == "" || b == "" || a[0] != b[0]
  }

  /** Two keys are apart exactly when they share no prefix. */
  lemma ApartIsLCP(a: string, b: string)
    ensures Apart(a, b) <==> LCP(a, b) == 0
  {
    if LCP(a, b) > 0 {
      assert a[..LCP(a, b)][0] == b[..LCP(a, b)][0];
    }
  }

  /** A key that is apart from `b` is apart from every non-empty prefix of
      `b`. */
  lemma ApartPrefix(a: string, b: string, p: string)
    requires Apart(a, b) && p != "" && IsPrefix(p, b)
    ensures Apart(a, p)
  {
    assert p[0] == b[..|p|][0];
  }

  /** The indices in `cs` are nodes of the arena. */
  predicate In(nodes: seq<RNode>, cs: seq<nat>)
  {
    forall j :: 0 <= j < |cs| ==> cs[j] < |nodes|
  }

  /** The shape every node `n` at index `id` keeps: a static node has a
      non-empty key and no parameters; `root` points to an earlier node;
      the children are nodes, the static ones static and the regexp ones
      not; and no two static children start with the same byte. */
  predicate NodeOk(nodes: seq<RNode>, id: nat, n: RNode)
  {
    && (n.isStatic ==> n.key != "" && n.params == [])
    && (n.root.Some? ==> n.root.value < id)
    && In(nodes, n.schildren) && In(nodes, n.rchildren)
    && (forall j :: 0 <= j < |n.schildren| ==> nodes[n.schildren[j]].isStatic)
    && (forall j :: 0 <= j < |n.rchildren| ==> !nodes[n.rchildren[j]].isStatic)
    && (forall j, k :: 0 <= j < k < |n.schildren| ==> Apart(nodes[n.schildren[j]].key, nodes[n.schildren[k]].key))
  }

  /** Every node of the arena keeps its shape. */
  predicate Wf(nodes: seq<RNode>)
  {
    forall id {:trigger NodeOk(nodes, id, nodes[id])} :: 0 <= id < |nodes| ==> NodeOk(nodes, id, nodes[id])
  }

  /** What `Add` never changes about a node: its kind, the first byte of a
      static key, and anything at all about a regexp node. */
  predicate Kept(m: RNode, n: RNode)
  {
    && n.isStatic == m.isStatic
    && (m.isStatic && m.key != "" ==> n.key != "" && n.key[0] == m.key[0])
    && (!m.isStatic ==> n == m)
  }

  /** The arena `b` grew from `a` keeping every node of `a` as `Kept` says. */
  predicate Keeps(a: seq<RNode>, b: seq<RNode>)
  {
    |a| <= |b| && forall x :: 0 <= x < |a| ==> Kept(a[x], b[x])
  }

  lemma KeepsTrans(a: seq<RNode>, b: seq<RNode>, c: seq<RNode>)
    requires Keeps(a, b) && Keeps(b, c)
    ensures Keeps(a, c)
  {
    forall x | 0 <= x < |a|
      ensures Kept(a[x], c[x])
    {
      assert Kept(a[x], b[x]) && Kept(b[x], c[x]);
    }
  }

  /** An arena grown from a well-formed one is well formed when every node
      that is new or changed keeps its shape. */
  lemma WfAfter(a: seq<RNode>, b: seq<RNode>)
    requires Wf(a) && Keeps(a, b)
    requires forall x :: 0 <= x < |b| && (x >= |a| || b[x] != a[x]) ==> NodeOk(b, x, b[x])
    ensures Wf(b)
  {
    forall x | 0 <= x < |b|
      ensures NodeOk(b, x, b[x])
    {
      if x < |a| && b[x] == a[x] {
        var n := a[x];
        assert NodeOk(a, x, n);
        forall j | 0 <= j < |n.schildren|
          ensures b[n.schildren[j]].isStatic
        {
          assert Kept(a[n.schildren[j]], b[n.schildren[j]]);
        }
        forall j | 0 <= j < |n.rchildren|
          ensures !b[n.rchildren[j]].isStatic
        {
          assert Kept(a[n.rchildren[j]], b[n.rchildren[j]]);
        }
        forall j, k | 0 <= j < k < |n.schildren|
          ensures Apart(b[n.schildren[j]].key, b[n.schildren[k]].key)
        {
          var c, d := n.schildren[j], n.schildren[k];
          assert NodeOk(a, c, a[c]) && NodeOk(a, d, a[d]);
          assert Kept(a[c], b[c]) && Kept(a[d], b[d]);
          assert Apart(a[c].key, a[d].key);
        }
      }
    }
  }

  // ---- String ----

  /** `t.String()`: the keys of the `root` chain, from the top down to `t`
      (lines 239-246). */
  function String(nodes: seq<RNode>, id: nat): (s: string)
    requires Wf(nodes) && id < |nodes|
    ensures |nodes[id].key| <= |s| && s[|s| - |nodes[id].key|..] == nodes[id].key
    decreases id
  {
    var t := nodes[id];
    assert NodeOk(nodes, id, t);
    if t.root.Some? then String(nodes, t.root.value) + t.key else t.key
  }

  /** The `root` chain of a node: from the topmost node, which has no
      `root`, down to the node itself, each node the `root` of the next. */
  function Ancestry(nodes: seq<RNode>, id: nat): (a: seq<nat>)
    requires Wf(nodes) && id < |nodes|
    ensures a != [] && a[|a| - 1] == id
    ensures forall k :: 0 <= k < |a| ==> a[k] < |nodes|
    ensures nodes[a[0]].root == None
    ensures forall k :: 0 < k < |a| ==> nodes[a[k]].root == Some(a[k - 1])
    decreases id
  {
    var t := nodes[id];
    assert NodeOk(nodes, id, t);
    if t.root.Some? then Ancestry(nodes, t.root.value) + [id] else [id]
  }

  /** The keys of the nodes `a`, concatenated. */
  function Keys(nodes: seq<RNode>, a: seq<nat>): string
    requires forall k :: 0 <= k < |a| ==> a[k] < |nodes|
  {
    if a == [] then "" else Keys(nodes, a[..|a| - 1]) + nodes[a[|a| - 1]].key
  }

  /** `String` is the concatenation of the keys along the `root` chain. */
  lemma {:induction false} StringIsAncestry(nodes: seq<RNode>, id: nat)
    requires Wf(nodes) && id < |nodes|
    ensures String(nodes, id) == Keys(nodes, Ancestry(nodes, id))
    decreases id
  {
    var t := nodes[id];
    assert NodeOk(nodes, id, t);
    var a := Ancestry(nodes, id);
    if t.root.Some? {
      StringIsAncestry(nodes, t.root.value);
      assert a[..|a| - 1] == Ancestry(nodes, t.root.value);
    } else {
      assert a[..|a| - 1] == [];
    }
  }

  // ---- Get ----

  /** What `Get` returns: the node found and the submatches bound to its
      parameters (Go's nil for a static node is the empty list). */
  datatype Got = Got(node: nat, values: seq<string>)

  /** The test of a regexp node against what is left of the key (lines
      60-64 and 70-74): its expression must match with one submatch per
      parameter, and the whole match must be the whole key. */
  function ReMatch(nodes: seq<RNode>, id: nat, key: string, eng: Engine): (r: Option<Got>)
    requires id < |nodes|
    ensures r.Some? ==> r.value.node == id && |r.value.values| == |nodes[id].params|
  {
    var data := eng.find(nodes[id].key + "$", key);
    if |data| != |nodes[id].params| + 1 || data[0] != key then None else Some(Got(id, data[1..]))
  }

  /** `t.Get(key)` (lines 32-75). A static node must be a prefix of the
      key; if it is all of it and the node has a value, the node is found;
      otherwise, with something left, the static children are tried in
      order, and then the regexp children on what is left. A regexp node is
      found when `ReMatch` accepts the key. */
  function GetFrom(nodes: seq<RNode>, id: nat, key: string, eng: Engine): (r: Option<Got>)
    requires Wf(nodes) && id < |nodes|
    ensures r.Some? ==> r.value.node < |nodes| && |r.value.values| == |nodes[r.value.node].params|
    ensures r.Some? && nodes[r.value.node].isStatic ==> nodes[r.value.node].val.Some?
    decreases |key|, 0, 0
  {
    var t := nodes[id];
    if !t.isStatic then ReMatch(nodes, id, key, eng)
    else
      assert NodeOk(nodes, id, t);
      var m := LCP(t.key, key);
      if m != |t.key| then None
      else if m == |key| && t.val.Some? then Some(Got(id, []))
      else
        var rest := key[m..];
        var s := if |rest| > 0 then GetAmong(nodes, t.schildren, 0, rest, eng) else None;
        if s.Some? then s else ReAmong(nodes, t.rchildren, 0, rest, eng)
  }

  /** The loop of `Get` over the static children from the `i`-th on: the
      first one that finds a node. */
  function GetAmong(nodes: seq<RNode>, cs: seq<nat>, i: nat, key: string, eng: Engine): (r: Option<Got>)
    requires Wf(nodes) && In(nodes, cs) && i <= |cs|
    ensures r.Some? ==> r.value.node < |nodes| && |r.value.values| == |nodes[r.value.node].params|
    ensures r.Some? && nodes[r.value.node].isStatic ==> nodes[r.value.node].val.Some?
    decreases |key|, 1, |cs| - i
  {
    if i == |cs| then None
    else
      var r := GetFrom(nodes, cs[i], key, eng);
      if r.Some? then r else GetAmong(nodes, cs, i + 1, key, eng)
  }

  /** The loop of `Get` over the regexp children from the `i`-th on: the
      first one whose expression matches. */
  function ReAmong(nodes: seq<RNode>, rs: seq<nat>, i: nat, key: string, eng: Engine): (r: Option<Got>)
    requires In(nodes, rs) && i <= |rs|
    ensures r.Some? ==> exists j :: i <= j < |rs| && r == ReMatch(nodes, rs[j], key, eng)
    decreases |rs| - i
  {
    if i == |rs| then None
    else
      var r := ReMatch(nodes, rs[i], key, eng);
      if r.Some? then r else ReAmong(nodes, rs, i + 1, key, eng)
  }

  /** A walk down the tree that justifies finding `g` for `key`: static
      nodes whose keys are, in turn, prefixes of what is left of the key,
      each a child of the one before, ending either at a static node with a
      value whose key is all that is left, or at a regexp node whose
      expression matches all that is left, the submatches being the
      values. */
  ghost predicate Leads(nodes: seq<RNode>, eng: Engine, trail: seq<nat>, key: string, g: Got)
    decreases |trail|
  {
    && trail != []
    && trail[0] < |nodes|
    && var t := nodes[trail[0]];
       if |trail| == 1 then
         && g.node == trail[0]
         && if t.isStatic then t.key == key && t.val.Some? && g.values == []
            else
              var data := eng.find(t.key + "$", key);
              |data| == |t.params| + 1 && data[0] == key && g.values == data[1..]
       else
         && t.isStatic
         && IsPrefix(t.key, key)
         && (trail[1] in t.schildren || trail[1] in t.rchildren)
         && Leads(nodes, eng, trail[1..], key[|t.key|..], g)
  }

  /** Whatever `Get` finds is justified by a walk from the node it was
      called on. */
  lemma {:induction false} GetSound(nodes: seq<RNode>, id: nat, key: string, eng: Engine)
    requires Wf(nodes) && id < |nodes|
    ensures var r := GetFrom(nodes, id, key, eng);
            r.Some? ==> exists trail :: trail != [] && trail[0] == id && Leads(nodes, eng, trail, key, r.value)
    decreases |key|, 0, 0
  {
    var r := GetFrom(nodes, id, key, eng);
    var t := nodes[id];
    if r.Some? {
      if !t.isStatic {
        assert Leads(nodes, eng, [id], key, r.value);
      } else {
        assert NodeOk(nodes, id, t);
        var m := LCP(t.key, key);
        if m == |key| && t.val.Some? {
          assert t.key == key[..m];
          assert Leads(nodes, eng, [id], key, r.value);
        } else {
          var rest := key[m..];
          var s := if |rest| > 0 then GetAmong(nodes, t.schildren, 0, rest, eng) else None;
          var sub: seq<nat>;
          if s.Some? {
            GetAmongSound(nodes, t.schildren, 0, rest, eng);
            sub :| sub != [] && sub[0] in t.schildren && Leads(nodes, eng, sub, rest, r.value);
          } else {
            var j :| 0 <= j < |t.rchildren| && r == ReMatch(nodes, t.rchildren[j], rest, eng);
            sub := [t.rchildren[j]];
            assert !nodes[sub[0]].isStatic;
            assert Leads(nodes, eng, sub, rest, r.value);
          }
          var trail := [id] + sub;
          assert trail[1..] == sub;
          assert t.key == key[..m];
          assert Leads(nodes, eng, trail, key, r.value);
        }
      }
    }
  }

  /** As `GetSound`, for the loop over the static children. */
  lemma {:induction false} GetAmongSound(nodes: seq<RNode>, cs: seq<nat>, i: nat, key: string, eng: Engine)
    requires Wf(nodes) && In(nodes, cs) && i <= |cs|
    ensures var r := GetAmong(nodes, cs, i, key, eng);
            r.Some? ==> exists trail :: trail != [] && trail[0] in cs && Leads(nodes, eng, trail, key, r.value)
    decreases |key|, 1, |cs| - i
  {
    if i < |cs| {
      GetSound(nodes, cs[i], key, eng);
      GetAmongSound(nodes, cs, i + 1, key, eng);
    }
  }

  // ---- Add ----

  /** The arena after `Add` or `addChild`, and the node returned (`None`
      for Go's nil) or the panic. */
  datatype RStep = RStep(nodes: seq<RNode>, res: Result<Option<nat>>)

  /** What every step of `Add` guarantees: the old nodes are kept, a node
      returned is in the arena, and every new regexp node holds the value
      being added. */
  predicate Grew(nodes: seq<RNode>, s: RStep, val: Option<Value>)
  {
    && Keeps(nodes, s.nodes)
    && (s.res.Ok? && s.res.value.Some? ==> s.res.value.value < |s.nodes|)
    && (forall x :: |nodes| <= x < |s.nodes| && !s.nodes[x].isStatic ==> s.nodes[x].val == val)
  }

  lemma GrewTrans(a: seq<RNode>, b: seq<RNode>, s: RStep, val: Option<Value>)
    requires Keeps(a, b) && (forall x :: |a| <= x < |b| ==> b[x].isStatic) && Grew(b, s, val)
    ensures Grew(a, s, val)
  {
    KeepsTrans(a, b, s.nodes);
    forall x | |a| <= x < |b|
      ensures s.nodes[x].isStatic
    {
      assert Kept(b[x], s.nodes[x]);
    }
  }

  /** No static child of `id` starts with the first byte of `key`. */
  predicate Fresh(nodes: seq<RNode>, id: nat, key: string)
    requires Wf(nodes) && id < |nodes|
  {
    assert NodeOk(nodes, id, nodes[id]);
    forall j :: 0 <= j < |nodes[id].schildren| ==> Apart(nodes[nodes[id].schildren[j]].key, key)
  }

  /** The index of the first regexp child among `rs[i..]` whose key is `k`,
      or the length of `rs`. */
  function FindKey(nodes: seq<RNode>, rs: seq<nat>, k: string, i: nat): (d: nat)
    requires In(nodes, rs) && i <= |rs|
    ensures i <= d <= |rs|
    ensures d < |rs| ==> nodes[rs[d]].key == k
    ensures forall j :: i <= j < d ==> nodes[rs[j]].key != k
    decreases |rs| - i
  {
    if i == |rs| || nodes[rs[i]].key == k then i else FindKey(nodes, rs, k, i + 1)
  }

  /** The expression a regexp node gets: the translation of the key with
      the static prefix `addChild` splits off removed, which is the
      translation from the first parameter on. */
  function ReKey(key: string): (k: string)
    requires TreeScan(key, 0).params != []
    ensures k == TreeScan(key, FirstSpecial(key, 0)).regex
  {
    var f := FirstSpecial(key, 0);
    assert f < |key| by {
      if f == |key| {
        TreeScanStatic(key, 0);
      }
    }
    TreeScanSplit(key, 0);
    TreeScan(key, 0).regex[|StaticKey(key)|..]
  }

  /** `t.addChild(key, val)` (lines 139-237). The key is translated; with
      parameters, a regexp node gets the expression after the static
      prefix (a compile error panics), and hangs under a new static node
      for the prefix when there is one, or else directly under `t`, where
      an existing regexp child with the same expression panics. Without
      parameters the key becomes a static child holding `val`. An empty
      key dereferences the nil regexp node. */
  function AddChildSpec(nodes: seq<RNode>, id: nat, key: string, val: Option<Value>, eng: Engine): (s: RStep)
    requires Wf(nodes) && id < |nodes| && nodes[id].isStatic
    ensures Grew(nodes, s, val)
    ensures Fresh(nodes, id, key) ==> Wf(s.nodes)
    ensures s.res != Ok(None)
  {
    var t := nodes[id];
    assert NodeOk(nodes, id, t);
    var tr := TreeScan(key, 0);
    if tr.params != [] then
      var sk := StaticKey(key);
      var rk := ReKey(key);
      match eng.compile(rk + "$")
      case Some(err) => RStep(nodes, Panic("tree.addChild: " + err))
      case None =>
        if sk != "" then ReUnder(nodes, id, sk, RNode(false, rk, val, tr.params, tr.format, [], [], None), key)
        else
          var d := FindKey(nodes, t.rchildren, rk, 0);
          if d < |t.rchildren| then RStep(nodes, Panic(Exists + String(nodes, t.rchildren[d])))
          else ReBeside(nodes, id, RNode(false, rk, val, tr.params, tr.format, [], [], None))
    else if key != "" then StaticBeside(nodes, id, key, val, tr.format, key)
    else RStep(nodes, Panic(NilDeref))
  }

  /** `addChild` with a static prefix `sk` of `key`: a new static child
      `sk` of `t` whose only regexp child is `re`; returns `re`. */
  function ReUnder(nodes: seq<RNode>, id: nat, sk: string, re: RNode, key: string): (s: RStep)
    requires Wf(nodes) && id < |nodes| && nodes[id].isStatic
    requires !re.isStatic && re.schildren == [] && re.rchildren == [] && sk != "" && IsPrefix(sk, key)
    ensures Grew(nodes, s, re.val)
    ensures Fresh(nodes, id, key) ==> Wf(s.nodes)
    ensures s.res.Ok? && s.res.value.Some?
  {
    ReUnderKeeps(nodes, id, sk, re);
    ReUnderWf(nodes, id, sk, re, key);
    RStep(UnderNodes(nodes, id, sk, re), Ok(Some(|nodes| + 1)))
  }

  /** The arena after `ReUnder`: `t` gains the static child `sk`, whose
      only regexp child is `re`. */
  function UnderNodes(nodes: seq<RNode>, id: nat, sk: string, re: RNode): (b: seq<RNode>)
    requires id < |nodes|
    ensures |b| == |nodes| + 2
  {
    var t := nodes[id];
    var n := |nodes|;
    nodes[id := t.(schildren := t.schildren + [n])]
      + [RNode(true, sk, None, [], "", [], [n + 1], Some(id)), re.(root := Some(n))]
  }

  /** `ReUnder` keeps every node it had. */
  lemma ReUnderKeeps(nodes: seq<RNode>, id: nat, sk: string, re: RNode)
    requires id < |nodes| && nodes[id].isStatic && !re.isStatic
    ensures var b := UnderNodes(nodes, id, sk, re);
            Keeps(nodes, b) && !b[|nodes| + 1].isStatic && b[|nodes| + 1].val == re.val
  {
    var b := UnderNodes(nodes, id, sk, re);
    forall x | 0 <= x < |nodes|
      ensures Kept(nodes[x], b[x])
    {
    }
  }

  /** `ReUnder` keeps the arena well formed when no static child of `t`
      shares the first byte of `key`. */
  lemma ReUnderWf(nodes: seq<RNode>, id: nat, sk: string, re: RNode, key: string)
    requires Wf(nodes) && id < |nodes| && nodes[id].isStatic
    requires !re.isStatic && re.schildren == [] && re.rchildren == [] && sk != "" && IsPrefix(sk, key)
    ensures Fresh(nodes, id, key) ==> Wf(UnderNodes(nodes, id, sk, re))
  {
    if Fresh(nodes, id, key) {
      FreshUnder(nodes, id, sk, re, key);
    }
  }

  /** `ReUnderWf` for a key no static child of `t` starts like. */
  lemma FreshUnder(nodes: seq<RNode>, id: nat, sk: string, re: RNode, key: string)
    requires Wf(nodes) && id < |nodes| && nodes[id].isStatic
    requires !re.isStatic && re.schildren == [] && re.rchildren == [] && sk != "" && IsPrefix(sk, key)
    requires Fresh(nodes, id, key)
    ensures Wf(UnderNodes(nodes, id, sk, re))
  {
    var t := nodes[id];
    var n := |nodes|;
    var b := UnderNodes(nodes, id, sk, re);
    ReUnderKeeps(nodes, id, sk, re);
    assert NodeOk(nodes, id, t);
    forall j | 0 <= j < |t.schildren|
      ensures Apart(b[b[id].schildren[j]].key, b[n].key)
    {
      assert NodeOk(nodes, t.schildren[j], nodes[t.schildren[j]]);
      assert b[t.schildren[j]].key[..1] == nodes[t.schildren[j]].key[..1];
      ApartPrefix(nodes[t.schildren[j]].key, key, sk);
    }
    assert NodeOk(b, id, b[id]);
    assert NodeOk(b, n, b[n]);
    assert NodeOk(b, n + 1, b[n + 1]);
    WfAfter(nodes, b);
  }

  /** `addChild` without a static prefix: `re` becomes the last regexp
      child of `t`, and is returned. */
  function ReBeside(nodes: seq<RNode>, id: nat, re: RNode): (s: RStep)
    requires Wf(nodes) && id < |nodes| && nodes[id].isStatic
    requires !re.isStatic && re.schildren == [] && re.rchildren == []
    ensures Grew(nodes, s, re.val) && Wf(s.nodes)
    ensures s.res.Ok? && s.res.value.Some?
  {
    var t := nodes[id];
    var n := |nodes|;
    var s := RStep(nodes[id := t.(rchildren := t.rchildren + [n])] + [re.(root := Some(id))], Ok(Some(n)));
    assert Keeps(nodes, s.nodes) by {
      forall x | 0 <= x < n
        ensures Kept(nodes[x], s.nodes[x])
      {
      }
    }
    var b := s.nodes;
    assert NodeOk(nodes, id, t);
    assert NodeOk(b, id, b[id]);
    assert NodeOk(b, n, b[n]);
    WfAfter(nodes, b);
    s
  }

  /** `addChild` of a key without parameters: a new static child `k` of
      `t` holding `val` and `format`, returned. */
  function StaticBeside(nodes: seq<RNode>, id: nat, k: string, val: Option<Value>, format: string, key: string): (s: RStep)
    requires Wf(nodes) && id < |nodes| && nodes[id].isStatic && k != "" && k == key
    ensures Grew(nodes, s, val)
    ensures Fresh(nodes, id, key) ==> Wf(s.nodes)
    ensures s.res.Ok? && s.res.value.Some?
  {
    var t := nodes[id];
    var n := |nodes|;
    var s := RStep(nodes[id := t.(schildren := t.schildren + [n])] + [RNode(true, k, val, [], format, [], [], Some(id))], Ok(Some(n)));
    assert Keeps(nodes, s.nodes) by {
      forall x | 0 <= x < n
        ensures Kept(nodes[x], s.nodes[x])
      {
      }
    }
    assert Fresh(nodes, id, key) ==> Wf(s.nodes) by {
      if Fresh(nodes, id, key) {
        var b := s.nodes;
        assert NodeOk(nodes, id, t);
        forall j | 0 <= j < |t.schildren|
          ensures Apart(b[b[id].schildren[j]].key, b[n].key)
        {
          assert NodeOk(nodes, t.schildren[j], nodes[t.schildren[j]]);
          assert b[t.schildren[j]].key[..1] == nodes[t.schildren[j]].key[..1];
        }
        assert NodeOk(b, id, b[id]);
        assert NodeOk(b, n, b[n]);
        WfAfter(nodes, b);
      }
    }
    s
  }

  /** `Add` when the key is the node's key (lines 91-98): a value is set
      unless the node already holds one, which panics; a nil value changes
      nothing. */
  function AddEqual(nodes: seq<RNode>, id: nat, val: Option<Value>): (s: RStep)
    requires Wf(nodes) && id < |nodes| && nodes[id].isStatic
    ensures Grew(nodes, s, val) && Wf(s.nodes)
    ensures s.res.Ok? ==> s.res == Ok(Some(id))
  {
    if val.Some? then
      if nodes[id].val.Some? then RStep(nodes, Panic(Exists + String(nodes, id)))
      else
        var b := nodes[id := nodes[id].(val := val)];
        assert NodeOk(nodes, id, nodes[id]);
        assert NodeOk(b, id, b[id]);
        WfAfter(nodes, b);
        RStep(b, Ok(Some(id)))
    else RStep(nodes, Ok(Some(id)))
  }

  /** The node `NewTree(t.key[m:], t.val)` that takes over the rest of a
      split node's key, its value and its children (lines 115-118 and
      127-130): a static node with root `id` whose key completes the first `m`
      bytes of the old key, with the old value and children. */
  function Tail(t: RNode, id: nat, m: nat): (r: RNode)
    requires m <= |t.key|
    ensures r.isStatic && r.root == Some(id) && t.key[..m] + r.key == t.key
    ensures r.val == t.val && r.schildren == t.schildren && r.rchildren == t.rchildren
  {
    RNode(true, t.key[m..], t.val, [], "", t.schildren, t.rchildren, Some(id))
  }

  /** `Add` when the key is a proper prefix of the node's key (lines
      114-124): the node takes the key and the value, and the rest of its
      old key, with the old value and children, becomes its only child. */
  function AddPrefix(nodes: seq<RNode>, id: nat, key: string, val: Option<Value>): (s: RStep)
    requires Wf(nodes) && id < |nodes| && nodes[id].isStatic
    requires 0 < |key| < |nodes[id].key| && IsPrefix(key, nodes[id].key)
    ensures Grew(nodes, s, val) && Wf(s.nodes)
    ensures s.res == Ok(Some(id))
  {
    var t := nodes[id];
    var n := |nodes|;
    var b := nodes[id := t.(key := key, val := val, schildren := [n], rchildren := [])] + [Tail(t, id, |key|)];
    assert key[0] == t.key[..|key|][0];
    assert Keeps(nodes, b) by {
      forall x | 0 <= x < n
        ensures Kept(nodes[x], b[x])
      {
      }
    }
    assert NodeOk(nodes, id, t);
    assert NodeOk(b, id, b[id]);
    assert NodeOk(b, n, b[n]) by {
      forall j, k | 0 <= j < k < |t.schildren|
        ensures Apart(b[t.schildren[j]].key, b[t.schildren[k]].key)
      {
        var c, d := t.schildren[j], t.schildren[k];
        assert Apart(nodes[c].key, nodes[d].key);
        assert Kept(nodes[c], b[c]) && Kept(nodes[d], b[d]);
      }
    }
    WfAfter(nodes, b);
    RStep(b, Ok(Some(id)))
  }

  /** The node split at `m` (lines 127-135): it keeps the first `m` bytes
      of its key and no value, and the rest of its old key, with the old
      value and children, becomes its only child. */
  function Split(nodes: seq<RNode>, id: nat, m: nat): (b: seq<RNode>)
    requires Wf(nodes) && id < |nodes| && nodes[id].isStatic && 0 < m < |nodes[id].key|
    ensures Wf(b) && Keeps(nodes, b) && |b| == |nodes| + 1 && b[|nodes|].isStatic
    ensures b[id].isStatic && b[id].key == nodes[id].key[..m] && b[id].schildren == [|nodes|]
    ensures b[|nodes|].key == nodes[id].key[m..]
  {
    var t := nodes[id];
    var n := |nodes|;
    var b := nodes[id := t.(key := t.key[..m], val := None, schildren := [n], rchildren := [])] + [Tail(t, id, m)];
    assert Keeps(nodes, b) by {
      forall x | 0 <= x < n
        ensures Kept(nodes[x], b[x])
      {
      }
    }
    assert NodeOk(nodes, id, t);
    assert NodeOk(b, id, b[id]);
    assert NodeOk(b, n, b[n]) by {
      forall j, k | 0 <= j < k < |t.schildren|
        ensures Apart(b[t.schildren[j]].key, b[t.schildren[k]].key)
      {
        var c, d := t.schildren[j], t.schildren[k];
        assert Apart(nodes[c].key, nodes[d].key);
        assert Kept(nodes[c], b[c]) && Kept(nodes[d], b[d]);
      }
    }
    WfAfter(nodes, b);
    b
  }

  /** `Add` when the key and the node's key share `m` bytes and then
      differ (lines 127-136): the node is split and the rest of the key is
      added as a child. */
  function AddSplit(nodes: seq<RNode>, id: nat, key: string, m: nat, val: Option<Value>, eng: Engine): (s: RStep)
    requires Wf(nodes) && id < |nodes| && nodes[id].isStatic
    requires 0 < m < |key| && m < |nodes[id].key| && key[m] != nodes[id].key[m]
    ensures Grew(nodes, s, val) && Wf(s.nodes)
    ensures s.res != Ok(None)
  {
    var b := Split(nodes, id, m);
    assert Apart(b[|nodes|].key, key[m..]);
    var s := AddChildSpec(b, id, key[m..], val, eng);
    GrewTrans(nodes, b, s, val);
    s
  }

  /** `t.Add(key, val)` (lines 78-137), on a static node: no common prefix
      gives nil; the same key sets the value; a prefix of the node's key
      splits the node above its rest; the node's key as a prefix of the key
      hands the rest to the static children in turn, and to `addChild`
      when none takes it; a partial common prefix splits the node and adds
      the rest as a child. */
  function AddSpec(nodes: seq<RNode>, id: nat, key: string, val: Option<Value>, eng: Engine): (s: RStep)
    requires Wf(nodes) && id < |nodes| && nodes[id].isStatic
    ensures Grew(nodes, s, val) && Wf(s.nodes)
    ensures s.res == Ok(None) <==> Apart(nodes[id].key, key)
    ensures s.res == Ok(None) ==> s.nodes == nodes
    decreases |key|, 0, 0
  {
    var t := nodes[id];
    assert NodeOk(nodes, id, t);
    var m := LCP(t.key, key);
    ApartIsLCP(t.key, key);
    if m == 0 then RStep(nodes, Ok(None))
    else if m == |t.key| then
      if m == |key| then AddEqual(nodes, id, val)
      else
        var a := AddAmong(nodes, t.schildren, 0, key[m..], val, eng);
        if a.res != Ok(None) then a
        else AddChildSpec(nodes, id, key[m..], val, eng)
    else if m == |key| then AddPrefix(nodes, id, key, val)
    else AddSplit(nodes, id, key, m, val, eng)
  }

  /** The loop of `Add` over the static children from the `i`-th on: the
      first child that returns a node ends it. */
  function AddAmong(nodes: seq<RNode>, cs: seq<nat>, i: nat, key: string, val: Option<Value>, eng: Engine): (s: RStep)
    requires Wf(nodes) && In(nodes, cs) && i <= |cs|
    requires forall j :: 0 <= j < |cs| ==> nodes[cs[j]].isStatic
    ensures Grew(nodes, s, val) && Wf(s.nodes)
    ensures s.res == Ok(None) <==> forall j :: i <= j < |cs| ==> Apart(nodes[cs[j]].key, key)
    ensures s.res == Ok(None) ==> s.nodes == nodes
    decreases |key|, 1, |cs| - i
  {
    if i == |cs| then RStep(nodes, Ok(None))
    else
      var a := AddSpec(nodes, cs[i], key, val, eng);
      if a.res != Ok(None) then a else AddAmong(nodes, cs, i + 1, key, val, eng)
  }

  // ---- What Add does, case by case ----

  /** Adding the node's own key (lines 89-99): a nil value changes nothing,
      a value is stored when the node has none, and a second value panics
      with the node's full key. */
  lemma {:induction false} AddSameKey(nodes: seq<RNode>, id: nat, key: string, val: Option<Value>, eng: Engine)
    requires Wf(nodes) && id < |nodes| && nodes[id].isStatic && key == nodes[id].key
    ensures var s := AddSpec(nodes, id, key, val, eng);
            && (val == None ==> s == RStep(nodes, Ok(Some(id))))
            && (val.Some? && nodes[id].val.Some? ==> s == RStep(nodes, Panic(Exists + String(nodes, id))))
            && (val.Some? && nodes[id].val == None ==> s == RStep(nodes[id := nodes[id].(val := val)], Ok(Some(id))))
  {
    assert NodeOk(nodes, id, nodes[id]);
    LCPUnique(key, key, |key|);
  }

  /** Adding a proper prefix of the node's key (lines 113-124): the node
      takes the key and the value, and a new static node for the rest of
      the old key, with the old value and children, becomes its only
      child; the node itself is returned. */
  lemma {:induction false} AddShorterKey(nodes: seq<RNode>, id: nat, key: string, val: Option<Value>, eng: Engine)
    requires Wf(nodes) && id < |nodes| && nodes[id].isStatic
    requires 0 < |key| < |nodes[id].key| && IsPrefix(key, nodes[id].key)
    ensures var t := nodes[id];
            var n := |nodes|;
            AddSpec(nodes, id, key, val, eng)
              == RStep(nodes[id := t.(key := key, val := val, schildren := [n], rchildren := [])]
                         + [RNode(true, t.key[|key|..], t.val, [], "", t.schildren, t.rchildren, Some(id))],
                       Ok(Some(id)))
  {
    LCPUnique(nodes[id].key, key, |key|);
  }

  /** Adding a key that shares only part of the node's key (lines
      126-136): the node keeps the common prefix and no value, a new static
      node for the rest of its key takes the old value and children, and
      the rest of the new key goes to `addChild`. */
  lemma {:induction false} AddPartialKey(nodes: seq<RNode>, id: nat, key: string, m: nat, val: Option<Value>, eng: Engine)
    requires Wf(nodes) && id < |nodes| && nodes[id].isStatic
    requires 0 < m < |key| && m < |nodes[id].key| && key[..m] == nodes[id].key[..m] && key[m] != nodes[id].key[m]
    ensures var t := nodes[id];
            var n := |nodes|;
            var b := nodes[id := t.(key := t.key[..m], val := None, schildren := [n], rchildren := [])]
                       + [RNode(true, t.key[m..], t.val, [], "", t.schildren, t.rchildren, Some(id))];
            && Wf(b) && b[id].isStatic
            && AddSpec(nodes, id, key, val, eng) == AddChildSpec(b, id, key[m..], val, eng)
  {
    LCPUnique(nodes[id].key, key, m);
    assert Split(nodes, id, m) == nodes[id := nodes[id].(key := nodes[id].key[..m], val := None, schildren := [|nodes|], rchildren := [])]
                                   + [Tail(nodes[id], id, m)];
  }

  /** Adding a key that extends the node's key (lines 101-110): the rest is
      offered to the static children in order, the first that takes it
      wins, and when none does it becomes a new child through `addChild`. */
  lemma {:induction false} AddLongerKey(nodes: seq<RNode>, id: nat, rest: string, val: Option<Value>, eng: Engine)
    requires Wf(nodes) && id < |nodes| && nodes[id].isStatic && rest != ""
    ensures var t := nodes[id];
            assert NodeOk(nodes, id, t);
            var a := AddAmong(nodes, t.schildren, 0, rest, val, eng);
            AddSpec(nodes, id, t.key + rest, val, eng)
              == if a.res != Ok(None) then a else AddChildSpec(nodes, id, rest, val, eng)
  {
    var t := nodes[id];
    assert NodeOk(nodes, id, t);
    assert (t.key + rest)[..|t.key|] == t.key && (t.key + rest)[|t.key|..] == rest;
    LCPUnique(t.key, t.key + rest, |t.key|);
  }

  /** `addChild` of a key without `*` or `:` (lines 212-225): a new static
      child holding the value, whose format is the key itself, comes last
      among the static children and is returned. */
  lemma AddChildStatic(nodes: seq<RNode>, id: nat, key: string, val: Option<Value>, eng: Engine)
    requires Wf(nodes) && id < |nodes| && nodes[id].isStatic
    requires key != "" && forall k :: 0 <= k < |key| ==> !Special(key[k])
    ensures var t := nodes[id];
            var n := |nodes|;
            AddChildSpec(nodes, id, key, val, eng)
              == RStep(nodes[id := t.(schildren := t.schildren + [n])] + [RNode(true, key, val, [], key, [], [], Some(id))],
                       Ok(Some(n)))
  {
    TreeScanStatic(key, 0);
  }

  /** `addChild` of a key whose first parameter comes after some static
      bytes (lines 193-220): a new static node for those bytes, without a
      value, gets as its only regexp child a node for the rest, whose
      expression is the translation of the rest; the regexp node holds the
      value, all the parameters and the format of the whole key, and is
      returned. */
  lemma {:induction false} AddChildPrefixed(nodes: seq<RNode>, id: nat, key: string, val: Option<Value>, eng: Engine)
    requires Wf(nodes) && id < |nodes| && nodes[id].isStatic
    requires 0 < FirstSpecial(key, 0) < |key|
    requires eng.compile(TreeScan(key, FirstSpecial(key, 0)).regex + "$") == None
    ensures var t := nodes[id];
            var n := |nodes|;
            var f := FirstSpecial(key, 0);
            var rest := TreeScan(key, f);
            && rest.params != []
            && TreeScan(key, 0).format == key[..f] + rest.format
            && TreeScan(key, 0).params == rest.params
            && AddChildSpec(nodes, id, key, val, eng)
                 == RStep(nodes[id := t.(schildren := t.schildren + [n])]
                            + [RNode(true, key[..f], None, [], "", [], [n + 1], Some(id)),
                               RNode(false, rest.regex, val, rest.params, TreeScan(key, 0).format, [], [], Some(n))],
                          Ok(Some(n + 1)))
  {
    var f := FirstSpecial(key, 0);
    TreeScanSplit(key, 0);
    assert key[0..f] == key[..f];
    assert TreeScan(key, f).params != [];
  }

  /** `addChild` of a key that starts with a parameter, when a regexp child
      with the same expression exists (lines 228-234): it panics with that
      child's full key and changes nothing. */
  lemma AddChildDuplicate(nodes: seq<RNode>, id: nat, key: string, val: Option<Value>, eng: Engine, j: nat)
    requires Wf(nodes) && id < |nodes| && nodes[id].isStatic
    requires key != "" && Special(key[0])
    requires eng.compile(TreeScan(key, 0).regex + "$") == None
    requires j < |nodes[id].rchildren|
    requires assert NodeOk(nodes, id, nodes[id]); nodes[nodes[id].rchildren[j]].key == TreeScan(key, 0).regex
    ensures var s := AddChildSpec(nodes, id, key, val, eng);
            s.nodes == nodes && s.res.Panic? && IsPrefix(Exists, s.res.msg)
  {
    assert NodeOk(nodes, id, nodes[id]);
    assert TreeScan(key, 0).params != [];
    assert StaticKey(key) == "";
  }

  /** A key that does not compile panics in `addChild` (lines 204-207)
      with the compiler's message, before anything changes. */
  lemma AddChildBadRule(nodes: seq<RNode>, id: nat, key: string, val: Option<Value>, eng: Engine)
    requires Wf(nodes) && id < |nodes| && nodes[id].isStatic
    requires TreeScan(key, 0).params != [] && eng.compile(ReKey(key) + "$").Some?
    ensures AddChildSpec(nodes, id, key, val, eng)
              == RStep(nodes, Panic("tree.addChild: " + eng.compile(ReKey(key) + "$").value))
  {
  }

  /** A static route added below a node is found there by `Get`: after
      `addChild` of a key without parameters, `Get` of the node's key
      followed by that key returns the new node (no earlier static child
      can take the key, since none starts with its first byte). */
  lemma {:induction false} AddChildThenGet(nodes: seq<RNode>, id: nat, key: string, v: Value, eng: Engine)
    requires Wf(nodes) && id < |nodes| && nodes[id].isStatic
    requires key != "" && (forall k :: 0 <= k < |key| ==> !Special(key[k])) && Fresh(nodes, id, key)
    ensures var s := AddChildSpec(nodes, id, key, Some(v), eng);
            s.res == Ok(Some(|nodes|))
            && GetFrom(s.nodes, id, nodes[id].key + key, eng) == Some(Got(|nodes|, []))
  {
    AddChildStatic(nodes, id, key, Some(v), eng);
    var t := nodes[id];
    var n := |nodes|;
    var s := AddChildSpec(nodes, id, key, Some(v), eng);
    var b := s.nodes;
    assert NodeOk(nodes, id, t);
    var full := t.key + key;
    assert full[..|t.key|] == t.key && full[|t.key|..] == key;
    LCPUnique(t.key, full, |t.key|);
    LCPUnique(key, key, |key|);
    assert GetFrom(b, n, key, eng) == Some(Got(n, []));
    var cs := b[id].schildren;
    assert cs == t.schildren + [n];
    forall j | 0 <= j < |t.schildren|
      ensures GetFrom(b, cs[j], key, eng) == None
    {
      var c := cs[j];
      assert NodeOk(nodes, c, nodes[c]);
      assert Apart(nodes[c].key, key);
      assert Kept(nodes[c], b[c]);
      ApartIsLCP(b[c].key, key);
    }
    GetAmongSkips(b, cs, 0, |t.schildren|, key, eng);
  }

  /** The loop of `Get` passes over static children that find nothing. */
  lemma {:induction false} GetAmongSkips(nodes: seq<RNode>, cs: seq<nat>, i: nat, k: nat, key: string, eng: Engine)
    requires Wf(nodes) && In(nodes, cs) && i <= k <= |cs|
    requires forall j :: i <= j < k ==> GetFrom(nodes, cs[j], key, eng) == None
    ensures GetAmong(nodes, cs, i, key, eng) == GetAmong(nodes, cs, k, key, eng)
    decreases k - i
  {
    if i < k {
      GetAmongSkips(nodes, cs, i + 1, k, key, eng);
    }
  }
}
