/** The radix tree of tree.go as values. The leaves of one `Tree` live in an
    arena, a sequence where a Go pointer is an index; a leaf names its parent and its
    children by index. Every operation of tree.go that rewires leaves is
    given here as a function from the arena before to the arena after, with
    the panics of the Go code as `Panic` results (the arena then keeps what
    was already changed, as the Go tree does). The class in radix_tree.dfy
    performs the same steps in place and is proved to agree with these
    functions. */
module RadixSpec {
  import opened Common
  import opened Names
  import opened Router
  import opened Groups

  /** A `Leaf`. `root` (the owning tree) is left out: only `Name` reads it,
      and `Name` is only called on the leaf `add` returns, which always
      points at its tree. */
  datatype Leaf = Leaf(
    hasParam: bool,
    alpha: char,
    pattern: string,
    param: string,
    parent: Option<nat>,
    children: seq<nat>,
    handlers: Option<seq<Handler>>)

  /** The arena after a step, and the leaf the step returned or its panic. */
  datatype Step = Step(leaves: seq<Leaf>, res: Result<nat>)

  /** The panic of two different parameter names at the same place. */
  function ParamConflict(old_: string, new_: string): string
  {
    "Router Tree.insert error cannot use two param [:" + old_ + ", :" + new_ + "]with same prefix!"
  }

  /** `newLeaf(pattern, handlers, _)`: a static leaf without parent or
      children (Go indexes `pattern[0]`, so the pattern is never empty). */
  function NewLeaf(pattern: string, handlers: Option<seq<Handler>>): (l: Leaf)
    requires pattern != ""
    ensures !l.hasParam && l.pattern == pattern && l.alpha == pattern[0]
    ensures l.parent == None && l.children == [] && l.handlers == handlers
  {
    Leaf(false, pattern[0], pattern, "", None, [], handlers)
  }

  /** The leaf `add` makes for `:name`: pattern ":", `hasParam` set. */
  function ParamLeaf(name: string, handlers: Option<seq<Handler>>): (l: Leaf)
    ensures l.hasParam && l.pattern == ":" && l.alpha == ':' && l.param == name
    ensures l.parent == None && l.children == [] && l.handlers == handlers
  {
    Leaf(true, ':', ":", name, None, [], handlers)
  }

  /** The children of a leaf are arena indices. */
  predicate ChildrenIn(leaves: seq<Leaf>, cs: seq<nat>)
  {
    forall j :: 0 <= j < |cs| ==> cs[j] < |leaves|
  }

  /** The shape every leaf of a tree keeps: a non-empty pattern whose first
      byte is `alpha`; a parameter leaf has the pattern ":" and a static
      leaf has no `:` at all; only the first child may be a parameter leaf,
      and a parameter leaf has only static children. */
  predicate LeafOk(leaves: seq<Leaf>, l: Leaf)
  {
    && l.pattern != "" && l.alpha == l.pattern[0]
    && (l.hasParam ==> l.pattern == ":")
    && (!l.hasParam ==> ':' !in l.pattern)
    && (l.parent.Some? ==> l.parent.value < |leaves|)
    && ChildrenIn(leaves, l.children)
    && (forall j :: 0 <= j < |l.children| && (j > 0 || l.hasParam) ==> !leaves[l.children[j]].hasParam)
  }

  /** Every leaf of the arena keeps its shape. */
  predicate Wf(leaves: seq<Leaf>)
  {
    forall id {:trigger LeafOk(leaves, leaves[id])} :: 0 <= id < |leaves| ==> LeafOk(leaves, leaves[id])
  }

  /** Replacing a leaf by one of the same kind that keeps its shape keeps
      the arena well formed. */
  lemma WfUpdate(leaves: seq<Leaf>, id: nat, l: Leaf)
    requires Wf(leaves) && id < |leaves|
    requires l.hasParam == leaves[id].hasParam
    requires LeafOk(leaves, l)
    ensures Wf(leaves[id := l])
  {
    var ls := leaves[id := l];
    forall x | 0 <= x < |ls|
      ensures LeafOk(ls, ls[x])
    {
      var lx := ls[x];
      assert LeafOk(leaves, lx);
      forall j | 0 <= j < |lx.children| && (j > 0 || lx.hasParam)
        ensures !ls[lx.children[j]].hasParam
      {
        assert !leaves[lx.children[j]].hasParam;
      }
    }
  }

  /** Adding a leaf that keeps its shape keeps the arena well formed. */
  lemma WfAppend(leaves: seq<Leaf>, l: Leaf)
    requires Wf(leaves)
    requires LeafOk(leaves + [l], l)
    ensures Wf(leaves + [l])
  {
    var ls := leaves + [l];
    forall x | 0 <= x < |ls|
      ensures LeafOk(ls, ls[x])
    {
      if x < |leaves| {
        var lx := ls[x];
        assert lx == leaves[x];
        assert LeafOk(leaves, lx);
        forall j | 0 <= j < |lx.children| && (j > 0 || lx.hasParam)
          ensures !ls[lx.children[j]].hasParam
        {
          assert ls[lx.children[j]] == leaves[lx.children[j]];
        }
      }
    }
  }

  /** A suffix of a string without `:` has none either. */
  lemma NoColonSuffix(s: string, k: nat)
    requires ':' !in s && k <= |s|
    ensures ':' !in s[k..]
  {
  }

  /** A prefix of a string without `:` has none either. */
  lemma NoColonPrefix(s: string, k: nat)
    requires ':' !in s && k <= |s|
    ensures ':' !in s[..k]
  {
  }

  /** Two arenas with the same leaves as far as the tree's shape goes: the
      same number of leaves, each with the same pattern, first byte, kind
      and parameter name (parents, children and handlers may differ). */
  predicate SameShape(a: seq<Leaf>, b: seq<Leaf>)
  {
    |a| == |b| &&
    forall x :: 0 <= x < |a| ==>
      a[x].pattern == b[x].pattern && a[x].alpha == b[x].alpha
      && a[x].hasParam == b[x].hasParam && a[x].param == b[x].param
  }

  /** The first index from `i` on of a child whose pattern is `p`, or the
      number of children when there is none. */
  function IndexFrom(leaves: seq<Leaf>, cs: seq<nat>, p: string, i: nat): (k: nat)
    requires ChildrenIn(leaves, cs) && i <= |cs|
    ensures i <= k <= |cs|
    ensures k < |cs| ==> leaves[cs[k]].pattern == p
    ensures forall j :: i <= j < k ==> leaves[cs[j]].pattern != p
    decreases |cs| - i
  {
    if i == |cs| then i
    else if leaves[cs[i]].pattern == p then i
    else IndexFrom(leaves, cs, p, i + 1)
  }

  /** `findChild(b)` from index `i` on: the first static child whose first
      byte is `b`. */
  function FindFrom(leaves: seq<Leaf>, cs: seq<nat>, b: char, i: nat): (r: Option<nat>)
    requires ChildrenIn(leaves, cs) && i <= |cs|
    ensures r.Some? ==> exists k :: i <= k < |cs| && cs[k] == r.value
    ensures r.Some? ==> r.value < |leaves| && !leaves[r.value].hasParam && leaves[r.value].alpha == b
    ensures r.None? <==> forall k :: i <= k < |cs| ==> leaves[cs[k]].hasParam || leaves[cs[k]].alpha != b
    decreases |cs| - i
  {
    if i == |cs| then None
    else if leaves[cs[i]].alpha == b && !leaves[cs[i]].hasParam then Some(cs[i])
    else FindFrom(leaves, cs, b, i + 1)
  }

  /** Stores `h` as the leaf's handlers unless it is `nil`. */
  function SetHandlers(leaves: seq<Leaf>, id: nat, h: Option<seq<Handler>>): (ls: seq<Leaf>)
    requires id < |leaves|
    ensures |ls| == |leaves|
    ensures forall x :: 0 <= x < |ls| && x != id ==> ls[x] == leaves[x]
    ensures h.None? ==> ls == leaves
    ensures h.Some? ==> ls[id] == leaves[id].(handlers := h)
    ensures SameShape(ls, leaves)
  {
    if h.Some? then leaves[id := leaves[id].(handlers := h)] else leaves
  }

  lemma WfSetHandlers(leaves: seq<Leaf>, id: nat, h: Option<seq<Handler>>)
    requires Wf(leaves) && id < |leaves|
    ensures Wf(SetHandlers(leaves, id, h))
  {
    if h.Some? {
      assert LeafOk(leaves, leaves[id]);
      WfUpdate(leaves, id, leaves[id].(handlers := h));
    }
  }

  /** `l.resetPattern(p)`. */
  function ResetPattern(leaves: seq<Leaf>, id: nat, p: string): (ls: seq<Leaf>)
    requires id < |leaves| && p != ""
    ensures |ls| == |leaves|
    ensures ls[id] == leaves[id].(pattern := p, alpha := p[0])
    ensures forall x :: 0 <= x < |ls| && x != id ==> ls[x] == leaves[x]
  {
    leaves[id := leaves[id].(pattern := p, alpha := p[0])]
  }

  lemma WfResetPattern(leaves: seq<Leaf>, id: nat, p: string)
    requires Wf(leaves) && id < |leaves| && p != ""
    requires !leaves[id].hasParam && ':' !in p
    ensures Wf(ResetPattern(leaves, id, p))
  {
    assert LeafOk(leaves, leaves[id]);
    WfUpdate(leaves, id, leaves[id].(pattern := p, alpha := p[0]));
  }

  /** `l.deleteChild(node)`: drops the first child whose pattern equals the
      pattern of `node` (not necessarily `node` itself), keeping the others
      in order. */
  function DeleteChild(leaves: seq<Leaf>, l: nat, node: nat): (ls: seq<Leaf>)
    requires Wf(leaves) && l < |leaves| && node < |leaves|
    ensures |ls| == |leaves|
    ensures forall x :: 0 <= x < |ls| && x != l ==> ls[x] == leaves[x]
    ensures ls[l] == leaves[l].(children := ls[l].children)
    ensures SameShape(ls, leaves)
    ensures assert LeafOk(leaves, leaves[l]);
            var cs := leaves[l].children;
            var k := IndexFrom(leaves, cs, leaves[node].pattern, 0);
            ls[l].children == if k == |cs| then cs else cs[..k] + cs[k + 1..]
  {
    assert LeafOk(leaves, leaves[l]);
    var cs := leaves[l].children;
    var k := IndexFrom(leaves, cs, leaves[node].pattern, 0);
    if k == |cs| then leaves
    else leaves[l := leaves[l].(children := cs[..k] + cs[k + 1..])]
  }

  lemma WfDeleteChild(leaves: seq<Leaf>, l: nat, node: nat)
    requires Wf(leaves) && l < |leaves| && node < |leaves|
    ensures Wf(DeleteChild(leaves, l, node))
  {
    var lf := leaves[l];
    assert LeafOk(leaves, lf);
    var cs := lf.children;
    var k := IndexFrom(leaves, cs, leaves[node].pattern, 0);
    if k < |cs| {
      var lf' := lf.(children := cs[..k] + cs[k + 1..]);
      DropChildOk(leaves, lf, k);
      WfUpdate(leaves, l, lf');
    }
  }

  /** A leaf that loses one of its children keeps its shape. */
  lemma DropChildOk(leaves: seq<Leaf>, lf: Leaf, k: nat)
    requires LeafOk(leaves, lf) && k < |lf.children|
    ensures LeafOk(leaves, lf.(children := lf.children[..k] + lf.children[k + 1..]))
  {
    var cs := lf.children;
    var cs' := cs[..k] + cs[k + 1..];
    forall j | 0 <= j < |cs'|
      ensures cs'[j] == cs[if j < k then j else j + 1]
    {
    }
  }

  /** Appending `node` and swapping it with the first child puts it in
      front and moves the old first child to the back. */
  lemma SwapFront(cs: seq<nat>, node: nat)
    requires cs != []
    ensures (cs + [node])[0 := node][|cs| := cs[0]] == [node] + cs[1..] + [cs[0]]
  {
  }

  /** `l.insertChild(node)`. A child with the pattern of `node` already
      there is kept: it takes the handlers of `node` unless those are `nil`,
      and it is returned; two parameter leaves with different names panic.
      Otherwise `node` gets `l` as parent and is appended, and a parameter
      leaf is swapped to the front. */
  function InsertChild(leaves: seq<Leaf>, l: nat, node: nat): (s: Step)
    requires Wf(leaves) && l < |leaves| && node < |leaves|
    ensures SameShape(s.leaves, leaves)
    ensures s.res.Ok? ==> s.res.value < |leaves|
    ensures assert LeafOk(leaves, leaves[l]);
            var cs := leaves[l].children;
            var k := IndexFrom(leaves, cs, leaves[node].pattern, 0);
            k < |cs| ==>
              var c := leaves[cs[k]];
              if c.hasParam && leaves[node].hasParam && c.param != leaves[node].param
              then s == Step(leaves, Panic(ParamConflict(c.param, leaves[node].param)))
              else s == Step(SetHandlers(leaves, cs[k], leaves[node].handlers), Ok(cs[k]))
    ensures assert LeafOk(leaves, leaves[l]);
            var cs := leaves[l].children;
            IndexFrom(leaves, cs, leaves[node].pattern, 0) == |cs| ==>
              && s.res == Ok(node)
              && s.leaves[node].parent == Some(l)
              && (forall x :: 0 <= x < |leaves| && x != l && x != node ==> s.leaves[x] == leaves[x])
              && s.leaves[l].children
                   == if cs != [] && leaves[node].hasParam then [node] + cs[1..] + [cs[0]] else cs + [node]
  {
    assert LeafOk(leaves, leaves[l]);
    var cs := leaves[l].children;
    var n := leaves[node];
    var k := IndexFrom(leaves, cs, n.pattern, 0);
    if k < |cs| then
      var c := leaves[cs[k]];
      if c.hasParam && n.hasParam && c.param != n.param then
        Step(leaves, Panic(ParamConflict(c.param, n.param)))
      else
        Step(SetHandlers(leaves, cs[k], n.handlers), Ok(cs[k]))
    else
      var l1 := leaves[node := n.(parent := Some(l))];
      var cs2 := l1[l].children + [node];
      var i := |cs2| - 1;
      if i > 0 && n.hasParam then
        SwapFront(cs, node);
        Step(l1[l := l1[l].(children := cs2[0 := node][i := cs2[0]])], Ok(node))
      else
        Step(l1[l := l1[l].(children := cs2)], Ok(node))
  }

  lemma WfInsertChild(leaves: seq<Leaf>, l: nat, node: nat)
    requires Wf(leaves) && l < |leaves| && node < |leaves|
    requires leaves[l].hasParam ==> !leaves[node].hasParam
    ensures Wf(InsertChild(leaves, l, node).leaves)
  {
    assert LeafOk(leaves, leaves[l]);
    var cs := leaves[l].children;
    var n := leaves[node];
    var k := IndexFrom(leaves, cs, n.pattern, 0);
    if k < |cs| {
      WfSetHandlers(leaves, cs[k], n.handlers);
    } else {
      WfInsertNew(leaves, l, node);
    }
  }

  /** `WfInsertChild` when no child has the pattern of `node`. */
  lemma WfInsertNew(leaves: seq<Leaf>, l: nat, node: nat)
    requires Wf(leaves) && l < |leaves| && node < |leaves|
    requires leaves[l].hasParam ==> !leaves[node].hasParam
    requires assert LeafOk(leaves, leaves[l]);
             IndexFrom(leaves, leaves[l].children, leaves[node].pattern, 0) == |leaves[l].children|
    ensures Wf(InsertChild(leaves, l, node).leaves)
  {
    var n := leaves[node];
    assert LeafOk(leaves, n);
    var l1 := leaves[node := n.(parent := Some(l))];
    WfUpdate(leaves, node, n.(parent := Some(l)));
    if |l1[l].children| > 0 && n.hasParam {
      WfInsertSwap(leaves, l, node, l1);
    } else {
      WfInsertAppend(leaves, l, node, l1);
    }
  }

  /** `WfInsertNew` when `node` is a parameter leaf that is swapped to the
      front of the children. */
  lemma WfInsertSwap(leaves: seq<Leaf>, l: nat, node: nat, l1: seq<Leaf>)
    requires Wf(leaves) && l < |leaves| && node < |leaves|
    requires leaves[l].hasParam ==> !leaves[node].hasParam
    requires assert LeafOk(leaves, leaves[l]);
             IndexFrom(leaves, leaves[l].children, leaves[node].pattern, 0) == |leaves[l].children|
    requires l1 == leaves[node := leaves[node].(parent := Some(l))] && Wf(l1)
    requires |l1[l].children| > 0 && leaves[node].hasParam
    ensures Wf(InsertChild(leaves, l, node).leaves)
  {
    var cs := leaves[l].children;
    var lf := l1[l];
    assert LeafOk(l1, lf);
    var cs1 := lf.children;
    var i := |cs1|;
    assert cs1 == cs || node == l;
    assert !l1[cs1[0]].hasParam by {
      assert LeafOk(leaves, leaves[l]) && LeafOk(leaves, leaves[node]);
      assert LeafOk(leaves, leaves[cs[0]]);
      assert leaves[cs[0]].pattern != leaves[node].pattern;
    }
    SwapChildOk(l1, lf, node);
    assert (cs1 + [node])[0] == cs1[0] && |cs1 + [node]| - 1 == i;
    WfUpdate(l1, l, lf.(children := (cs1 + [node])[0 := node][i := cs1[0]]));
    assert InsertChild(leaves, l, node).leaves == l1[l := lf.(children := (cs1 + [node])[0 := node][i := cs1[0]])];
  }

  /** `WfInsertNew` when `node` is appended as the last child. */
  lemma WfInsertAppend(leaves: seq<Leaf>, l: nat, node: nat, l1: seq<Leaf>)
    requires Wf(leaves) && l < |leaves| && node < |leaves|
    requires leaves[l].hasParam ==> !leaves[node].hasParam
    requires assert LeafOk(leaves, leaves[l]);
             IndexFrom(leaves, leaves[l].children, leaves[node].pattern, 0) == |leaves[l].children|
    requires l1 == leaves[node := leaves[node].(parent := Some(l))] && Wf(l1)
    requires !(|l1[l].children| > 0 && leaves[node].hasParam)
    ensures Wf(InsertChild(leaves, l, node).leaves)
  {
    var lf := l1[l];
    assert LeafOk(l1, lf);
    var cs1 := lf.children;
    assert l1[node].hasParam == leaves[node].hasParam;
    AppendChildOk(l1, lf, node);
    WfUpdate(l1, l, lf.(children := cs1 + [node]));
    assert InsertChild(leaves, l, node).leaves == l1[l := lf.(children := cs1 + [node])];
  }

  /** A leaf that gets a new last child keeps its shape, unless that child
      is a parameter leaf that would not come first. */
  lemma AppendChildOk(ls: seq<Leaf>, lf: Leaf, node: nat)
    requires LeafOk(ls, lf) && node < |ls|
    requires (lf.hasParam || lf.children != []) ==> !ls[node].hasParam
    ensures LeafOk(ls, lf.(children := lf.children + [node]))
  {
    var cs := lf.children + [node];
    forall j | 0 <= j < |cs|
      ensures cs[j] == if j < |lf.children| then lf.children[j] else node
    {
    }
  }

  /** A static leaf whose first child is static keeps its shape when a
      parameter leaf is appended and swapped to the front. */
  lemma SwapChildOk(ls: seq<Leaf>, lf: Leaf, node: nat)
    requires LeafOk(ls, lf) && node < |ls| && !lf.hasParam
    requires lf.children != [] && !ls[lf.children[0]].hasParam
    ensures LeafOk(ls, lf.(children := (lf.children + [node])[0 := node][|lf.children| := lf.children[0]]))
  {
    var i := |lf.children|;
    var cs := (lf.children + [node])[0 := node][i := lf.children[0]];
    forall j | 0 <= j < |cs|
      ensures cs[j] == if j == 0 then node else if j < i then lf.children[j] else lf.children[0]
    {
    }
  }


  /** Lines 306-310 of `insert`: `node`, whose pattern is a proper prefix
      of the pattern of `root`, takes the place of `root` under `p`, and
      `root`, cut down to its suffix from `pos`, becomes a child of `node`. */
  function Reparent(leaves: seq<Leaf>, root: nat, node: nat, p: nat, pos: nat): (s: Step)
    requires Wf(leaves) && root < |leaves| && node < |leaves| && p < |leaves|
    requires !leaves[root].hasParam && !leaves[node].hasParam
    requires pos < |leaves[root].pattern|
    ensures Wf(s.leaves) && |s.leaves| == |leaves|
    ensures s.res.Ok? ==> s.res.value == node
  {
    WfDeleteChild(leaves, p, root);
    var l1 := DeleteChild(leaves, p, root);
    WfInsertChild(l1, p, node);
    var s2 := InsertChild(l1, p, node);
    if s2.res.Panic? then s2
    else
      var suffix := s2.leaves[root].pattern[pos..];
      assert LeafOk(s2.leaves, s2.leaves[root]);
      NoColonSuffix(s2.leaves[root].pattern, pos);
      WfResetPattern(s2.leaves, root, suffix);
      var l3 := ResetPattern(s2.leaves, root, suffix);
      WfInsertChild(l3, node, root);
      var s4 := InsertChild(l3, node, root);
      if s4.res.Panic? then s4 else Step(s4.leaves, Ok(node))
  }

  /** Lines 332-339 of `insert`: a new static leaf holding the common
      prefix (the first `pos` bytes of `root`) takes the place of `root`
      under `p`; `root`, cut down to its suffix, and `node` become its
      children. */
  function Split(leaves: seq<Leaf>, root: nat, node: nat, p: nat, pos: nat): (s: Step)
    requires Wf(leaves) && root < |leaves| && node < |leaves| && p < |leaves|
    requires !leaves[root].hasParam && !leaves[node].hasParam
    requires 0 < pos < |leaves[root].pattern|
    ensures Wf(s.leaves) && |s.leaves| == |leaves| + 1
    ensures s.res.Ok? ==> s.res.value == node
  {
    var pid := |leaves|;
    var prefix := leaves[root].pattern[..pos];
    assert LeafOk(leaves, leaves[root]);
    NoColonPrefix(leaves[root].pattern, pos);
    WfAppend(leaves, NewLeaf(prefix, None));
    var l1 := leaves + [NewLeaf(prefix, None)];
    WfDeleteChild(l1, p, root);
    var l2 := DeleteChild(l1, p, root);
    WfInsertChild(l2, p, pid);
    var s3 := InsertChild(l2, p, pid);
    if s3.res.Panic? then s3
    else
      var suffix := s3.leaves[root].pattern[pos..];
      NoColonSuffix(s3.leaves[root].pattern, pos);
      WfResetPattern(s3.leaves, root, suffix);
      var l4 := ResetPattern(s3.leaves, root, suffix);
      WfInsertChild(l4, pid, root);
      var s5 := InsertChild(l4, pid, root);
      if s5.res.Panic? then s5
      else
        WfInsertChild(s5.leaves, pid, node);
        var s6 := InsertChild(s5.leaves, pid, node);
        if s6.res.Panic? then s6 else Step(s6.leaves, Ok(node))
  }

  /** `t.insert(root, node)`: splices the detached leaf `node` into the
      subtree at `root` and returns the leaf that now carries its pattern. */
  function Insert(leaves: seq<Leaf>, root: nat, node: nat): (s: Step)
    requires Wf(leaves) && root < |leaves| && node < |leaves|
    ensures Wf(s.leaves) && |leaves| <= |s.leaves|
    ensures s.res.Ok? ==> s.res.value < |s.leaves|
    ensures leaves[root].pattern == leaves[node].pattern ==>
              s == Step(SetHandlers(leaves, root, leaves[node].handlers), Ok(root))
    ensures leaves[root].pattern != leaves[node].pattern && !leaves[root].hasParam && leaves[node].hasParam ==>
              s == InsertChild(leaves, root, node)
    decreases |leaves[node].pattern|, if leaves[root].hasParam then 2 else 0, 0
  {
    var r := leaves[root];
    var n := leaves[node];
    assert LeafOk(leaves, r) && LeafOk(leaves, n);
    if r.pattern == n.pattern then
      WfSetHandlers(leaves, root, n.handlers);
      Step(SetHandlers(leaves, root, n.handlers), Ok(root))
    else if !r.hasParam && n.hasParam then
      WfInsertChild(leaves, root, node);
      InsertChild(leaves, root, node)
    else if r.hasParam then
      Scan(leaves, root, node, 0)
    else
      var pos := LCP(r.pattern, n.pattern);
      if pos == |n.pattern| then
        match r.parent
        case None => Step(leaves, Panic(NilDeref))
        case Some(p) => Reparent(leaves, root, node, p, pos)
      else
        NoColonSuffix(n.pattern, pos);
        WfResetPattern(leaves, node, n.pattern[pos..]);
        var l1 := ResetPattern(leaves, node, n.pattern[pos..]);
        if pos == |r.pattern| then
          Scan(l1, root, node, 0)
        else if pos == 0 then
          Step(l1, Panic(IndexOfEmpty))
        else
          match r.parent
          case None => Step(l1, Panic(NilDeref))
          case Some(p) => Split(l1, root, node, p, pos)
  }

  /** The loops of `insert` over the children of `root` (lines 287-300 and
      315-328), from child `i` on: a child with the pattern of `node` takes
      its handlers, a child sharing a first byte with it receives it, and
      otherwise `node` is appended to the children. */
  function Scan(leaves: seq<Leaf>, root: nat, node: nat, i: nat): (s: Step)
    requires Wf(leaves) && root < |leaves| && node < |leaves|
    requires !leaves[node].hasParam && i <= |leaves[root].children|
    ensures Wf(s.leaves) && |leaves| <= |s.leaves|
    ensures s.res.Ok? ==> s.res.value < |s.leaves|
    decreases |leaves[node].pattern|, 1, |leaves[root].children| - i
  {
    var cs := leaves[root].children;
    assert LeafOk(leaves, leaves[root]);
    if i == |cs| then
      WfInsertChild(leaves, root, node);
      var s := InsertChild(leaves, root, node);
      if s.res.Panic? then s else Step(s.leaves, Ok(node))
    else
      var c := cs[i];
      if leaves[c].pattern == leaves[node].pattern then
        WfSetHandlers(leaves, c, leaves[node].handlers);
        Step(SetHandlers(leaves, c, leaves[node].handlers), Ok(c))
      else if LCP(leaves[c].pattern, leaves[node].pattern) > 0 then
        assert !leaves[c].hasParam by {
          var m := LCP(leaves[c].pattern, leaves[node].pattern);
          assert LeafOk(leaves, leaves[c]) && LeafOk(leaves, leaves[node]);
          assert leaves[c].pattern[..m][0] == leaves[node].pattern[..m][0];
          assert leaves[node].pattern[0] in leaves[node].pattern;
        }
        Insert(leaves, c, node)
      else
        Scan(leaves, root, node, i + 1)
  }

  /** The panics of `add`. */
  function Unsupported(verb: string): string
  {
    "unsupport http method [" + verb + "]"
  }
  const EmptyPattern: string := "route pattern can not be emtpy!"
  const NoLeadingSlash: string := "route pattern must begin /"
  const EmptyParam: string := "route pattern param is empty"

  /** Splices a detached leaf under `root`, as `t.insert(root, newLeaf(..))`. */
  function Attach(leaves: seq<Leaf>, root: nat, l: Leaf): (s: Step)
    requires Wf(leaves) && root < |leaves| && LeafOk(leaves + [l], l)
    ensures Wf(s.leaves) && |leaves| < |s.leaves|
    ensures s.res.Ok? ==> s.res.value < |s.leaves|
  {
    WfAppend(leaves, l);
    Insert(leaves + [l], root, |leaves|)
  }

  /** A step of the scan of `add` and where the scan resumes. */
  datatype Piece = Piece(step: Step, next: nat)

  /** Inserts the static run `radix` gathered by the scan of `add` under
      `root` as a new leaf (lines 228-235 and 259-264); nothing to do for an
      empty run. */
  function Flush(leaves: seq<Leaf>, root: nat, radix: string, handlers: Option<seq<Handler>>): (s: Step)
    requires Wf(leaves) && root < |leaves| && ':' !in radix
    ensures Wf(s.leaves) && |leaves| <= |s.leaves|
    ensures s.res.Ok? ==> s.res.value < |s.leaves|
    ensures radix == "" ==> s == Step(leaves, Ok(root))
  {
    if radix == "" then Step(leaves, Ok(root)) else Attach(leaves, root, NewLeaf(radix, handlers))
  }

  /** The parameter leaf the scan of `add` makes for the `:` at byte `i`
      (lines 237-256): it is named by the bytes up to the next `/` and
      carries the handlers only when the name ends the pattern. */
  function NamedParam(pattern: string, i: nat, handlers: Option<seq<Handler>>): (l: Leaf)
    requires i < |pattern|
    ensures l.hasParam && l.pattern == ":" && l.children == []
    ensures var j := i + 1 + RunUntil(pattern[i + 1..], '/');
            l.param == pattern[i + 1..j] && (l.handlers == if j == |pattern| then handlers else None)
  {
    var j := i + 1 + RunUntil(pattern[i + 1..], '/');
    ParamLeaf(pattern[i + 1..j], if j == |pattern| then handlers else None)
  }

  /** The step of the scan of `add` at the `:` at byte `i`: the parameter
      leaf inserted under `root`, the scan resuming after its name; an empty
      name panics. */
  function ParamAt(leaves: seq<Leaf>, root: nat, pattern: string, i: nat,
                   handlers: Option<seq<Handler>>): (pc: Piece)
    requires Wf(leaves) && root < |leaves| && i < |pattern|
    ensures Wf(pc.step.leaves) && |leaves| <= |pc.step.leaves|
    ensures pc.step.res.Ok? ==> pc.step.res.value < |pc.step.leaves| && i < pc.next <= |pattern|
    ensures RunUntil(pattern[i + 1..], '/') == 0 <==> pc == Piece(Step(leaves, Panic(EmptyParam)), i)
  {
    var k := RunUntil(pattern[i + 1..], '/');
    if k == 0 then Piece(Step(leaves, Panic(EmptyParam)), i)
    else Piece(Attach(leaves, root, NamedParam(pattern, i, handlers)), i + 1 + k)
  }

  /** What the scan of `add` does at a `:`: the static run, then the
      parameter leaf. */
  function ParamStep(leaves: seq<Leaf>, root: nat, pattern: string, i: nat, radix: string,
                     handlers: Option<seq<Handler>>): (pc: Piece)
    requires Wf(leaves) && root < |leaves| && i < |pattern| && ':' !in radix
    ensures Wf(pc.step.leaves) && |leaves| <= |pc.step.leaves|
    ensures pc.step.res.Ok? ==> pc.step.res.value < |pc.step.leaves| && i < pc.next <= |pattern|
  {
    var s1 := Flush(leaves, root, radix, None);
    if s1.res.Panic? then Piece(s1, i) else ParamAt(s1.leaves, s1.res.value, pattern, i, handlers)
  }

  /** The scanning loop of `add` (lines 225-265) from byte `i` on, with the
      static bytes not yet inserted in `radix` and `root` the leaf the next
      piece goes under: a static run is inserted when a `:` starts a
      parameter and at the end. */
  function AddScan(leaves: seq<Leaf>, root: nat, pattern: string, i: nat, radix: string,
                   handlers: Option<seq<Handler>>): (s: Step)
    requires Wf(leaves) && root < |leaves| && i <= |pattern| && ':' !in radix
    ensures Wf(s.leaves) && |leaves| <= |s.leaves|
    ensures s.res.Ok? ==> s.res.value < |s.leaves|
    decreases |pattern| - i
  {
    if i == |pattern| then Flush(leaves, root, radix, handlers)
    else if pattern[i] == ':' then
      var pc := ParamStep(leaves, root, pattern, i, radix, handlers);
      if pc.step.res.Panic? then pc.step
      else AddScan(pc.step.leaves, pc.step.res.value, pattern, pc.next, "", handlers)
    else
      AddScan(leaves, root, pattern, i + 1, radix + [pattern[i]], handlers)
  }

  /** The arena after `add` and the leaf it returns (or its panic). */
  datatype Added = Added(leaves: seq<Leaf>, res: Result<Leaf>)

  /** `t.add(method, pattern, handlers)` on a tree whose per-method roots
      are `nodes` and whose group stack is `groups`. */
  function AddSpec(leaves: seq<Leaf>, nodes: seq<nat>, groups: seq<Group>, verb: string,
                   pattern: string, handlers: Option<seq<Handler>>): (a: Added)
    requires Wf(leaves) && |nodes| == RouteLength && ChildrenIn(leaves, nodes)
    ensures Wf(a.leaves) && |leaves| <= |a.leaves|
    ensures verb !in RouterMethods ==> a == Added(leaves, Panic(Unsupported(verb)))
    ensures verb in RouterMethods && Join(groups, pattern, handlers).pattern == "" ==>
              a == Added(leaves, Panic(EmptyPattern))
    ensures verb in RouterMethods && Join(groups, pattern, handlers).pattern != ""
              && Join(groups, pattern, handlers).pattern[0] != '/' ==>
              a == Added(leaves, Panic(NoLeadingSlash))
    ensures a.res.Ok? ==> var r := Join(groups, pattern, handlers);
              && verb in RouterMethods && r.pattern != "" && r.pattern[0] == '/'
              && a.res.value == NewLeaf(r.pattern, r.handlers)
  {
    if verb !in RouterMethods then Added(leaves, Panic(Unsupported(verb)))
    else
      var r := Join(groups, pattern, handlers);
      if r.pattern == "" then Added(leaves, Panic(EmptyPattern))
      else if r.pattern[0] != '/' then Added(leaves, Panic(NoLeadingSlash))
      else
        var s := AddScan(leaves, nodes[RouterMethods[verb]], r.pattern, 0, "", r.handlers);
        if s.res.Panic? then Added(s.leaves, Panic(s.res.msg))
        else Added(s.leaves, Ok(NewLeaf(r.pattern, r.handlers)))
  }
}
