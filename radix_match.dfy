/** `Match` of tree.go as a function over the leaf arena: one descent from
    the method's root, consuming a static leaf's pattern or, at a parameter
    leaf, the bytes up to the next `/`; it never backtracks. */
module RadixMatch {
  import opened Common
  import opened Names
  import opened RadixSpec

  /** The outcome of a match: the handlers found (`None` for Go's nil), the
      parameters bound on the way (also when the match fails), and the
      leaves visited. */
  datatype Found = Found(handlers: Option<seq<Handler>>, binds: seq<Bind>, trail: seq<nat>)

  /** The number of bytes a parameter leaf captures: all that is left when
      it has no children, otherwise up to the next `/`. */
  function Capture(leaves: seq<Leaf>, id: nat, path: string): (i: nat)
    requires id < |leaves|
    ensures i <= |path|
    ensures leaves[id].children == [] ==> i == |path|
    ensures leaves[id].children != [] ==> '/' !in path[..i] && (i == |path| || path[i] == '/')
  {
    if leaves[id].children == [] then |path| else RunUntil(path, '/')
  }

  /** The child the descent continues with when `b` is the next byte:
      with a single child, that child if it is a parameter leaf or starts
      with `b`; otherwise the first static child starting with `b`, and
      failing that the parameter child, which can only be the first. */
  function NextChild(leaves: seq<Leaf>, id: nat, b: char): (r: Option<nat>)
    requires Wf(leaves) && id < |leaves| && leaves[id].children != []
    ensures r.Some? ==> r.value < |leaves| && r.value in leaves[id].children
    ensures r.Some? ==> leaves[r.value].hasParam || leaves[r.value].alpha == b
    ensures r.Some? && leaves[id].hasParam ==> !leaves[r.value].hasParam
    ensures assert LeafOk(leaves, leaves[id]);
            var cs := leaves[id].children;
            (exists k :: 0 <= k < |cs| && !leaves[cs[k]].hasParam && leaves[cs[k]].alpha == b)
              ==> r.Some? && !leaves[r.value].hasParam
    ensures assert LeafOk(leaves, leaves[id]);
            var cs := leaves[id].children;
            r.None? <==> (forall k :: 0 <= k < |cs| ==> leaves[cs[k]].hasParam || leaves[cs[k]].alpha != b)
                         && !leaves[cs[0]].hasParam
  {
    assert LeafOk(leaves, leaves[id]);
    var cs := leaves[id].children;
    if |cs| == 1 then
      if leaves[cs[0]].hasParam || leaves[cs[0]].alpha == b then Some(cs[0]) else None
    else
      match FindFrom(leaves, cs, b, 0)
      case Some(c) => Some(c)
      case None => if leaves[cs[0]].hasParam then Some(cs[0]) else None
  }

  /** Puts the step at leaf `id` (with its bindings `bs`) in front of the
      outcome of the rest of the descent. */
  function Prepend(bs: seq<Bind>, id: nat, m: Found): Found
  {
    Found(m.handlers, bs + m.binds, [id] + m.trail)
  }

  /** One turn of the loop of `Match`: it either ends the match with the
      handlers found, or goes on at a child with the rest of the path; both
      carry the binding made at this leaf, if any. */
  datatype Hop =
    | Stop(handlers: Option<seq<Handler>>, binds: seq<Bind>)
    | Go(binds: seq<Bind>, next: nat, rest: string)

  /** One turn of the loop of `Match` (tree.go lines 86-139) at leaf `id`
      with the remaining `path`: a static leaf must be a prefix of the
      path and consumes it, a parameter leaf binds its name to the bytes it
      captures; a path used up ends at the leaf's handlers, otherwise the
      walk continues with `NextChild`, and stops without handlers when
      there is none. */
  function HopAt(leaves: seq<Leaf>, id: nat, path: string): (h: Hop)
    requires Wf(leaves) && id < |leaves|
    ensures leaves[id].hasParam <==> h.binds != []
    ensures leaves[id].hasParam ==> h.binds == [Bind(leaves[id].param, path[..Capture(leaves, id, path)])]
    ensures !leaves[id].hasParam && !IsPrefix(leaves[id].pattern, path) ==> h == Stop(None, [])
    ensures h.Go? ==> h.next < |leaves| && h.next in leaves[id].children
    ensures h.Go? ==> h.rest != [] && (leaves[h.next].hasParam || leaves[h.next].alpha == h.rest[0])
    ensures h.Go? ==> path == (if leaves[id].hasParam then h.binds[0].value else leaves[id].pattern) + h.rest
    ensures h.Go? ==> |h.rest| < |path| || (leaves[id].hasParam && !leaves[h.next].hasParam)
    ensures h.Stop? && h.handlers.Some? ==>
              path == (if leaves[id].hasParam then h.binds[0].value else leaves[id].pattern)
              && h.handlers == leaves[id].handlers
  {
    var r := leaves[id];
    assert LeafOk(leaves, r);
    if !r.hasParam then
      var l := |r.pattern|;
      if l <= |path| && r.pattern == path[..l] then
        if l == |path| then Stop(r.handlers, [])
        else if r.children == [] then Stop(None, [])
        else
          match NextChild(leaves, id, path[l])
          case None => Stop(None, [])
          case Some(c) => assert path == r.pattern + path[l..]; Go([], c, path[l..])
      else Stop(None, [])
    else
      var i := Capture(leaves, id, path);
      var b := Bind(r.param, path[..i]);
      if i == |path| then Stop(r.handlers, [b])
      else
        match NextChild(leaves, id, path[i])
        case None => Stop(None, [b])
        case Some(c) => assert path == path[..i] + path[i..]; Go([b], c, path[i..])
  }

  /** The loop of `Match` (tree.go lines 84-142) from leaf `id` on the
      remaining `path`. */
  function MatchFrom(leaves: seq<Leaf>, id: nat, path: string): (m: Found)
    requires Wf(leaves) && id < |leaves|
    ensures m.trail != [] && m.trail[0] == id
    ensures leaves[id].hasParam ==> m.binds != [] && m.binds[0] == Bind(leaves[id].param, path[..Capture(leaves, id, path)])
    ensures !leaves[id].hasParam && !IsPrefix(leaves[id].pattern, path) ==> m == Found(None, [], [id])
    decreases |path|, if leaves[id].hasParam then 1 else 0
  {
    match HopAt(leaves, id, path)
    case Stop(h, bs) => Found(h, bs, [id])
    case Go(bs, c, rest) => Prepend(bs, id, MatchFrom(leaves, c, rest))
  }

  /** A match is one turn of the loop followed by the match from where it
      went on. */
  lemma MatchUnfold(leaves: seq<Leaf>, id: nat, path: string)
    requires Wf(leaves) && id < |leaves|
    ensures var h := HopAt(leaves, id, path);
            MatchFrom(leaves, id, path)
              == if h.Stop? then Found(h.handlers, h.binds, [id])
                 else Prepend(h.binds, id, MatchFrom(leaves, h.next, h.rest))
  {
  }

  /** The loop state of `Match`: the match `goal` of the whole path is
      the bindings `bs` made so far followed by the match from leaf `id`
      of the rest `path`, and ends at the same handlers. */
  ghost predicate Pending(leaves: seq<Leaf>, id: nat, path: string, bs: seq<Bind>, goal: Found)
  {
    Wf(leaves) && id < |leaves|
    && var m := MatchFrom(leaves, id, path);
       goal.handlers == m.handlers && goal.binds == bs + m.binds
  }

  /** One turn keeps the loop state of `Match`, or ends it with the whole
      match: the turn's handlers, and its bindings after those made so
      far. */
  lemma MatchTurn(leaves: seq<Leaf>, id: nat, path: string, bs: seq<Bind>, goal: Found)
    requires Pending(leaves, id, path, bs, goal)
    ensures var h := HopAt(leaves, id, path);
            h.Stop? ==> goal.handlers == h.handlers && goal.binds == bs + h.binds
    ensures var h := HopAt(leaves, id, path);
            h.Go? ==> Pending(leaves, h.next, h.rest, bs + h.binds, goal)
  {
    if HopAt(leaves, id, path).Go? {
      GoOn(leaves, id, path, bs, goal);
    } else {
      MatchUnfold(leaves, id, path);
    }
  }

  /** `MatchTurn` for a turn that goes on at a child. */
  lemma GoOn(leaves: seq<Leaf>, id: nat, path: string, bs: seq<Bind>, goal: Found)
    requires Pending(leaves, id, path, bs, goal) && HopAt(leaves, id, path).Go?
    ensures var h := HopAt(leaves, id, path);
            Pending(leaves, h.next, h.rest, bs + h.binds, goal)
  {
    MatchUnfold(leaves, id, path);
    var h := HopAt(leaves, id, path);
    var m := MatchFrom(leaves, h.next, h.rest);
    assert MatchFrom(leaves, id, path).binds == h.binds + m.binds;
    assert bs + (h.binds + m.binds) == (bs + h.binds) + m.binds;
  }

  /** `Match(method, path, c)`: the descent from the root of the method
      (an unknown method reads the GET root, as Go's map lookup does). */
  function MatchSpec(leaves: seq<Leaf>, nodes: seq<nat>, verb: string, path: string): Found
    requires Wf(leaves) && |nodes| == Router.RouteLength && ChildrenIn(leaves, nodes)
  {
    MatchFrom(leaves, nodes[Router.MethodIndex(verb)], path)
  }

  /** A downward walk through the tree that spells `path`: each static leaf
      contributes its pattern, each parameter leaf the value bound to its
      name (with no `/` in it unless the walk ends there), and each leaf
      after the first is a child of the one before. */
  ghost predicate Spells(leaves: seq<Leaf>, trail: seq<nat>, binds: seq<Bind>, path: string)
    decreases |trail|
  {
    && trail != []
    && trail[0] < |leaves|
    && var l := leaves[trail[0]];
       if l.hasParam then
         && binds != []
         && binds[0].name == l.param
         && IsPrefix(binds[0].value, path)
         && if |trail| == 1 then |binds| == 1 && binds[0].value == path
            else
              && '/' !in binds[0].value
              && trail[1] in l.children
              && Spells(leaves, trail[1..], binds[1..], path[|binds[0].value|..])
       else
         && IsPrefix(l.pattern, path)
         && if |trail| == 1 then binds == [] && l.pattern == path
            else
              && trail[1] in l.children
              && Spells(leaves, trail[1..], binds, path[|l.pattern|..])
  }

  /** Every match that finds handlers is justified: the leaves visited form
      a walk down from the starting leaf that spells the whole path with
      the bound parameters, and the handlers are those of the last leaf. */
  lemma {:induction false} MatchSound(leaves: seq<Leaf>, id: nat, path: string)
    requires Wf(leaves) && id < |leaves|
    ensures var m := MatchFrom(leaves, id, path);
            m.handlers.Some? ==>
              && Spells(leaves, m.trail, m.binds, path)
              && m.trail[|m.trail| - 1] < |leaves|
              && m.handlers == leaves[m.trail[|m.trail| - 1]].handlers
    decreases |path|, if leaves[id].hasParam then 1 else 0
  {
    var m := MatchFrom(leaves, id, path);
    var h := HopAt(leaves, id, path);
    if m.handlers.Some? && h.Go? {
      var rest := MatchFrom(leaves, h.next, h.rest);
      MatchSound(leaves, h.next, h.rest);
      assert m == Prepend(h.binds, id, rest);
      SpellsPrepend(leaves, id, path, rest);
    }
  }

  /** A turn of the loop that goes on, put in front of a walk that spells
      the rest of the path, gives a walk that spells the whole path. */
  lemma SpellsPrepend(leaves: seq<Leaf>, id: nat, path: string, rest: Found)
    requires Wf(leaves) && id < |leaves| && HopAt(leaves, id, path).Go?
    requires var h := HopAt(leaves, id, path);
             rest.trail != [] && rest.trail[0] == h.next && Spells(leaves, rest.trail, rest.binds, h.rest)
    ensures var m := Prepend(HopAt(leaves, id, path).binds, id, rest);
            Spells(leaves, m.trail, m.binds, path) && m.trail[|m.trail| - 1] == rest.trail[|rest.trail| - 1]
  {
    var h := HopAt(leaves, id, path);
    var m := Prepend(h.binds, id, rest);
    assert m.trail[1..] == rest.trail;
    if leaves[id].hasParam {
      assert m.binds[1..] == rest.binds;
    } else {
      assert m.binds == rest.binds;
    }
  }
}
