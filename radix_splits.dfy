/** What the two splices of `insert` do to `Match`: the reparenting of
    tree.go lines 304-311, where the new leaf's pattern is a proper prefix
    of an existing leaf's, and the split of lines 331-339, where the two
    patterns part after a common prefix. Every path the parent of the
    spliced leaf matched before is matched after with the same handlers and
    the same parameters, and the only path found anew is the route of the
    new leaf.

    These facts rest on the shape the trees built by `add` have, which `Wf`
    does not state: the arena is acyclic (each child ranks below its
    parent), the leaf being split is the child of its parent and of no
    other leaf, the new leaf is nobody's child yet, and the static children
    of the parent differ in their first byte. */
module RadixSplits {
  import opened Common
  import opened RadixSpec
  import opened RadixMatch

  /** The arena is acyclic: `rank` drops from every leaf to each of its
      children. */
  predicate Ranked(leaves: seq<Leaf>, rank: seq<nat>)
  {
    && |rank| == |leaves|
    && forall x, j :: 0 <= x < |leaves| && 0 <= j < |leaves[x].children| && leaves[x].children[j] < |leaves| ==>
         rank[leaves[x].children[j]] < rank[x]
  }

  /** No leaf names `x` as a child. */
  predicate Orphan(leaves: seq<Leaf>, x: nat)
  {
    forall y, j :: 0 <= y < |leaves| && 0 <= j < |leaves[y].children| ==> leaves[y].children[j] != x
  }

  /** No leaf other than `p` names `x` as a child. */
  predicate OnlyChildOf(leaves: seq<Leaf>, x: nat, p: nat)
  {
    forall y, j :: 0 <= y < |leaves| && 0 <= j < |leaves[y].children| && leaves[y].children[j] == x ==> y == p
  }

  /** The static children of `p` differ in their first byte. */
  predicate Distinct(leaves: seq<Leaf>, p: nat)
  {
    && p < |leaves|
    && ChildrenIn(leaves, leaves[p].children)
    && var cs := leaves[p].children;
       forall j, k :: 0 <= j < k < |cs| && !leaves[cs[j]].hasParam && !leaves[cs[k]].hasParam ==>
         leaves[cs[j]].alpha != leaves[cs[k]].alpha
  }

  /** `b` keeps every leaf of `a` outside `changed`, and no leaf outside
      `changed` that ranks below `k` has a child in it. */
  predicate Frozen(a: seq<Leaf>, b: seq<Leaf>, rank: seq<nat>, k: nat, changed: set<nat>)
  {
    && |a| <= |b| && |rank| == |a|
    && (forall x :: 0 <= x < |a| && x !in changed ==> b[x] == a[x])
    && (forall x, j :: 0 <= x < |a| && x !in changed && rank[x] < k && 0 <= j < |a[x].children| ==>
          a[x].children[j] !in changed)
  }

  /** `findChild` only reads the children it is given. */
  lemma {:induction false} FindSame(a: seq<Leaf>, b: seq<Leaf>, cs: seq<nat>, ch: char, i: nat)
    requires ChildrenIn(a, cs) && ChildrenIn(b, cs) && i <= |cs|
    requires forall j :: 0 <= j < |cs| ==> b[cs[j]] == a[cs[j]]
    ensures FindFrom(b, cs, ch, i) == FindFrom(a, cs, ch, i)
    decreases |cs| - i
  {
    if i < |cs| {
      FindSame(a, b, cs, ch, i + 1);
    }
  }

  /** One turn of `Match` at a leaf only reads that leaf and its
      children. */
  lemma HopSame(a: seq<Leaf>, b: seq<Leaf>, id: nat, q: string)
    requires Wf(a) && Wf(b) && id < |a| && id < |b| && b[id] == a[id]
    requires assert LeafOk(a, a[id]);
             forall j :: 0 <= j < |a[id].children| ==> a[id].children[j] < |b| && b[a[id].children[j]] == a[a[id].children[j]]
    ensures HopAt(b, id, q) == HopAt(a, id, q)
  {
    var l := a[id];
    assert LeafOk(a, l);
    if l.children != [] {
      forall ch: char
        ensures NextChild(b, id, ch) == NextChild(a, id, ch)
      {
        FindSame(a, b, l.children, ch, 0);
      }
    }
  }

  /** A match from a leaf that is not changed, through leaves that are
      not changed, is the same in both arenas. */
  lemma {:induction false} MatchSame(a: seq<Leaf>, b: seq<Leaf>, rank: seq<nat>, k: nat, changed: set<nat>,
                                     id: nat, q: string)
    requires Wf(a) && Wf(b) && Ranked(a, rank) && Frozen(a, b, rank, k, changed)
    requires id < |a| && id !in changed && rank[id] < k
    ensures MatchFrom(b, id, q) == MatchFrom(a, id, q)
    decreases |q|, if a[id].hasParam then 1 else 0
  {
    var l := a[id];
    assert LeafOk(a, l);
    forall j | 0 <= j < |l.children|
      ensures l.children[j] < |b| && b[l.children[j]] == a[l.children[j]]
    {
      assert l.children[j] !in changed;
    }
    HopSame(a, b, id, q);
    MatchUnfold(a, id, q);
    MatchUnfold(b, id, q);
    var h := HopAt(a, id, q);
    if h.Go? {
      var j :| 0 <= j < |l.children| && l.children[j] == h.next;
      assert h.next !in changed && rank[h.next] < rank[id];
      MatchSame(a, b, rank, k, changed, h.next, h.rest);
    }
  }

  /** The children of a parent after a splice: the child at `k` taken
      out, and `n` appended in its stead. */
  function Swapped(cs: seq<nat>, k: nat, n: nat): (r: seq<nat>)
    requires k < |cs|
    ensures |r| == |cs| && r[|cs| - 1] == n
    ensures forall i :: 0 <= i < |cs| - 1 ==> r[i] == cs[if i < k then i else i + 1]
  {
    cs[..k] + cs[k + 1..] + [n]
  }

  /** `findChild` finds the one static child that starts with the byte. */
  lemma FindAt(a: seq<Leaf>, cs: seq<nat>, ch: char, j: nat)
    requires ChildrenIn(a, cs) && j < |cs| && !a[cs[j]].hasParam && a[cs[j]].alpha == ch
    requires forall i :: 0 <= i < |cs| && i != j ==> a[cs[i]].hasParam || a[cs[i]].alpha != ch
    ensures FindFrom(a, cs, ch, 0) == Some(cs[j])
  {
    var r := FindFrom(a, cs, ch, 0);
    assert r.Some?;
    var i :| 0 <= i < |cs| && cs[i] == r.value;
    assert i == j;
  }

  /** The hypotheses shared by the sibling lemmas: `p`'s children in `b`
      are those of `a` with the static child at `k` replaced by `n`, a
      static leaf with the same first byte, the other children being the
      same leaves. */
  predicate Sibling(a: seq<Leaf>, b: seq<Leaf>, p: nat, k: nat, n: nat)
  {
    && Wf(a) && Wf(b) && p < |a| <= |b| && n < |b|
    && Distinct(a, p)
    && var cs := a[p].children;
       && k < |cs| && !a[cs[k]].hasParam
       && b[p] == a[p].(children := Swapped(cs, k, n))
       && !b[n].hasParam && b[n].alpha == a[cs[k]].alpha
       && forall j :: 0 <= j < |cs| && j != k ==> b[cs[j]] == a[cs[j]]
  }

  /** After a splice, a byte that led to the replaced child leads to `n`. */
  lemma NextSwapHit(a: seq<Leaf>, b: seq<Leaf>, p: nat, k: nat, n: nat)
    requires Sibling(a, b, p, k, n)
    ensures var root := a[p].children[k];
            NextChild(a, p, a[root].alpha) == Some(root) && NextChild(b, p, a[root].alpha) == Some(n)
  {
    var cs := a[p].children;
    var cs' := b[p].children;
    var root := cs[k];
    var ch := a[root].alpha;
    assert LeafOk(a, a[p]) && LeafOk(b, b[p]);
    if |cs| > 1 {
      FindAt(a, cs, ch, k);
      forall i | 0 <= i < |cs'| && i != |cs| - 1
        ensures b[cs'[i]].hasParam || b[cs'[i]].alpha != ch
      {
        var j := if i < k then i else i + 1;
        assert cs'[i] == cs[j] && b[cs[j]] == a[cs[j]];
        assert j < k || k < j;
      }
      FindAt(b, cs', ch, |cs| - 1);
    }
  }

  /** After a splice, a byte other than the replaced child's first leads
      where it led before. */
  lemma NextSwapMiss(a: seq<Leaf>, b: seq<Leaf>, p: nat, k: nat, n: nat, ch: char)
    requires Sibling(a, b, p, k, n)
    requires ch != a[a[p].children[k]].alpha
    ensures NextChild(b, p, ch) == NextChild(a, p, ch)
  {
    var cs := a[p].children;
    var cs' := b[p].children;
    assert LeafOk(a, a[p]) && LeafOk(b, b[p]);
    if |cs| > 1 {
      if j :| 0 <= j < |cs| && !a[cs[j]].hasParam && a[cs[j]].alpha == ch {
        assert j != k;
        FindAt(a, cs, ch, j);
        var i := if j < k then j else j - 1;
        assert cs'[i] == cs[j];
        forall i' | 0 <= i' < |cs'| && i' != i
          ensures b[cs'[i']].hasParam || b[cs'[i']].alpha != ch
        {
          if i' < |cs| - 1 {
            var j' := if i' < k then i' else i' + 1;
            assert cs'[i'] == cs[j'] && j' != j && j' != k;
            assert j < j' || j' < j;
          }
        }
        FindAt(b, cs', ch, i);
      } else {
        forall i | 0 <= i < |cs'|
          ensures b[cs'[i]].hasParam || b[cs'[i]].alpha != ch
        {
          if i < |cs| - 1 {
            var j := if i < k then i else i + 1;
            assert cs'[i] == cs[j];
          }
        }
        if k == 0 {
          assert cs'[0] == cs[1];
        } else {
          assert cs'[0] == cs[0];
        }
      }
    }
  }

  /** The child `Match` goes on at after a splice: `n` where it went to
      the replaced child, and otherwise where it went before. */
  lemma NextSwap(a: seq<Leaf>, b: seq<Leaf>, p: nat, k: nat, n: nat, ch: char)
    requires Sibling(a, b, p, k, n)
    ensures var root := a[p].children[k];
            NextChild(b, p, ch) == if NextChild(a, p, ch) == Some(root) then Some(n) else NextChild(a, p, ch)
  {
    var root := a[p].children[k];
    if ch == a[root].alpha {
      NextSwapHit(a, b, p, k, n);
    } else {
      NextSwapMiss(a, b, p, k, n, ch);
    }
  }

  /** One turn of `Match` at the parent after a splice: it goes on at `n`
      where it went on at the replaced child, and is otherwise the same. */
  lemma HopSwap(a: seq<Leaf>, b: seq<Leaf>, p: nat, k: nat, n: nat, q: string)
    requires Sibling(a, b, p, k, n)
    ensures var h := HopAt(a, p, q);
            HopAt(b, p, q) == if h.Go? && h.next == a[p].children[k] then Go(h.binds, n, h.rest) else h
  {
    forall ch: char
      ensures var root := a[p].children[k];
              NextChild(b, p, ch) == if NextChild(a, p, ch) == Some(root) then Some(n) else NextChild(a, p, ch)
    {
      NextSwap(a, b, p, k, n, ch);
    }
  }

  /** Two leaves with the same children, which are the same leaves in
      both arenas, send `Match` on to the same child. */
  lemma NextSame(a: seq<Leaf>, b: seq<Leaf>, x: nat, y: nat, ch: char)
    requires Wf(a) && Wf(b) && x < |a| && y < |b| && a[x].children != [] && b[y].children == a[x].children
    requires b[y].hasParam == a[x].hasParam
    requires assert LeafOk(a, a[x]);
             forall j :: 0 <= j < |a[x].children| ==> a[x].children[j] < |b| && b[a[x].children[j]] == a[a[x].children[j]]
    ensures NextChild(b, y, ch) == NextChild(a, x, ch)
  {
    assert LeafOk(a, a[x]);
    FindSame(a, b, a[x].children, ch, 0);
  }

  /** A static leaf whose pattern lost the front `u`, and keeps its
      children and handlers: a match from it of the rest `r` finds what a
      match from the uncut leaf found on `u + r`. */
  lemma CutSame(a: seq<Leaf>, b: seq<Leaf>, rank: seq<nat>, k: nat, changed: set<nat>,
                root: nat, u: string, r: string)
    requires Wf(a) && Wf(b) && Ranked(a, rank) && Frozen(a, b, rank, k, changed)
    requires root < |a| && rank[root] <= k && !a[root].hasParam && !b[root].hasParam
    requires a[root].pattern == u + b[root].pattern
    requires b[root].children == a[root].children && b[root].handlers == a[root].handlers
    requires assert LeafOk(a, a[root]);
             forall j :: 0 <= j < |a[root].children| ==> a[root].children[j] !in changed
    ensures MatchFrom(b, root, r).handlers == MatchFrom(a, root, u + r).handlers
    ensures MatchFrom(b, root, r).binds == MatchFrom(a, root, u + r).binds
  {
    var w := b[root].pattern;
    var ur := u + r;
    assert LeafOk(a, a[root]) && LeafOk(b, b[root]);
    MatchUnfold(a, root, ur);
    MatchUnfold(b, root, r);
    if IsPrefix(w, r) {
      assert ur[..|u + w|] == u + r[..|w|];
      assert ur[|u + w|..] == r[|w|..];
      if |w| < |r| && a[root].children != [] {
        assert ur[|u + w|] == r[|w|];
        forall j | 0 <= j < |a[root].children|
          ensures a[root].children[j] < |b| && b[a[root].children[j]] == a[a[root].children[j]]
        {
          assert a[root].children[j] !in changed;
        }
        NextSame(a, b, root, root, r[|w|]);
        var h := HopAt(a, root, ur);
        if h.Go? {
          var j :| 0 <= j < |a[root].children| && a[root].children[j] == h.next;
          assert h.next !in changed && rank[h.next] < rank[root];
          MatchSame(a, b, rank, k, changed, h.next, h.rest);
        }
      }
    } else {
      PrefixCut(u, w, r);
    }
  }

  /** A front shared by two strings can be dropped from a prefix test. */
  lemma PrefixCut(u: string, w: string, r: string)
    ensures IsPrefix(u + w, u + r) ==> IsPrefix(w, r)
  {
    if IsPrefix(u + w, u + r) {
      assert (u + r)[..|u + w|][|u|..] == r[..|w|];
    }
  }

  /** The leaf spliced in by the reparenting, holding the front `u` of the
      old leaf's pattern and having the cut old leaf as its one child: a
      match from it finds the new route at `u` and otherwise what the old
      leaf found. */
  lemma ReparentTail(a: seq<Leaf>, b: seq<Leaf>, rank: seq<nat>, k: nat, changed: set<nat>,
                     root: nat, n: nat, r: string)
    requires Wf(a) && Wf(b) && Ranked(a, rank) && Frozen(a, b, rank, k, changed)
    requires root < |a| && n < |b| && rank[root] <= k && !a[root].hasParam && !b[root].hasParam
    requires !b[n].hasParam && b[n].children == [root]
    requires a[root].pattern == b[n].pattern + b[root].pattern
    requires b[root].children == a[root].children && b[root].handlers == a[root].handlers
    requires assert LeafOk(a, a[root]);
             forall j :: 0 <= j < |a[root].children| ==> a[root].children[j] !in changed
    ensures MatchFrom(b, n, r).handlers == if r == b[n].pattern then b[n].handlers else MatchFrom(a, root, r).handlers
    ensures MatchFrom(b, n, r).binds == MatchFrom(a, root, r).binds
  {
    var u := b[n].pattern;
    var w := b[root].pattern;
    assert LeafOk(b, b[root]) && LeafOk(b, b[n]);
    MatchUnfold(b, n, r);
    if IsPrefix(u, r) && r != u {
      var r' := r[|u|..];
      assert r == u + r';
      if w[0] == r'[0] {
        assert HopAt(b, n, r) == Go([], root, r');
        CutSame(a, b, rank, k, changed, root, u, r');
      } else {
        assert (u + w)[|u|] != r[|u|];
      }
    }
  }

  /** The leaf the split adds, holding the common front `u` without
      handlers, with the cut old leaf and the new leaf as its children: a
      match from it finds the new route at `u` followed by the new leaf's
      pattern, and otherwise what the old leaf found. */
  lemma SplitTail(a: seq<Leaf>, b: seq<Leaf>, rank: seq<nat>, k: nat, changed: set<nat>,
                  root: nat, n: nat, pid: nat, r: string)
    requires Wf(a) && Wf(b) && Ranked(a, rank) && Frozen(a, b, rank, k, changed)
    requires root < |a| && n < |b| && pid < |b| && rank[root] <= k && !a[root].hasParam && !b[root].hasParam
    requires !b[n].hasParam && b[n].children == [] && b[n].alpha != b[root].alpha
    requires !b[pid].hasParam && b[pid].children == [root, n] && b[pid].handlers == None
    requires a[root].pattern == b[pid].pattern + b[root].pattern
    requires b[root].children == a[root].children && b[root].handlers == a[root].handlers
    requires assert LeafOk(a, a[root]);
             forall j :: 0 <= j < |a[root].children| ==> a[root].children[j] !in changed
    ensures MatchFrom(b, pid, r).handlers
              == if r == b[pid].pattern + b[n].pattern then b[n].handlers else MatchFrom(a, root, r).handlers
    ensures MatchFrom(b, pid, r).binds == MatchFrom(a, root, r).binds
  {
    var u := b[pid].pattern;
    var w := b[root].pattern;
    var v := b[n].pattern;
    assert LeafOk(b, b[root]) && LeafOk(b, b[n]) && LeafOk(b, b[pid]);
    MatchUnfold(b, pid, r);
    if IsPrefix(u, r) && r != u {
      var r' := r[|u|..];
      assert r == u + r';
      if w[0] == r'[0] {
        assert HopAt(b, pid, r) == Go([], root, r');
        CutSame(a, b, rank, k, changed, root, u, r');
        assert r != u + v by {
          assert (u + v)[|u|] == v[0];
        }
      } else {
        assert (u + w)[|u|] != r[|u|];
        if v[0] == r'[0] {
          FindAt(b, [root, n], r'[0], 1);
          assert HopAt(b, pid, r) == Go([], n, r');
          MatchUnfold(b, n, r');
          assert r' == v <==> r == u + v;
        } else {
          assert r != u + v by {
            assert (u + v)[|u|] == v[0];
          }
        }
      }
    }
  }

  /** `deleteChild` finds the one child with the pattern of a static child
      of a parent whose static children differ in their first byte. */
  lemma IndexAt(a: seq<Leaf>, p: nat, k: nat)
    requires Wf(a) && Distinct(a, p) && k < |a[p].children| && !a[a[p].children[k]].hasParam
    ensures IndexFrom(a, a[p].children, a[a[p].children[k]].pattern, 0) == k
  {
    var cs := a[p].children;
    var root := cs[k];
    assert LeafOk(a, a[root]);
    forall j | 0 <= j < |cs| && j != k
      ensures a[cs[j]].pattern != a[root].pattern
    {
      assert LeafOk(a, a[cs[j]]);
      if a[cs[j]].hasParam {
        assert a[cs[j]].pattern[0] == ':';
      } else {
        assert j < k || k < j;
      }
    }
  }

  /** Once the child at `k` of `p` is taken out, no child left has the
      pattern of the static leaf `x`, which starts with the same byte. */
  lemma DeletedMiss(a: seq<Leaf>, p: nat, k: nat, x: nat)
    requires Wf(a) && Distinct(a, p) && k < |a[p].children| && !a[a[p].children[k]].hasParam
    requires x < |a| && x != p && x !in a[p].children && !a[x].hasParam
    requires a[x].alpha == a[a[p].children[k]].alpha
    ensures Wf(DeleteChild(a, p, a[p].children[k]))
    ensures var l1 := DeleteChild(a, p, a[p].children[k]);
            var cs := a[p].children;
            && l1[p] == a[p].(children := cs[..k] + cs[k + 1..])
            && IndexFrom(l1, cs[..k] + cs[k + 1..], a[x].pattern, 0) == |cs| - 1
  {
    var cs := a[p].children;
    var root := cs[k];
    IndexAt(a, p, k);
    WfDeleteChild(a, p, root);
    var l1 := DeleteChild(a, p, root);
    var cs1 := cs[..k] + cs[k + 1..];
    assert l1[p] == a[p].(children := cs1);
    assert LeafOk(a, a[x]) && LeafOk(a, a[root]);
    forall j | 0 <= j < |cs1|
      ensures l1[cs1[j]].pattern != a[x].pattern
    {
      var i := if j < k then j else j + 1;
      assert cs1[j] == cs[i] && i != k;
      assert LeafOk(a, a[cs[i]]);
      if a[cs[i]].hasParam {
        assert a[cs[i]].pattern[0] == ':';
      } else {
        assert i < k || k < i;
      }
    }
    assert IndexFrom(l1, cs1, l1[x].pattern, 0) == |cs1|;
  }

  /** The first half of both splices: the child at `k` of `p` is taken
      out, and the static leaf `x`, which starts with the same byte and is
      not yet a child of `p`, is appended in its place. */
  lemma ReplaceChild(a: seq<Leaf>, p: nat, k: nat, x: nat)
    requires Wf(a) && Distinct(a, p) && k < |a[p].children| && !a[a[p].children[k]].hasParam
    requires x < |a| && x != p && x !in a[p].children && !a[x].hasParam
    requires a[x].alpha == a[a[p].children[k]].alpha
    ensures Wf(DeleteChild(a, p, a[p].children[k]))
    ensures var s := InsertChild(DeleteChild(a, p, a[p].children[k]), p, x);
            && s.res == Ok(x) && |s.leaves| == |a|
            && s.leaves[p] == a[p].(children := Swapped(a[p].children, k, x))
            && s.leaves[x] == a[x].(parent := Some(p))
            && forall y :: 0 <= y < |a| && y != p && y != x ==> s.leaves[y] == a[y]
  {
    var cs := a[p].children;
    DeletedMiss(a, p, k, x);
    var l1 := DeleteChild(a, p, cs[k]);
    assert l1[x] == a[x];
    assert cs[..k] + cs[k + 1..] + [x] == Swapped(cs, k, x);
  }

  /** The second half of both splices: a static leaf `c` hung under a
      leaf `x` that has no children yet becomes its one child. */
  lemma HangFirst(l: seq<Leaf>, x: nat, c: nat)
    requires Wf(l) && x < |l| && c < |l| && x != c && l[x].children == [] && !l[c].hasParam
    ensures var s := InsertChild(l, x, c);
            && s.res == Ok(c) && |s.leaves| == |l|
            && s.leaves[x] == l[x].(children := [c])
            && s.leaves[c] == l[c].(parent := Some(x))
            && forall y :: 0 <= y < |l| && y != x && y != c ==> s.leaves[y] == l[y]
  {
  }

  /** A static leaf hung under a leaf whose one child starts with another
      byte becomes its second child. */
  lemma HangSecond(l: seq<Leaf>, x: nat, c: nat, n: nat)
    requires Wf(l) && x < |l| && c < |l| && n < |l| && x != n && c != n && l[x].children == [c]
    requires !l[n].hasParam && l[n].alpha != l[c].alpha
    ensures var s := InsertChild(l, x, n);
            && s.res == Ok(n) && |s.leaves| == |l|
            && s.leaves[x] == l[x].(children := [c, n])
            && s.leaves[n] == l[n].(parent := Some(x))
            && forall y :: 0 <= y < |l| && y != x && y != n ==> s.leaves[y] == l[y]
  {
    assert LeafOk(l, l[c]) && LeafOk(l, l[n]);
    assert l[c].pattern != l[n].pattern;
    assert IndexFrom(l, [c], l[n].pattern, 0) == 1;
  }

  /** What the reparenting of `insert` does when `node`, a new static
      leaf, holds a proper prefix of the pattern of `root`, the child at
      `k` of `p`: `node` takes the place of `root` among the children of
      `p`, and `root`, cut down to the rest of its pattern, becomes the
      one child of `node`; no other leaf changes. */
  lemma ReparentShape(a: seq<Leaf>, root: nat, node: nat, p: nat, pos: nat, k: nat)
    requires Wf(a) && root < |a| && node < |a| && p < |a| && root != p
    requires !a[root].hasParam && !a[node].hasParam && a[node].children == []
    requires pos == |a[node].pattern| < |a[root].pattern| && a[root].pattern[..pos] == a[node].pattern
    requires Distinct(a, p) && k < |a[p].children| && a[p].children[k] == root && Orphan(a, node)
    ensures var s := Reparent(a, root, node, p, pos);
            var w := a[root].pattern[pos..];
            && s.res == Ok(node) && |s.leaves| == |a| && w != ""
            && s.leaves[p] == a[p].(children := Swapped(a[p].children, k, node))
            && s.leaves[node] == a[node].(parent := Some(p), children := [root])
            && s.leaves[root] == a[root].(pattern := w, alpha := w[0], parent := Some(node))
            && forall x :: 0 <= x < |a| && x != p && x != node && x != root ==> s.leaves[x] == a[x]
  {
    var cs := a[p].children;
    assert LeafOk(a, a[node]) && LeafOk(a, a[root]);
    assert a[node].alpha == a[root].alpha by {
      assert a[root].pattern[..pos][0] == a[root].pattern[0];
    }
    assert node !in cs;
    ReplaceChild(a, p, k, node);
    var l1 := DeleteChild(a, p, root);
    WfInsertChild(l1, p, node);
    var s2 := InsertChild(l1, p, node);
    var w := a[root].pattern[pos..];
    assert s2.leaves[root] == a[root];
    NoColonSuffix(a[root].pattern, pos);
    WfResetPattern(s2.leaves, root, w);
    var l3 := ResetPattern(s2.leaves, root, w);
    HangFirst(l3, node, root);
    var s4 := InsertChild(l3, node, root);
    assert Reparent(a, root, node, p, pos) == Step(s4.leaves, Ok(node));
  }

  /** What the split of `insert` does when `node`, a new static leaf,
      shares only the first `pos` bytes with `root`, the child at `k` of
      `p`: a new leaf without handlers holding those bytes takes the place
      of `root` among the children of `p`, and has as children `root`, cut
      down to the rest of its pattern, and `node`; no other leaf
      changes. */
  lemma SplitShape(a: seq<Leaf>, root: nat, node: nat, p: nat, pos: nat, k: nat)
    requires Wf(a) && root < |a| && node < |a| && p < |a| && root != p
    requires !a[root].hasParam && !a[node].hasParam && a[node].children == []
    requires 0 < pos < |a[root].pattern| && a[node].alpha != a[root].pattern[pos]
    requires Distinct(a, p) && k < |a[p].children| && a[p].children[k] == root && Orphan(a, node)
    ensures var s := Split(a, root, node, p, pos);
            var pid := |a|;
            var u := a[root].pattern[..pos];
            var w := a[root].pattern[pos..];
            && s.res == Ok(node) && |s.leaves| == |a| + 1 && w != ""
            && s.leaves[pid] == Leaf(false, u[0], u, "", Some(p), [root, node], None)
            && s.leaves[p] == a[p].(children := Swapped(a[p].children, k, pid))
            && s.leaves[root] == a[root].(pattern := w, alpha := w[0], parent := Some(pid))
            && s.leaves[node] == a[node].(parent := Some(pid))
            && forall x :: 0 <= x < |a| && x != p && x != node && x != root ==> s.leaves[x] == a[x]
  {
    var pid := |a|;
    var u := a[root].pattern[..pos];
    var w := a[root].pattern[pos..];
    SplitOpen(a, root, node, p, pos, k);
    var l1 := a + [NewLeaf(u, None)];
    var s3 := InsertChild(DeleteChild(l1, p, root), p, pid);
    assert LeafOk(a, a[root]);
    NoColonSuffix(a[root].pattern, pos);
    assert s3.leaves[root].pattern[pos..] == w;
    SplitClose(s3.leaves, root, node, pid, w);
    var s6 := InsertChild(InsertChild(ResetPattern(s3.leaves, root, w), pid, root).leaves, pid, node);
    assert Split(a, root, node, p, pos) == Step(s6.leaves, Ok(node));
  }

  /** The second half of `SplitShape`: `root`, cut down to `w`, and then
      `node`, which starts with another byte, are hung under the new leaf
      `pid`. */
  lemma SplitClose(b: seq<Leaf>, root: nat, node: nat, pid: nat, w: string)
    requires Wf(b) && root < |b| && node < |b| && pid < |b|
    requires pid != root && pid != node && root != node && b[pid].children == []
    requires !b[root].hasParam && !b[node].hasParam && w != "" && ':' !in w && w[0] != b[node].alpha
    ensures Wf(ResetPattern(b, root, w))
    ensures var s5 := InsertChild(ResetPattern(b, root, w), pid, root);
            && Wf(s5.leaves) && s5.res == Ok(root)
            && var s6 := InsertChild(s5.leaves, pid, node);
               && s6.res == Ok(node) && |s6.leaves| == |b|
               && s6.leaves[pid] == b[pid].(children := [root, node])
               && s6.leaves[root] == b[root].(pattern := w, alpha := w[0], parent := Some(pid))
               && s6.leaves[node] == b[node].(parent := Some(pid))
               && forall y :: 0 <= y < |b| && y != pid && y != root && y != node ==> s6.leaves[y] == b[y]
  {
    WfResetPattern(b, root, w);
    var l4 := ResetPattern(b, root, w);
    HangFirst(l4, pid, root);
    WfInsertChild(l4, pid, root);
    var s5 := InsertChild(l4, pid, root);
    HangSecond(s5.leaves, pid, root, node);
  }

  /** The first half of `SplitShape`: the new leaf holding the common
      prefix takes the place of `root` among the children of `p`. */
  lemma SplitOpen(a: seq<Leaf>, root: nat, node: nat, p: nat, pos: nat, k: nat)
    requires Wf(a) && root < |a| && node < |a| && p < |a| && root != p
    requires !a[root].hasParam && !a[node].hasParam && a[node].children == []
    requires 0 < pos < |a[root].pattern|
    requires Distinct(a, p) && k < |a[p].children| && a[p].children[k] == root && Orphan(a, node)
    ensures var u := a[root].pattern[..pos];
            var l1 := a + [NewLeaf(u, None)];
            && Wf(l1) && Wf(DeleteChild(l1, p, root))
            && var s3 := InsertChild(DeleteChild(l1, p, root), p, |a|);
               && s3.res == Ok(|a|) && |s3.leaves| == |a| + 1 && Wf(s3.leaves)
               && s3.leaves[|a|] == NewLeaf(u, None).(parent := Some(p))
               && s3.leaves[p] == a[p].(children := Swapped(a[p].children, k, |a|))
               && forall x :: 0 <= x < |a| && x != p ==> s3.leaves[x] == a[x]
  {
    var cs := a[p].children;
    var pid := |a|;
    var u := a[root].pattern[..pos];
    assert LeafOk(a, a[node]) && LeafOk(a, a[root]);
    assert node !in cs;
    NoColonPrefix(a[root].pattern, pos);
    WfAppend(a, NewLeaf(u, None));
    var l1 := a + [NewLeaf(u, None)];
    assert l1[p] == a[p] && l1[root] == a[root];
    assert forall j :: 0 <= j < |cs| ==> l1[cs[j]] == a[cs[j]];
    assert Distinct(l1, p);
    assert u[0] == a[root].alpha;
    ReplaceChild(l1, p, k, pid);
    WfInsertChild(DeleteChild(l1, p, root), p, pid);
  }

  /** The hypotheses both splices are proved under: an acyclic arena;
      `root`, a static leaf, is a child of `p` and of no other leaf; the
      static children of `p` differ in their first byte; and `node`, the
      new static leaf, has no children and is nobody's child. */
  predicate Splice(a: seq<Leaf>, rank: seq<nat>, root: nat, node: nat, p: nat)
  {
    && Wf(a) && Ranked(a, rank)
    && root < |a| && node < |a| && p < |a|
    && !a[root].hasParam && !a[node].hasParam && a[node].children == []
    && root in a[p].children && Distinct(a, p) && OnlyChildOf(a, root, p) && Orphan(a, node)
  }

  /** Under `Splice`, the leaves of `a` other than `p`, `root` and `node`
      that rank below `p` have no child among those three. */
  lemma SpliceFrozen(a: seq<Leaf>, b: seq<Leaf>, rank: seq<nat>, root: nat, node: nat, p: nat)
    requires Splice(a, rank, root, node, p) && |a| <= |b|
    requires forall x :: 0 <= x < |a| && x != p && x != node && x != root ==> b[x] == a[x]
    ensures Frozen(a, b, rank, rank[p], {p, root, node})
    ensures assert LeafOk(a, a[root]);
            forall j :: 0 <= j < |a[root].children| ==> a[root].children[j] !in {p, root, node}
  {
    forall x, j | 0 <= x < |a| && x !in {p, root, node} && rank[x] < rank[p] && 0 <= j < |a[x].children|
      ensures a[x].children[j] !in {p, root, node}
    {
      assert LeafOk(a, a[x]);
    }
    var j0 :| 0 <= j0 < |a[p].children| && a[p].children[j0] == root;
    assert LeafOk(a, a[p]) && LeafOk(a, a[root]);
    assert rank[root] < rank[p];
  }

  /** Under `Splice`, the children of `p` other than `root` are neither
      `p`, `root` nor `node`. */
  lemma SiblingsApart(a: seq<Leaf>, rank: seq<nat>, root: nat, node: nat, p: nat, k: nat)
    requires Splice(a, rank, root, node, p) && k < |a[p].children| && a[p].children[k] == root
    ensures forall j :: 0 <= j < |a[p].children| && j != k ==> a[p].children[j] !in {p, root, node}
  {
    var cs := a[p].children;
    assert LeafOk(a, a[p]);
    forall j | 0 <= j < |cs| && j != k
      ensures cs[j] !in {p, root, node}
    {
      assert rank[cs[j]] < rank[p];
      assert j < k || k < j;
    }
  }

  /** After a splice of `p`'s child `k` for `n`, a match from `p` that does
      not go on at the replaced child is unchanged; one that does goes on
      at `n` instead, with the same bindings and the same rest. */
  lemma SwapMatch(a: seq<Leaf>, b: seq<Leaf>, rank: seq<nat>, p: nat, k: nat, n: nat,
                  changed: set<nat>, q: string)
    requires Sibling(a, b, p, k, n) && Ranked(a, rank) && Frozen(a, b, rank, rank[p], changed)
    requires p in changed
    requires forall j :: 0 <= j < |a[p].children| && j != k ==> a[p].children[j] !in changed
    ensures var h := HopAt(a, p, q);
            if h.Go? && h.next == a[p].children[k] then
              && MatchFrom(b, p, q) == Prepend(h.binds, p, MatchFrom(b, n, h.rest))
              && MatchFrom(a, p, q) == Prepend(h.binds, p, MatchFrom(a, h.next, h.rest))
            else MatchFrom(b, p, q) == MatchFrom(a, p, q)
  {
    HopSwap(a, b, p, k, n, q);
    MatchUnfold(a, p, q);
    MatchUnfold(b, p, q);
    var h := HopAt(a, p, q);
    if h.Go? && h.next != a[p].children[k] {
      assert LeafOk(a, a[p]);
      var j :| 0 <= j < |a[p].children| && a[p].children[j] == h.next;
      assert rank[h.next] < rank[p];
      MatchSame(a, b, rank, rank[p], changed, h.next, h.rest);
    }
  }

  /** The arena `b` has the shape `ReparentShape` gives for the splice of
      `node` in place of `root`, child `k` of `p`, cut at `pos`. */
  predicate Reparented(a: seq<Leaf>, b: seq<Leaf>, root: nat, node: nat, p: nat, pos: nat, k: nat)
  {
    && |b| == |a| && root < |a| && node < |a| && p < |a|
    && pos < |a[root].pattern| && k < |a[p].children|
    && var w := a[root].pattern[pos..];
       && b[p] == a[p].(children := Swapped(a[p].children, k, node))
       && b[node] == a[node].(parent := Some(p), children := [root])
       && b[root] == a[root].(pattern := w, alpha := w[0], parent := Some(node))
       && forall x :: 0 <= x < |a| && x != p && x != node && x != root ==> b[x] == a[x]
  }

  /** After the reparenting, `p` has `node` in place of `root`, and the
      leaves outside the splice are frozen. */
  lemma ReparentSibling(a: seq<Leaf>, b: seq<Leaf>, rank: seq<nat>, root: nat, node: nat, p: nat,
                        pos: nat, k: nat)
    requires Splice(a, rank, root, node, p) && Wf(b)
    requires pos == |a[node].pattern| < |a[root].pattern| && a[root].pattern[..pos] == a[node].pattern
    requires k < |a[p].children| && a[p].children[k] == root && Reparented(a, b, root, node, p, pos, k)
    ensures Sibling(a, b, p, k, node) && Frozen(a, b, rank, rank[p], {p, root, node})
    ensures forall j :: 0 <= j < |a[p].children| && j != k ==> a[p].children[j] !in {p, root, node}
  {
    assert LeafOk(a, a[p]) && LeafOk(a, a[root]) && LeafOk(a, a[node]);
    assert rank[root] < rank[p];
    SiblingsApart(a, rank, root, node, p, k);
    assert a[node].alpha == a[root].alpha by {
      assert a[root].pattern[..pos][0] == a[root].pattern[0];
    }
    SpliceFrozen(a, b, rank, root, node, p);
  }

  /** After the reparenting, `node` matches what `root` matched, and its
      own pattern. */
  lemma ReparentBelow(a: seq<Leaf>, b: seq<Leaf>, rank: seq<nat>, root: nat, node: nat, p: nat,
                      pos: nat, k: nat, r: string)
    requires Splice(a, rank, root, node, p) && Wf(b)
    requires pos == |a[node].pattern| < |a[root].pattern| && a[root].pattern[..pos] == a[node].pattern
    requires k < |a[p].children| && a[p].children[k] == root && Reparented(a, b, root, node, p, pos, k)
    requires Frozen(a, b, rank, rank[p], {p, root, node})
    ensures MatchFrom(b, node, r).handlers == if r == a[node].pattern then a[node].handlers else MatchFrom(a, root, r).handlers
    ensures MatchFrom(b, node, r).binds == MatchFrom(a, root, r).binds
  {
    assert LeafOk(a, a[p]) && rank[root] < rank[p];
    SpliceFrozen(a, b, rank, root, node, p);
    assert a[root].pattern == b[node].pattern + b[root].pattern;
    ReparentTail(a, b, rank, rank[p], {p, root, node}, root, node, r);
  }

  /** The matching half of `ReparentKeeps`, over any arena `b` of the shape
      `ReparentShape` gives. */
  lemma ReparentMatch(a: seq<Leaf>, b: seq<Leaf>, rank: seq<nat>, root: nat, node: nat, p: nat,
                      pos: nat, k: nat, q: string)
    requires Splice(a, rank, root, node, p) && Wf(b)
    requires pos == |a[node].pattern| < |a[root].pattern| && a[root].pattern[..pos] == a[node].pattern
    requires k < |a[p].children| && a[p].children[k] == root && Reparented(a, b, root, node, p, pos, k)
    ensures var m := MatchFrom(a, p, q);
            var h := HopAt(a, p, q);
            && MatchFrom(b, p, q).binds == m.binds
            && MatchFrom(b, p, q).handlers
                 == if h.Go? && h.next == root && h.rest == a[node].pattern then a[node].handlers else m.handlers
  {
    ReparentSibling(a, b, rank, root, node, p, pos, k);
    SwapMatch(a, b, rank, p, k, node, {p, root, node}, q);
    var h := HopAt(a, p, q);
    if h.Go? && h.next == root {
      ReparentBelow(a, b, rank, root, node, p, pos, k, h.rest);
    }
  }

  /** Splitting preserves routes, for the reparenting of `insert` (tree.go
      lines 304-311): a match from `p` after the splice binds what it bound
      before, finds the handlers it found before, and finds the handlers
      of `node` on the one path that used to reach `root` with exactly
      `node`'s pattern left, where nothing was found before. */
  lemma ReparentKeeps(a: seq<Leaf>, rank: seq<nat>, root: nat, node: nat, p: nat, pos: nat, q: string)
    requires Splice(a, rank, root, node, p)
    requires pos == |a[node].pattern| < |a[root].pattern| && a[root].pattern[..pos] == a[node].pattern
    ensures var s := Reparent(a, root, node, p, pos);
            var m := MatchFrom(a, p, q);
            var h := HopAt(a, p, q);
            && s.res == Ok(node)
            && MatchFrom(s.leaves, p, q).binds == m.binds
            && MatchFrom(s.leaves, p, q).handlers
                 == if h.Go? && h.next == root && h.rest == a[node].pattern then a[node].handlers else m.handlers
  {
    var k :| 0 <= k < |a[p].children| && a[p].children[k] == root;
    assert LeafOk(a, a[p]) && rank[root] < rank[p];
    ReparentShape(a, root, node, p, pos, k);
    assert Reparented(a, Reparent(a, root, node, p, pos).leaves, root, node, p, pos, k);
    ReparentMatch(a, Reparent(a, root, node, p, pos).leaves, rank, root, node, p, pos, k, q);
  }

  /** The arena `b` has the shape `SplitShape` gives for the split of
      `root`, child `k` of `p`, at `pos`, with `node` as the new leaf. */
  predicate Parted(a: seq<Leaf>, b: seq<Leaf>, root: nat, node: nat, p: nat, pos: nat, k: nat)
  {
    && |b| == |a| + 1 && root < |a| && node < |a| && p < |a|
    && 0 < pos < |a[root].pattern| && k < |a[p].children|
    && var pid := |a|;
       var u := a[root].pattern[..pos];
       var w := a[root].pattern[pos..];
       && b[pid] == Leaf(false, u[0], u, "", Some(p), [root, node], None)
       && b[p] == a[p].(children := Swapped(a[p].children, k, pid))
       && b[root] == a[root].(pattern := w, alpha := w[0], parent := Some(pid))
       && b[node] == a[node].(parent := Some(pid))
       && forall x :: 0 <= x < |a| && x != p && x != node && x != root ==> b[x] == a[x]
  }

  /** After the split, `p` has the new parent leaf in place of `root`, and
      the leaves outside the splice are frozen. */
  lemma SplitSibling(a: seq<Leaf>, b: seq<Leaf>, rank: seq<nat>, root: nat, node: nat, p: nat,
                     pos: nat, k: nat)
    requires Splice(a, rank, root, node, p) && Wf(b)
    requires k < |a[p].children| && a[p].children[k] == root && Parted(a, b, root, node, p, pos, k)
    ensures Sibling(a, b, p, k, |a|) && Frozen(a, b, rank, rank[p], {p, root, node})
    ensures forall j :: 0 <= j < |a[p].children| && j != k ==> a[p].children[j] !in {p, root, node}
  {
    assert LeafOk(a, a[p]) && LeafOk(a, a[root]) && LeafOk(a, a[node]);
    assert rank[root] < rank[p];
    SiblingsApart(a, rank, root, node, p, k);
    assert b[|a|].alpha == a[root].alpha by {
      assert a[root].pattern[..pos][0] == a[root].pattern[0];
    }
    SpliceFrozen(a, b, rank, root, node, p);
  }

  /** After the split, the new parent leaf matches what `root` matched,
      and the common prefix followed by `node`'s pattern. */
  lemma SplitBelow(a: seq<Leaf>, b: seq<Leaf>, rank: seq<nat>, root: nat, node: nat, p: nat,
                   pos: nat, k: nat, r: string)
    requires Splice(a, rank, root, node, p) && Wf(b)
    requires k < |a[p].children| && a[p].children[k] == root && Parted(a, b, root, node, p, pos, k)
    requires a[node].alpha != a[root].pattern[pos]
    requires Frozen(a, b, rank, rank[p], {p, root, node})
    ensures MatchFrom(b, |a|, r).handlers
              == if r == a[root].pattern[..pos] + a[node].pattern then a[node].handlers else MatchFrom(a, root, r).handlers
    ensures MatchFrom(b, |a|, r).binds == MatchFrom(a, root, r).binds
  {
    var pid := |a|;
    assert LeafOk(a, a[p]) && rank[root] < rank[p];
    SpliceFrozen(a, b, rank, root, node, p);
    assert a[root].pattern == b[pid].pattern + b[root].pattern;
    assert b[node].alpha != b[root].alpha;
    SplitTail(a, b, rank, rank[p], {p, root, node}, root, node, pid, r);
  }

  /** The matching half of `SplitKeeps`, over any arena `b` of the shape
      `SplitShape` gives. */
  lemma SplitMatch(a: seq<Leaf>, b: seq<Leaf>, rank: seq<nat>, root: nat, node: nat, p: nat,
                   pos: nat, k: nat, q: string)
    requires Splice(a, rank, root, node, p) && Wf(b)
    requires k < |a[p].children| && a[p].children[k] == root && Parted(a, b, root, node, p, pos, k)
    requires a[node].alpha != a[root].pattern[pos]
    ensures var m := MatchFrom(a, p, q);
            var h := HopAt(a, p, q);
            && MatchFrom(b, p, q).binds == m.binds
            && MatchFrom(b, p, q).handlers
                 == if h.Go? && h.next == root && h.rest == a[root].pattern[..pos] + a[node].pattern
                    then a[node].handlers else m.handlers
  {
    SplitSibling(a, b, rank, root, node, p, pos, k);
    SwapMatch(a, b, rank, p, k, |a|, {p, root, node}, q);
    var h := HopAt(a, p, q);
    if h.Go? && h.next == root {
      SplitBelow(a, b, rank, root, node, p, pos, k, h.rest);
    }
  }

  /** Splitting preserves routes, for the split of `insert` (tree.go lines
      331-339): a match from `p` after the split binds what it bound
      before, finds the handlers it found before, and finds the handlers
      of `node` on the one path that used to reach `root` with the common
      prefix followed by `node`'s pattern left, where nothing was found
      before. */
  lemma SplitKeeps(a: seq<Leaf>, rank: seq<nat>, root: nat, node: nat, p: nat, pos: nat, q: string)
    requires Splice(a, rank, root, node, p)
    requires 0 < pos < |a[root].pattern| && a[node].alpha != a[root].pattern[pos]
    ensures var s := Split(a, root, node, p, pos);
            var m := MatchFrom(a, p, q);
            var h := HopAt(a, p, q);
            && s.res == Ok(node)
            && MatchFrom(s.leaves, p, q).binds == m.binds
            && MatchFrom(s.leaves, p, q).handlers
                 == if h.Go? && h.next == root && h.rest == a[root].pattern[..pos] + a[node].pattern
                    then a[node].handlers else m.handlers
  {
    var k :| 0 <= k < |a[p].children| && a[p].children[k] == root;
    assert LeafOk(a, a[p]) && rank[root] < rank[p];
    SplitShape(a, root, node, p, pos, k);
    assert Parted(a, Split(a, root, node, p, pos).leaves, root, node, p, pos, k);
    SplitMatch(a, Split(a, root, node, p, pos).leaves, rank, root, node, p, pos, k, q);
  }
}
