/** The nodes of router/regtree/tree.go as a mutable arena: `Get`, `Add`
    and `addChild` are methods with the loops of the Go code, each proved
    to do what its specification function in regtree_spec.dfy says. */
module RegTree {
  import opened Common
  import opened Patterns
  import opened RegTreeSpec

  /** All `*Tree` nodes of a router; a node is named by its index. */
  class Trees {
    var nodes: seq<RNode>

    /** Every node keeps its shape (`RegTreeSpec.Wf`). */
    predicate Valid()
      reads this
    {
      Wf(nodes)
    }

    /** No node yet. */
    constructor ()
      ensures nodes == [] && Valid()
    {
      nodes := [];
    }

    /** `NewTree(key, val)` (tree.go lines 22-29): a fresh static node
        without children, appended to the arena. */
    method NewTree(key: string, val: Option<Value>) returns (id: nat)
      requires Valid() && key != ""
      modifies this
      ensures id == |old(nodes)| && nodes == old(nodes) + [RegTreeSpec.NewTree(key, val)]
      ensures Valid()
    {
      id := |nodes|;
      nodes := nodes + [RegTreeSpec.NewTree(key, val)];
      assert NodeOk(nodes, id, nodes[id]);
      WfAfter(old(nodes), nodes);
    }

    /** `t.Get(key)` (tree.go lines 32-75). */
    method Get(id: nat, key: string, eng: Engine) returns (r: Option<Got>)
      requires Valid() && id < |nodes|
      ensures r == GetFrom(nodes, id, key, eng)
      decreases |key|
    {
      var t := nodes[id];
      if !t.isStatic {
        var data := eng.find(t.key + "$", key);
        if |data| != |t.params| + 1 || data[0] != key {
          return None;
        }
        return Some(Got(id, data[1..]));
      }
      assert NodeOk(nodes, id, t);
      var matched := 0;
      while matched < |key| && matched < |t.key| && key[matched] == t.key[matched]
        invariant matched <= |key| && matched <= |t.key| && key[..matched] == t.key[..matched]
        decreases |key| - matched
      {
        matched := matched + 1;
      }
      LCPUnique(t.key, key, matched);
      if matched != |t.key| {
        return None;
      }
      if matched == |key| && t.val.Some? {
        return Some(Got(id, []));
      }
      var rest := key[matched..];
      if |rest| > 0 {
        var i := 0;
        while i < |t.schildren|
          invariant i <= |t.schildren|
          invariant GetAmong(nodes, t.schildren, i, rest, eng) == GetAmong(nodes, t.schildren, 0, rest, eng)
        {
          r := Get(t.schildren[i], rest, eng);
          if r.Some? {
            return;
          }
          i := i + 1;
        }
      }
      r := GetRegexp(t.rchildren, rest, eng);
    }

    /** The loop of `Get` over the regexp children (tree.go lines 59-66):
        the first whose expression matches all of `key`. */
    method GetRegexp(rs: seq<nat>, key: string, eng: Engine) returns (r: Option<Got>)
      requires In(nodes, rs)
      ensures r == ReAmong(nodes, rs, 0, key, eng)
    {
      var i := 0;
      while i < |rs|
        invariant i <= |rs|
        invariant ReAmong(nodes, rs, i, key, eng) == ReAmong(nodes, rs, 0, key, eng)
      {
        var c := nodes[rs[i]];
        var data := eng.find(c.key + "$", key);
        if |data| == |c.params| + 1 && data[0] == key {
          return Some(Got(rs[i], data[1..]));
        }
        i := i + 1;
      }
      return None;
    }

    /** `t.Add(key, val)` (tree.go lines 78-137) on a static node. */
    method Add(id: nat, key: string, val: Option<Value>, eng: Engine) returns (r: Result<Option<nat>>)
      requires Valid() && id < |nodes| && nodes[id].isStatic
      modifies this
      ensures RStep(nodes, r) == AddSpec(old(nodes), id, key, val, eng)
      ensures Valid()
      decreases |key|, 0
    {
      var t := nodes[id];
      assert NodeOk(nodes, id, t);
      var matched := 0;
      while matched < |key| && matched < |t.key| && key[matched] == t.key[matched]
        invariant matched <= |key| && matched <= |t.key| && key[..matched] == t.key[..matched]
        decreases |key| - matched
      {
        matched := matched + 1;
      }
      LCPUnique(t.key, key, matched);
      ApartIsLCP(t.key, key);
      if matched == 0 {
        return Ok(None);
      }
      if matched == |t.key| {
        if matched == |key| {
          r := SetValue(id, val);
        } else {
          r := AddBelow(id, key[matched..], val, eng);
        }
      } else {
        r := SplitAdd(id, key, matched, val, eng);
      }
    }

    /** `Add` of the node's own key (tree.go lines 91-98). */
    method SetValue(id: nat, val: Option<Value>) returns (r: Result<Option<nat>>)
      requires Valid() && id < |nodes| && nodes[id].isStatic
      modifies this
      ensures RStep(nodes, r) == AddEqual(old(nodes), id, val)
    {
      var t := nodes[id];
      if val.Some? {
        if t.val.Some? {
          return Panic(Exists + String(nodes, id));
        }
        nodes := nodes[id := t.(val := val)];
      }
      return Ok(Some(id));
    }

    /** `Add` of a key that extends the node's key by `rest` (tree.go lines
        101-110): the static children are offered the rest in turn, and
        `addChild` takes it when none does. */
    method AddBelow(id: nat, rest: string, val: Option<Value>, eng: Engine) returns (r: Result<Option<nat>>)
      requires Valid() && id < |nodes| && nodes[id].isStatic
      modifies this
      ensures assert NodeOk(old(nodes), id, old(nodes)[id]);
              var a := AddAmong(old(nodes), old(nodes)[id].schildren, 0, rest, val, eng);
              RStep(nodes, r) == if a.res != Ok(None) then a else AddChildSpec(old(nodes), id, rest, val, eng)
      ensures Valid()
      decreases |rest|, 2
    {
      assert NodeOk(nodes, id, nodes[id]);
      r := AddAmongLoop(nodes[id].schildren, rest, val, eng);
      if r == Ok(None) {
        assert Fresh(nodes, id, rest);
        r := AddChild(id, rest, val, eng);
      }
    }

    /** The loop of `Add` over the static children `cs` (tree.go lines
        102-107): the first child that takes the key ends it. */
    method AddAmongLoop(cs: seq<nat>, rest: string, val: Option<Value>, eng: Engine) returns (r: Result<Option<nat>>)
      requires Valid() && In(nodes, cs) && forall j :: 0 <= j < |cs| ==> nodes[cs[j]].isStatic
      modifies this
      ensures RStep(nodes, r) == AddAmong(old(nodes), cs, 0, rest, val, eng)
      ensures Valid()
      decreases |rest|, 1
    {
      var i := 0;
      while i < |cs|
        invariant i <= |cs| && nodes == old(nodes)
        invariant AddAmong(nodes, cs, i, rest, val, eng) == AddAmong(nodes, cs, 0, rest, val, eng)
      {
        r := Add(cs[i], rest, val, eng);
        if r != Ok(None) {
          return;
        }
        i := i + 1;
      }
      r := Ok(None);
    }

    /** `Add` of a key that shares only the first `matched` bytes of the
        node's key (tree.go lines 113-136): the rest of the node's key moves
        to a new child; the node takes the whole key if that was all of it,
        and otherwise the rest of the key is added through `addChild`. */
    method SplitAdd(id: nat, key: string, matched: nat, val: Option<Value>, eng: Engine) returns (r: Result<Option<nat>>)
      requires Valid() && id < |nodes| && nodes[id].isStatic
      requires 0 < matched < |nodes[id].key| && matched <= |key| && key[..matched] == nodes[id].key[..matched]
      requires matched < |key| ==> key[matched] != nodes[id].key[matched]
      modifies this
      ensures RStep(nodes, r) == if matched == |key| then AddPrefix(old(nodes), id, key, val)
                                 else AddSplit(old(nodes), id, key, matched, val, eng)
      ensures Valid()
    {
      var t := nodes[id];
      var n := |nodes|;
      var node := RegTreeSpec.NewTree(t.key[matched..], t.val).(schildren := t.schildren, rchildren := t.rchildren, root := Some(id));
      assert node == Tail(t, id, matched);
      if matched == |key| {
        nodes := nodes[id := t.(key := key, val := val, schildren := [n], rchildren := [])] + [node];
        return Ok(Some(id));
      }
      nodes := nodes[id := t.(key := key[..matched], val := None, schildren := [n], rchildren := [])] + [node];
      assert nodes == Split(old(nodes), id, matched);
      assert Apart(nodes[n].key, key[matched..]);
      r := AddChild(id, key[matched..], val, eng);
    }

    /** `t.addChild(key, val)` (tree.go lines 139-237) on a static node. */
    method AddChild(id: nat, key: string, val: Option<Value>, eng: Engine) returns (r: Result<Option<nat>>)
      requires Valid() && id < |nodes| && nodes[id].isStatic
      modifies this
      ensures RStep(nodes, r) == AddChildSpec(old(nodes), id, key, val, eng)
      ensures Fresh(old(nodes), id, key) ==> Valid()
    {
      var t := nodes[id];
      assert NodeOk(nodes, id, t);
      var tr, staticKey := ScanTree(key);
      TreeScanSplit(key, 0);
      var k := key;
      var re := RegTreeSpec.NewTree("", None);
      if tr.params != [] {
        re := RNode(false, tr.regex[|staticKey|..], val, tr.params, tr.format, [], [], None);
        assert re.key == ReKey(key);
        var err := eng.compile(re.key + "$");
        if err.Some? {
          return Panic("tree.addChild: " + err.value);
        }
        k := staticKey;
      }
      if |k| > 0 {
        if tr.params != [] {
          r := AddUnder(id, k, re, key);
          return;
        }
        r := AddStatic(id, k, val, tr.format, key);
        return;
      }
      if tr.params == [] {
        return Panic(NilDeref);
      }
      r := AddRegexp(id, re);
    }

    /** `addChild` of a key with parameters after a static prefix `sk`
        (tree.go lines 212-221): a new static child `sk` whose only regexp
        child is `re`, which is returned. */
    method AddUnder(id: nat, sk: string, re: RNode, key: string) returns (r: Result<Option<nat>>)
      requires Valid() && id < |nodes| && nodes[id].isStatic
      requires !re.isStatic && re.schildren == [] && re.rchildren == [] && sk != "" && IsPrefix(sk, key)
      modifies this
      ensures RStep(nodes, r) == ReUnder(old(nodes), id, sk, re, key)
      ensures Fresh(old(nodes), id, key) ==> Valid()
    {
      var t := nodes[id];
      var n := |nodes|;
      var st := RNode(true, sk, None, [], "", [], [n + 1], Some(id));
      nodes := nodes[id := t.(schildren := t.schildren + [n])] + [st, re.(root := Some(n))];
      assert nodes == UnderNodes(old(nodes), id, sk, re);
      r := Ok(Some(n + 1));
    }

    /** `addChild` of a key without parameters (tree.go lines 212-225): a
        new static child with the value. */
    method AddStatic(id: nat, k: string, val: Option<Value>, format: string, key: string) returns (r: Result<Option<nat>>)
      requires Valid() && id < |nodes| && nodes[id].isStatic && k != "" && k == key
      modifies this
      ensures RStep(nodes, r) == StaticBeside(old(nodes), id, k, val, format, key)
      ensures Fresh(old(nodes), id, key) ==> Valid()
    {
      var t := nodes[id];
      var n := |nodes|;
      nodes := nodes[id := t.(schildren := t.schildren + [n])] + [RNode(true, k, val, [], format, [], [], Some(id))];
      r := Ok(Some(n));
    }

    /** `addChild` of a key that starts with a parameter (tree.go lines
        228-236): a panic when a regexp child has the same expression,
        otherwise `re` becomes the last regexp child. */
    method AddRegexp(id: nat, re: RNode) returns (r: Result<Option<nat>>)
      requires Valid() && id < |nodes| && nodes[id].isStatic
      requires !re.isStatic && re.schildren == [] && re.rchildren == []
      modifies this
      ensures assert NodeOk(old(nodes), id, old(nodes)[id]);
              var rs := old(nodes)[id].rchildren;
              var d := FindKey(old(nodes), rs, re.key, 0);
              RStep(nodes, r) == if d < |rs| then RStep(old(nodes), Panic(Exists + String(old(nodes), rs[d])))
                                 else ReBeside(old(nodes), id, re)
      ensures Valid()
    {
      var t := nodes[id];
      assert NodeOk(nodes, id, t);
      var i := 0;
      while i < |t.rchildren|
        invariant i <= |t.rchildren|
        invariant FindKey(nodes, t.rchildren, re.key, i) == FindKey(nodes, t.rchildren, re.key, 0)
      {
        if nodes[t.rchildren[i]].key == re.key {
          return Panic(Exists + String(nodes, t.rchildren[i]));
        }
        i := i + 1;
      }
      var n := |nodes|;
      nodes := nodes[id := t.(rchildren := t.rchildren + [n])] + [re.(root := Some(id))];
      r := Ok(Some(n));
    }
  }
}
