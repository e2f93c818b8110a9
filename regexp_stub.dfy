/** The unfinished router of router/regexp.go (`Reuter`): a "/" root per
    method and a map of names; `Match`, `URLFor`, `Add` and `GroupAdd` are
    stubs, and the only real work is `Name`, which stores the format of a
    node's pattern under a name. */
module RegexpStub {
  import opened Common
  import opened Methods = Router
  import opened Groups
  import opened Fmt
  import opened Names

  /** A `*Node` of the stub router: its first byte, its pattern, its
      handlers, its children (never more than `newNode` gives it), and
      whether its `root` points to a router (`NewRegexp` passes nil). */
  datatype StubNode = StubNode(alpha: char, pattern: string, handlers: Option<seq<Handler>>,
                               children: seq<StubNode>, rooted: bool)

  /** `newNode(pattern, handles, root)` (router/regexp.go lines 50-58): the
      node's `alpha` is the first byte of its pattern, which Go reads
      without a check, so an empty pattern panics. */
  function NewNode(pattern: string, handlers: Option<seq<Handler>>, rooted: bool): (r: Result<StubNode>)
    ensures pattern == "" <==> r == Panic(IndexOfEmpty)
    ensures r.Ok? ==> && r.value.alpha == pattern[0] && r.value.pattern == pattern
                      && r.value.handlers == handlers && r.value.children == [] && r.value.rooted == rooted
  {
    if pattern == "" then Panic(IndexOfEmpty)
    else Ok(StubNode(pattern[0], pattern, handlers, [], rooted))
  }

  class Reuter {
    var autoHead: bool
    var autoTrailingSlash: bool
    var groups: seq<Group>
    /** The root node of each method, by slot. */
    var nodes: seq<StubNode>
    /** The URL format stored for each route name. */
    var namedNodes: map<string, string>

    /** `NewRegexp()` (router/regexp.go lines 39-47): a root "/" with
        `alpha` '/' for each of the methods, no groups and no names. */
    constructor ()
      ensures |nodes| == RouteLength
      ensures forall k :: 0 <= k < |nodes| ==> nodes[k] == StubNode('/', "/", None, [], false)
      ensures namedNodes == map[] && groups == [] && !autoHead && !autoTrailingSlash
    {
      autoHead := false;
      autoTrailingSlash := false;
      groups := [];
      namedNodes := map[];
      nodes := [];
      new;
      var i := 0;
      while i < RouteLength
        invariant 0 <= i <= RouteLength && |nodes| == i
        invariant forall k :: 0 <= k < i ==> nodes[k] == StubNode('/', "/", None, [], false)
        invariant namedNodes == map[] && groups == [] && !autoHead && !autoTrailingSlash
      {
        var n := NewNode("/", None, false);
        nodes := nodes + [n.value];
        i := i + 1;
      }
    }

    /** `SetAutoHead(v)`. */
    method SetAutoHead(v: bool)
      modifies this
      ensures autoHead == v && autoTrailingSlash == old(autoTrailingSlash)
      ensures nodes == old(nodes) && groups == old(groups) && namedNodes == old(namedNodes)
    {
      autoHead := v;
    }

    /** `SetAutoTrailingSlash(v)`. */
    method SetAutoTrailingSlash(v: bool)
      modifies this
      ensures autoTrailingSlash == v && autoHead == old(autoHead)
      ensures nodes == old(nodes) && groups == old(groups) && namedNodes == old(namedNodes)
    {
      autoTrailingSlash := v;
    }

    /** `Match(method, uri, c)` (router/regexp.go lines 79-81): nil for
        every request; nothing is bound. */
    method Match(verb: string, uri: string) returns (n: Option<StubNode>)
      ensures n.None?
    {
      return None;
    }

    /** `URLFor(name, args...)` (router/regexp.go lines 84-86): always "",
        even for a name that `Name` recorded. */
    method URLFor(name: string, args: seq<Arg>) returns (url: string)
      ensures url == ""
    {
      return "";
    }

    /** `Add(method, pattern, handlers)` (router/regexp.go lines 89-91):
        registers nothing and returns nil. */
    method Add(verb: string, pattern: string, handlers: Option<seq<Handler>>) returns (n: Option<StubNode>)
      ensures n.None?
    {
      return None;
    }

    /** `GroupAdd(pattern, f, handlers)` (router/regexp.go lines 94-96):
        does nothing; the calls of the group body are never made. */
    method GroupAdd(pattern: string, body: seq<Action>, handlers: Option<seq<Handler>>)
      ensures groups == old(groups) && nodes == old(nodes) && namedNodes == old(namedNodes)
    {
    }

    /** `n.Name(name)` (router/regexp.go lines 104-124) for a node `n` of
        this router: an empty name does nothing; any other name gets the
        format of the node's pattern, each `:name` run replaced by `%v`,
        replacing what it held before. A node whose `root` is nil (as the
        roots `NewRegexp` makes) panics on the write instead. */
    method Name(n: StubNode, name: string) returns (panic: Option<string>)
      modifies this
      ensures name == "" ==> namedNodes == old(namedNodes) && panic.None?
      ensures name != "" && !n.rooted ==> namedNodes == old(namedNodes) && panic == Some(NilDeref)
      ensures name != "" && n.rooted ==> namedNodes == old(namedNodes)[name := NameFormat(n.pattern)] && panic.None?
      ensures nodes == old(nodes) && groups == old(groups)
      ensures autoHead == old(autoHead) && autoTrailingSlash == old(autoTrailingSlash)
    {
      if name == "" {
        return None;
      }
      var p := FormatOf(n.pattern);
      if !n.rooted {
        return Some(NilDeref);
      }
      namedNodes := namedNodes[name := p];
      return None;
    }
  }
}
