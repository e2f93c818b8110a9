# baa route stores in Dafny

A model of the routing core of the Go web framework baa, with proofs.

Routers map an HTTP method and a URL pattern to a list of handlers. They
match request paths, binding the named parameters they meet, and rebuild
URLs from named routes. The model covers four routers:

- the radix-tree router of `tree.go`. Leaves live in an arena inside the
  `RadixTree.Tree` class, and a `*Leaf` is an index into it. Every method
  that rewires leaves is proved to produce exactly the arena a function of
  `RadixSpec` describes. `RadixMatch` gives the one-pass descent of `Match`
  and proves it sound. `RadixComplete` proves that static and
  one-parameter routes added to a new tree are found again, and that
  conflicting parameters panic. `RadixSplits` proves that the two splices
  of `insert` keep every path the parent matched and add exactly the new
  route. `RadixTwoRoutes` applies this to two static routes sharing a
  prefix on a new tree. `RadixExamples` applies all of it to the routes
  of `tree_test.go`;
- the regexp-radix tree of `router/regtree/tree.go`, with its router
  `router/regtree/router.go` (`RegTreeSpec`, `RegTree`, `RegTreeRoutes`,
  `RegTreeRouter`);
- the linear regexp router of `router/regexp/regexp.go` (`RegexpRoutes`,
  `RegexpRouter`);
- the unfinished router of `router/regexp.go` (`RegexpStub`).

The model also covers:

- the method table of `router.go` (`Router`);
- the per-request `Context` of `context.go` (`Contexts`);
- the `Response` latch of `response.go` (`Responses`);
- the dependency store of `di.go` (`Injection`);
- the middleware bound, `HTTPError` and the `GET` shortcut of `baa.go`
  (`Application`).

Shared pieces have their own modules:

- `Groups`: the group stack and the calls `Add` makes;
- `Patterns`: the translation of `:name(rule)` patterns into regular
  expressions, formats and parameter lists;
- `Names`: the format builder of `Name`;
- `Fmt`: the `%v` part of `fmt.Sprintf`;
- `Common`: options, panics as results, and common prefixes.

Go panics are results (`Common.Result`), carrying the messages the source
panics with. Handlers are opaque ids, and a nil slice is `None`. The
regular-expression engine is a parameter (`Patterns.Engine`): a compile
function and a `FindStringSubmatch` function. `http.StatusText` and the
underlying `http.ResponseWriter` are parameters too. The function a group
body runs is given as a list of registration calls (`Groups.Action`).

## Model

| member | source | states |
|---|---|---|
| Common.LCP | tree.go:432-441 | the result is the length of the longest common prefix: both strings agree up to it, and past it they differ or one ends |
| Common.LCPUnique | tree.go:432-441 | any length up to which two strings agree, and after which they differ or end, is their common prefix length |
| Common.RunUntil | tree.go:355-360 | the run stops at the first `stop` byte or at the end: no byte before it is `stop`, and the byte at it is; `Name` runs to `/`, and the rule loop of router/regexp/regexp.go (lines 196-197) to `)` |
| Common.BindNames | context.go:105-108 | the names of a list of bindings, in order |
| Common.BindValues | context.go:105-108 | the values of a list of bindings, in order |
| Common.BindsAppend | context.go:105-108 | the names and values bound in two stretches of a match are those of each stretch, joined |
| Common.Zip | router/regexp/regexp.go:91-93 | binding names to values index by index gives back exactly those names and values |
| Router.MethodIndex | router.go:16-24 | a known method gets its own slot below `RouteLength`; an unknown one reads slot 0 (GET), as Go's map lookup does |
| Router.RouterMethodsTable | router.go:3-24 | the table has exactly the seven methods at seven distinct slots 0..6, named in slot order, and TRACE is not a key |
| Router.NamesDiffer | router.go:3-24 | the seven method names differ pairwise, and none of them is TRACE |
| Router.IsParamChar | router.go:50-55 | a parameter character is an ASCII letter, digit or `_`; none of the bytes that delimit a parameter in a pattern (`:`, `*`, `/`, `(`, `)`, `%`, `.`, `-`) is one |
| Fmt.VerbRun | router/regexp/regexp.go:110-112 | `k` appended verbs are `2k` bytes long |
| Fmt.NoVerbs | tree.go:154 | a format without verbs prints as it is |
| Fmt.Sprintf | tree.go:154 | `fmt.Sprintf` as the routers' `URLFor` uses it: a format without verbs prints as it is, followed by the `EXTRA` annotation when arguments are left over |
| Fmt.Append | tree.go:154 | printing a format made of two parts prints the first part, then the second with the following arguments |
| Fmt.Repeat | router/regexp/regexp.go:110-113 | a run of `k` verbs prints the texts of the next `k` arguments |
| Fmt.NoPercent | tree.go:154 | a format without `%` has no verbs |
| Fmt.VerbRunSnoc | router/regexp/regexp.go:110-112 | appending one verb to a run of `k` gives the run of `k+1` |
| Fmt.Padding | router/regexp/regexp.go:108-113 | padding a format with one verb per extra argument prints every extra argument after the filled format, with no EXTRA annotation |
| Fmt.AppendVerbs | router/regexp/regexp.go:110-113 | the verbs of two formats put together are those of each, as long as the first does not end in a lone `%` |
| Fmt.SprintfAll | router/regexp/regexp.go:113 | a format with a verb for every argument prints its filled body with no `EXTRA` annotation |
| Fmt.PadVerbs | router/regexp/regexp.go:108-112 | the loop appends one `%v` for each argument beyond the route's parameters, and none when there are no more arguments than parameters |
| Fmt.PaddedPrint | router/regexp/regexp.go:108-113 | a padded format whose own verbs are the route's parameters prints the filled format followed by the texts of the extra arguments, in order |
| Groups.Combine | tree.go:194-206 | the loop over the groups gives the route `Join` describes |
| Groups.Nesting | tree.go:173-182 | a route added under one more group is stored as if the group's pattern and handlers had been put in front of it under the outer groups |
| Groups.Applied | tree.go:194-206 | under active groups, the stored pattern is the group patterns in stack order then the pattern; the handlers are the group handlers then the route's own, and nil exactly when both are empty |
| Groups.Unslashed | tree.go:163-166 | the pattern is the result or the result plus one `/`, and a result that still ends in `/` had its slash removed |
| Groups.Registrations | tree.go:159-170 | `Add` always ends with a call for the method it was given; corrected, see Findings row 3: the empty route of a group with the trailing-slash option is registered as the group prefix plus `/` and as the group prefix itself |
| Groups.TrailingSlashPair | tree.go:159-170 | with the trailing-slash option the route is registered with and without a trailing slash, one of them being the pattern as given; a GET route gets a HEAD copy first exactly when `autoHead` is set |
| Groups.EmptyGroupRouteRegistered | router/regtree/router.go:102-113 | the corrected `Add` registers the empty route of a group as the group prefix plus `/` and as the group prefix itself |
| Groups.Variants | tree.go:163-169 | after the HEAD copy, `Add` makes the call with the trailing slash and the one without when the option applies, and only the call with the pattern as given otherwise |
| Names.FormatOf | tree.go:347-361 | the loop of `Name` builds the format `NameFormat` describes |
| Names.SkipTo | tree.go:355-360 | the first `/` (or the end) is where the name run stops |
| Names.FillFormat | tree.go:343-363 | a pattern without `%` has one verb in its format per `:name` run, and filling the format gives the pattern with each run replaced by its argument |
| Names.URLRoundTrip | tree.go:146-155 | `URLFor` of a named pattern without `%`, with one argument per parameter, rebuilds the pattern with each parameter replaced by its argument, in order |
| Names.FormatOfStatic | tree.go:347-361 | a pattern without `:` is its own format |
| Names.FormatOfPrefix | tree.go:347-361 | a prefix without `:` is copied to the format unchanged |
| Names.InstantiateOfPrefix | tree.go:343-363 | a prefix without `:` is copied to the URL unchanged |
| Names.ParamCountOfPrefix | tree.go:343-363 | a prefix without `:` adds no parameters |
| Names.SkipName | tree.go:355-360 | the inner loop stops at the next `/` or at the end: right after the name run `RunUntil` measures |
| Names.FormatByte | tree.go:349-351 | a byte other than `:` is copied to the format, and the format goes on with the rest |
| Names.FormatParam | tree.go:353-360 | a `:name` run becomes one `%v`, and the format goes on from the `/` that ends the run |
| Names.NameFormat | tree.go:343-363 | the format `Name` stores has no `:` left in it |
| Names.ParamCount | tree.go:343-363 | a pattern has no parameters exactly when it has no `:` |
| Names.Instantiate | tree.go:146-155 | a pattern without `:` describes only itself: filling it gives the pattern unchanged |
| NamesExample.IdShow | tree_test.go:103-106 | ":id/show" has the format "%v/show" and one parameter, and gives `v` + "/show" for the argument `v` |
| NamesExample.ArticleFormat | tree_test.go:103 | the format of "/article/:id/show" is "/article/%v/show" |
| NamesExample.ArticleParams | tree_test.go:103-106 | "/article/:id/show" has one parameter and with 123 reads "/article/123/show" |
| NamesExample.ArticleURL | tree_test.go:105-106 | `URLFor` of "/article/:id/show" with 123 gives "/article/123/show" |
| Patterns.ParamRun | router/regexp/regexp.go:186-187 | the name run is the leading run of parameter characters: it stops at the first other byte or at the end |
| Patterns.RuleText | router/regexp/regexp.go:201-209 | the group for a rule is always parenthesised; a rule other than "", `int` and `string` is kept as written |
| Patterns.SpecAt | router/regexp/regexp.go:184-200 | the scan always moves forward and stays in the pattern; the name is empty exactly when no parameter character follows the `:` |
| Patterns.FirstSpecial | router/regtree/tree.go:145-164 | the result is the index of the first `*` or `:` from `i` on, or the length |
| Patterns.StaticKey | router/regtree/tree.go:148-149 | the static prefix is a prefix of the key, and when it is not empty it is exactly the bytes before the first parameter |
| Patterns.RegexpScanStatic | router/regexp/regexp.go:216-217 | bytes without `:` translate to themselves in the expression and the format, with no parameters |
| Patterns.NoParams | router/regexp/regexp.go:179-226 | a pattern without `:` has no parameters, and its expression and format are the pattern itself |
| Patterns.RegexpScanEmptyName | router/regexp/regexp.go:186-191 | a `:` that no parameter character follows panics with "Router.add: pattern param is empty" |
| Patterns.TreeScanStatic | router/regtree/tree.go:189-190 | a key without `*` or `:` translates to itself with no parameters |
| Patterns.TreeScanSplit | router/regtree/tree.go:193-210 | the translation of a key is its bytes before the first parameter followed by the translation from that parameter on |
| Patterns.RegexpVerbs | router/regexp/regexp.go:210-217 | a pattern without `%` gives a format with exactly one verb per parameter, not ending in a lone `%` |
| Patterns.TreeVerbs | router/regtree/tree.go:184-190 | as `RegexpVerbs`, for the regtree translation, `*` included |
| Patterns.ScanSpec | router/regexp/regexp.go:186-200 | the scan over a parameter yields the name, rule and resume index `SpecAt` describes |
| Patterns.RunIs | router/regexp/regexp.go:186-187 | the first non-parameter character (or the end) is where the name run stops |
| Patterns.RuleIs | router/regexp/regexp.go:196-197 | the first `)` (or the end) is where the rule stops |
| Patterns.ScanRegexp | router/regexp/regexp.go:179-218 | the loop of `add` builds the expression, format and parameters `RegexpScan` describes, or its panic |
| Patterns.ScanTree | router/regtree/tree.go:145-191 | the loop of `addChild` builds the translation `TreeScan` describes and the static prefix `StaticKey` describes |
| Patterns.ScannedStep | router/regtree/tree.go:145-191 | one turn of the loop keeps its invariant: what is built so far, followed by the translation of the rest, is the whole translation |
| Patterns.TreePiece | router/regtree/tree.go:146-190 | one turn of the loop translates the byte, `*` or parameter at `i` so that it and the translation of the rest make the translation from `i`; a parameter adds a name |
| Patterns.EmptyConcat | router/regexp/regexp.go:179-218 | the empty translation is neutral |
| Patterns.ConcatAssoc | router/regexp/regexp.go:179-218 | joining translations is associative |
| Patterns.GlueAssoc | router/regexp/regexp.go:179-218 | joining in front of a result that may be a panic is associative |
| Patterns.NextOf | router/regexp/regexp.go:192-199 | the scan resumes after the `)` of the rule, at the end when the rule is not closed, and right after the name when no rule follows; never before the end of the name |
| Patterns.ScanName | router/regexp/regexp.go:186-187 | the name loop stops where the run of parameter characters after the `:` ends |
| Patterns.ScanRule | router/regexp/regexp.go:196-197 | the rule loop stops at the first `)` after the `(`, or at the end |
| Patterns.ByteStepKeeps | router/regtree/tree.go:145-191 | a byte before the first parameter extends the static part and takes no static key yet; after the first parameter the static key is final |
| Patterns.ParamStepKeeps | router/regtree/tree.go:145-191 | a parameter ends the static part; the prefix taken at the first parameter is the static key |
| Patterns.RegexpScan | router/regexp/regexp.go:179-218 | the translation has no `:` left in its format and every parameter it lists has a name; the only panic is the one for a `:` without a name |
| Patterns.TreeScan | router/regtree/tree.go:145-191 | the format of the translation has no `:` and no `*` left in it |
| Patterns.RegexpScanRun | router/regexp/regexp.go:216-217 | a run of bytes without `:` is copied unchanged to the expression and the format, in front of the translation of what follows |
| Patterns.NameIs | router/regexp/regexp.go:186-187 | a name spelled after the `:` and followed by no parameter character ends exactly after it |
| Patterns.RuleAt | router/regexp/regexp.go:192-199 | a rule written `(rule)` with no `)` inside is read as `rule`, and the scan resumes right after its `)` |
| Patterns.SpecIs | router/regexp/regexp.go:184-200 | a parameter spelled `:name` or `:name(rule)` is read with that name and rule, and the scan resumes right after it |
| Patterns.NameShift | router/regexp/regexp.go:186-187 | the name after a `:` depends only on the bytes that follow it |
| Patterns.RuleShift | router/regexp/regexp.go:192-199 | the rule after a name, and where the scan resumes, depend only on the bytes that follow the name |
| Patterns.SpecShift | router/regexp/regexp.go:184-200 | the parameter read at a `:` depends only on the bytes that follow it |
| Patterns.ScanShift | router/regexp/regexp.go:183-218 | the loop only looks ahead: translating from a point of `a + b` inside `b` is translating `b` from there |
| Patterns.ScanStaticFront | router/regexp/regexp.go:216-217 | a front without `:` is copied unchanged in front of the translation of the rest |
| Patterns.ScanRuleFront | router/regexp/regexp.go:184-213 | a front `:name(rule)` translates to one parameter with that name and rule, in front of the translation of the rest |
| Patterns.ScanNameFront | router/regexp/regexp.go:184-213 | a front `:name` without a rule translates to one parameter with that name, in front of the translation of the rest |
| Patterns.YyRoute | router/regexp/regexp_test.go:257-262 | "/yy/:py([a-zA-Z0-9_-]+)-:id(int)/:page.html" has the parameters py, id and page in that order, the format "/yy/%v-%v/%v.html", and an expression with the rule of py, digits for id and any bytes but `/` for page in their places |
| RadixSpec.NewLeaf | tree.go:50-58 | a new leaf is static, holds the pattern and handlers, its first byte is the pattern's, and it has no parent or children |
| RadixSpec.ParamLeaf | tree.go:249-254 | the leaf for `:name` has the pattern ":", is a parameter leaf and carries the name |
| RadixSpec.WfUpdate | tree.go:401-429 | replacing a leaf by one of the same kind that keeps its shape keeps the tree well formed |
| RadixSpec.WfAppend | tree.go:50-58 | adding a leaf that keeps its shape keeps the tree well formed |
| RadixSpec.NoColonSuffix | tree.go:258 | a suffix of a static run has no `:` |
| RadixSpec.NoColonPrefix | tree.go:332 | a prefix of a static run has no `:` |
| RadixSpec.IndexFrom | tree.go:379-382 | the result is the first child from `i` on with the given pattern, or the number of children when none has it |
| RadixSpec.FindFrom | tree.go:366-375 | a child found is static, starts with the byte and is a child of the leaf; nothing is found exactly when no static child starts with the byte, so a parameter child is never returned |
| RadixSpec.SetHandlers | tree.go:274-276 | only the one leaf changes, and only its handlers; nil handlers change nothing |
| RadixSpec.WfSetHandlers | tree.go:274-276 | storing handlers keeps the tree well formed |
| RadixSpec.ResetPattern | tree.go:426-429 | only the one leaf changes: it gets the pattern and that pattern's first byte |
| RadixSpec.WfResetPattern | tree.go:426-429 | a static leaf given a static pattern keeps the tree well formed |
| RadixSpec.DeleteChild | tree.go:378-398 | only the parent changes: it loses its first child with the same pattern as `node`, if any, and the other children keep their order |
| RadixSpec.WfDeleteChild | tree.go:378-398 | deleting a child keeps the tree well formed |
| RadixSpec.InsertChild | tree.go:401-423 | keeps the shape of every leaf. A child already there with the pattern of `node` takes its handlers unless they are nil and is returned, and two parameter leaves with different names panic with both names; otherwise `node` is returned, gets the leaf as parent and is appended (a parameter leaf swapped to the front), and no other leaf changes |
| RadixSpec.WfInsertChild | tree.go:401-423 | inserting a child keeps the tree well formed: at most one parameter child, always first |
| RadixSpec.Reparent | tree.go:304-311 | the splice keeps the tree well formed and returns the inserted leaf; that it keeps every route is `RadixSplits.ReparentKeeps` |
| RadixSpec.Split | tree.go:331-339 | the split adds one leaf, keeps the tree well formed and returns the inserted leaf; that it keeps every route is `RadixSplits.SplitKeeps` |
| RadixSpec.Insert | tree.go:271-340 | `insert` keeps the tree well formed, only grows it, and returns a leaf of it; the leaf with the same pattern takes the handlers (unless nil) and is returned; a parameter leaf under a static one is `insertChild` |
| RadixSpec.Scan | tree.go:287-300 | the loop over the children keeps the tree well formed, only grows it, and returns a leaf of it |
| RadixSpec.Attach | tree.go:230 | inserting a new leaf keeps the tree well formed, grows it and returns a leaf of it |
| RadixSpec.Flush | tree.go:228-235 | inserting the static run keeps the tree well formed; an empty run changes nothing |
| RadixSpec.ParamAt | tree.go:236-256 | the parameter step keeps the tree well formed; it panics exactly when the name after the `:` is empty |
| RadixSpec.ParamStep | tree.go:227-256 | the step at a `:` keeps the tree well formed and moves the scan forward |
| RadixSpec.AddScan | tree.go:225-265 | the scan of `add` keeps the tree well formed and only grows it |
| RadixSpec.AddSpec | tree.go:185-268 | `add` keeps the tree well formed and only grows it; an unknown method, an empty pattern and one without a leading `/` (after the groups are applied) panic with their messages and change nothing; success returns the leaf for the whole route and its handlers |
| RadixSpec.DropChildOk | tree.go:378-398 | a leaf that loses one of its children keeps its shape |
| RadixSpec.WfInsertNew | tree.go:414-422 | appending a child that no child shares a pattern with keeps the tree well formed, whether or not it is then swapped to the front |
| RadixSpec.WfInsertSwap | tree.go:417-420 | a parameter leaf appended behind static children and swapped to the front keeps the tree well formed |
| RadixSpec.WfInsertAppend | tree.go:414-415 | a child appended last, when no swap applies, keeps the tree well formed |
| RadixSpec.AppendChildOk | tree.go:414-415 | a leaf that gets a new last child keeps its shape, unless that child is a parameter leaf that would not come first |
| RadixSpec.SwapChildOk | tree.go:417-420 | a static leaf whose first child is static keeps its shape when a parameter leaf is appended and swapped to the front |
| RadixSpec.NamedParam | tree.go:236-254 | the parameter leaf is named by the bytes after the `:` up to the next `/`, and gets the handlers only when that name ends the pattern |
| RadixMatch.Capture | tree.go:104-110 | a parameter leaf without children captures the rest of the path; otherwise it captures up to the next `/` |
| RadixMatch.NextChild | tree.go:118-139 | the descent goes on at a child that is a parameter leaf or starts with the next byte, never from a parameter leaf to a parameter leaf; a static child starting with the byte is preferred over the parameter child, and nothing is chosen exactly when no static child starts with the byte and there is no parameter child |
| RadixMatch.HopAt | tree.go:86-139 | one turn of the loop: a parameter leaf binds its name to what it captures; a static leaf that is not a prefix of the path stops with nil; going on consumes the leaf's part of the path and moves to a child; stopping with handlers gives this leaf's |
| RadixMatch.MatchFrom | tree.go:84-142 | the walk starts at its leaf; a parameter leaf binds first (even when the match fails later); a static leaf that is not a prefix of the path stops at once with nil |
| RadixMatch.MatchUnfold | tree.go:84-142 | a match is one turn of the loop followed by the match from where it went on |
| RadixMatch.MatchSound | tree.go:84-142 | every match is justified: the leaves visited form a walk down from the start that spells the whole path with the values bound, and the handlers returned are those of the last leaf |
| RadixMatch.SpellsPrepend | tree.go:118-137 | a turn that goes on, in front of a walk that spells the rest of the path, gives a walk that spells the whole path |
| RadixMatch.MatchTurn | tree.go:86-139 | one turn of the loop keeps its state: the whole match is the bindings made so far followed by the match of the rest, and a turn that ends gives the final handlers and bindings |
| RadixMatch.MatchSpec | tree.go:79-143 | `Match`: the descent from the root of the method; an unknown method reads the GET root, as Go's map lookup does |
| RadixMatch.Spells | tree.go:84-142 | what a match must satisfy: a downward walk whose static leaves spell their patterns and whose parameter leaves spell the values bound to their names, with no `/` in a value unless the walk ends there |
| RadixRoutes.EmptyGroupRoutePanics | tree.go:163-166 | as written, adding the empty route of a group with the trailing-slash option panics with the Go runtime message for the index -1 |
| RadixRoutes.AddAsWritten | tree.go:159-170 | `Add` as written: the corrected calls, except that an empty pattern inside a group with the trailing-slash option indexes `pattern[-1]` and panics, after the HEAD copy when there is one |
| RadixRoutes.AddAll | tree.go:159-170 | the calls of `Add` keep the tree well formed and only grow it |
| RadixRoutes.Run | tree.go:173-182 | running a group body keeps the tree well formed; without a panic the group stack is back as it was, and after a panic the old stack is still at its bottom |
| RadixRoutes.RunFirst | tree.go:173-182 | running calls is running the first one and then, unless it panicked, the rest |
| RadixRoutes.AddAllStep | tree.go:159-170 | the calls of `Add` are made one at a time: the first, then the rest on the arena it left unless it panicked |
| RadixTree.Tree.constructor | tree.go:38-47 | one "/" root per method at its slot, no names, no groups |
| RadixTree.Tree.SetAutoHead | tree.go:69-71 | sets the flag, nothing else changes |
| RadixTree.Tree.SetAutoTrailingSlash | tree.go:74-76 | sets the flag, nothing else changes |
| RadixTree.Tree.HasPrefixString | tree.go:432-441 | the result is the longest common prefix of `s` and the leaf's pattern, never longer than either |
| RadixTree.Tree.FindChild | tree.go:366-375 | the first static child starting with the byte; it never returns a parameter child |
| RadixTree.Tree.DeleteChild | tree.go:378-398 | the arena becomes `RadixSpec.DeleteChild` of the old one and stays well formed |
| RadixTree.Tree.InsertChild | tree.go:401-423 | the arena and the result are `RadixSpec.InsertChild` of the old arena: an existing child with the pattern takes the handlers (a parameter-name clash panics), otherwise the node is appended and a parameter child moves to the front |
| RadixTree.Tree.ResetPattern | tree.go:426-429 | the arena becomes `RadixSpec.ResetPattern` of the old one |
| RadixTree.Tree.Insert | tree.go:271-340 | the arena and the result are `RadixSpec.Insert` of the old arena, and the tree stays well formed |
| RadixTree.Tree.Reparent | tree.go:304-311 | the arena and the result are `RadixSpec.Reparent` of the old arena |
| RadixTree.Tree.Split | tree.go:331-339 | the arena and the result are `RadixSpec.Split` of the old arena |
| RadixTree.Tree.InsertBelow | tree.go:287-300 | the arena and the result are `RadixSpec.Scan` of the old arena |
| RadixTree.Tree.Register | tree.go:185-268 | the arena and the result are `RadixSpec.AddSpec` of the old state: its panics for an unknown method, an empty pattern or one without a leading `/`, a parameter without a name or a parameter-name clash, or the leaf for the whole route |
| RadixTree.Tree.InsertNew | tree.go:230 | the arena and the result are `RadixSpec.Attach` of the old arena |
| RadixTree.Tree.Pieces | tree.go:220-265 | the scan of `add` gives the arena and result `RadixSpec.AddScan` describes |
| RadixTree.Tree.ParamPiece | tree.go:227-256 | the step at a `:` gives the arena and resume point `RadixSpec.ParamStep` describes |
| RadixTree.Tree.Flush | tree.go:228-235 | inserting the static run gives the arena `RadixSpec.Flush` describes |
| RadixTree.Tree.ParamAfter | tree.go:236-256 | the parameter leaf step gives the arena and resume point `RadixSpec.ParamAt` describes |
| RadixTree.Tree.ParamName | tree.go:236-243 | the name is the run after the `:` up to the next `/` or the end |
| RadixTree.Tree.Add | tree.go:159-170 | the arena and the result are those of the calls `Registrations` lists, made in order until one panics; corrected, see Findings row 3 |
| RadixTree.Tree.GroupAdd | tree.go:173-182 | the arena is that of running the body with the group pushed; without a panic the group stack is restored |
| RadixTree.Tree.RunOne | tree.go:173-182 | one call of a body does what `RadixRoutes.Run` says |
| RadixTree.Tree.RunBody | tree.go:173-182 | the calls of a body do what `RadixRoutes.Run` says |
| RadixTree.Tree.Match | tree.go:79-143 | returns the handlers of `RadixMatch.MatchSpec` and binds its parameters in the context, in order; nothing else in the context changes |
| RadixTree.Tree.Hop | tree.go:86-139 | one turn of the loop is `HopAt`, and its binding is made in the context |
| RadixTree.Tree.ParamEnd | tree.go:104-110 | the parameter value ends where `Capture` says |
| RadixTree.Tree.Descend | tree.go:118-139 | the child chosen is `NextChild`: a static child starting with the byte before the parameter child |
| RadixTree.Tree.Name | tree.go:343-363 | an empty name changes nothing; otherwise the name maps to the format of the pattern, and `URLFor` then rebuilds the route from one argument per parameter |
| RadixTree.Tree.URLFor | tree.go:146-155 | "" for an empty or unknown name or an empty format; otherwise the recorded format filled with the arguments |
| RadixTree.Tree.AddVariants | tree.go:163-169 | the arena and the result are those of the calls `Registrations` lists after the HEAD copy; corrected, see Findings row 3 |
| RadixTree.Tree.AddPair | tree.go:163-167 | the arena and the result are those of the call with the trailing slash and then, unless it panicked, the one without |
| RadixComplete.AddScanned | tree.go:185-268 | `add` of a pattern that starts with `/` is the scan over it from the method's root: its panic, or the leaf for the whole route |
| RadixComplete.AddStatic | tree.go:225-235 | `add` of a route without parameters is one insertion of its whole pattern under the method's root |
| RadixComplete.FlushBare | tree.go:271-340 | inserting a static run under a bare "/" root: "/" itself only gives the root the handlers; a longer run becomes the root's one child, cut after the "/" the root already spells |
| RadixComplete.MatchStaticEnd | tree.go:86-94 | a static leaf whose pattern is all that is left of the path ends the match at its handlers, binding nothing |
| RadixComplete.MatchStaticOn | tree.go:86-139 | a static leaf with one child consumes its pattern and goes on at that child when the rest of the path starts as the child does |
| RadixComplete.MatchParamEnd | tree.go:104-116 | a parameter leaf without children binds all the rest of the path and ends the match at its handlers |
| RadixComplete.AddGrownAgain | tree.go:271-276 | the same static route added again over a new tree's one child: the child takes the new handlers unless nil, and the new leaf is left detached |
| RadixComplete.ClashAt | tree.go:401-411 | a parameter leaf inserted under a static leaf whose parameter child has another name panics, naming both |
| RadixComplete.MatchParamOn | tree.go:104-137 | a parameter leaf with one child binds the bytes up to the next `/` and goes on at that child with the rest |
| RadixComplete.MatchTwoStatic | tree.go:84-142 | under a static leaf without handlers whose one child is a childless static leaf, a match finds the child's handlers at exactly the two patterns joined, and binds nothing |
| RadixComplete.MissTwoStatic | tree.go:84-142 | under the same two leaves, a path that does not start with the two patterns joined finds nothing |
| RadixComplete.MatchGrown | tree.go:84-142 | after a static route longer than "/" is inserted under a new root, a match from the root finds its handlers at exactly its path, and binds nothing |
| RadixComplete.MatchSlash | tree.go:84-142 | after "/" is inserted under a new root, a match from the root finds its handlers at exactly "/", and binds nothing |
| RadixComplete.AddGrown | tree.go:271-340 | a static route longer than "/" added to a new method tree becomes the root's one child, holding the rest of the route after the `/` and its handlers |
| RadixComplete.AddSlash | tree.go:271-276 | the route "/" added to a new method tree only gives the root its handlers |
| RadixComplete.AddStaticThenMatch | tree.go:79-268 | a route without parameters added to a new method tree is found by `Match` at exactly its path, with its handlers and no parameters; every other path finds nothing |
| RadixComplete.AddOneParam | tree.go:225-265 | `add` of a route with one parameter on a new method tree builds the chain: a static leaf for the part before the `:`, a parameter leaf with the name, and the static rest |
| RadixComplete.MatchOneParam | tree.go:84-142 | on that chain, a path that puts a value in place of the parameter is found, with the value bound to the name |
| RadixComplete.MissOneParam | tree.go:84-142 | on that chain, a path that does not start with the static part before the `:` finds nothing |
| RadixComplete.AddParamThenMatch | tree.go:79-268 | a route `s:name t` added to a new method tree is found by `Match` at every path `s v t`, with `v` bound to the name (a value holds no `/` unless the parameter ends the route) |
| RadixComplete.AddParamMiss | tree.go:79-268 | after the same `add`, a path that does not start with the static part before the parameter finds nothing |
| RadixComplete.MatchExtend | tree.go:84-142 | a leaf appended to the arena that no leaf names as a child is never reached: `Match` is unchanged |
| RadixComplete.FlushExisting | tree.go:271-300 | inserting a static run whose leaf is already the root's child gives that leaf the handlers unless nil, and leaves the new leaf detached |
| RadixComplete.AddStaticTwice | tree.go:271-276 | adding the same static route twice changes no leaf but the route's own, which takes the new handlers unless nil; `Match` then finds the latest handlers at the route's path and nothing elsewhere |
| RadixComplete.AddEmptyParam | tree.go:244-246 | a `:` followed by `/` or by nothing panics for its empty name |
| RadixComplete.ChainClash | tree.go:401-411 | at the `:` of a second route with another parameter name at the same place, the new parameter leaf clashes with the old one and panics naming both |
| RadixComplete.AddParamConflict | tree.go:401-411 | two routes with parameters of different names at the same place: the second `add` panics naming both |
| RadixExamples.NewLeaves | tree.go:38-47 | `NewTree` makes one bare "/" root per method slot, and the tree is well formed |
| RadixExamples.NewNodes | tree.go:38-47 | the root of method slot `k` is leaf `k` |
| RadixExamples.ParamRouteExample | tree_test.go:222-238 | with "/a/:id/id" added, "/a/123/id" is found with `id` bound to "123", and "/abc/1234" finds nothing |
| RadixExamples.StaticRouteExample | tree_test.go:243-250 | with "/user/pass" added, it is found, while "/user/pass32" and "/user/xxx" find nothing |
| RadixExamples.EmptyParamExample | tree_test.go:64-68 | "/p/:/a" panics for its empty parameter name |
| RadixExamples.ParamConflictExample | tree_test.go:72-80 | "/a/:id" then "/a/:name" panics, naming both parameters |
| RadixExamples.NewRanked | tree.go:38-47 | the arena `NewTree` makes has no child links, so it is acyclic |
| RadixExamples.SplitExample | tree_test.go:240-250 | with "/user/info" and then "/user/pass" added, each is found with its own handlers, while "/user/pass32" and "/user/xxx" find nothing |
| RadixExamples.ReparentExample | tree_test.go:36-37 | with "/abcd" and then "/abc" added, each is found with its own handlers, and "/ab" finds nothing |
| RadixSplits.FindSame | tree.go:366-376 | `findChild` gives the same answer on two arenas that agree on the children it reads |
| RadixSplits.HopSame | tree.go:84-142 | one step of `Match` at a leaf gives the same answer on two arenas that agree on that leaf and its children |
| RadixSplits.MatchSame | tree.go:84-142 | a match from a leaf gives the same result on two arenas that agree on every leaf below it |
| RadixSplits.Swapped | tree.go:378-424 | the children after a child is deleted and another appended: the others in order, then the new one |
| RadixSplits.FindAt | tree.go:366-376 | among children with distinct first bytes, `findChild` of a child's first byte finds that child |
| RadixSplits.NextSwap | tree.go:102-139 | after a child is replaced by a static leaf with the same first byte, `Match` goes on at the new leaf wherever it went on at the old one, and elsewhere as before |
| RadixSplits.HopSwap | tree.go:84-142 | after that replacement, one step of `Match` at the parent is unchanged except that it goes on at the new leaf instead of the old one |
| RadixSplits.NextSame | tree.go:102-139 | two leaves with the same children, the same leaves in both arenas, send `Match` on to the same child |
| RadixSplits.CutSame | tree.go:84-142 | a leaf cut down to a suffix of its pattern matches the rest of a path exactly as it matched the whole path before the cut |
| RadixSplits.PrefixCut | tree.go:84-100 | a common first part can be dropped from a prefix test |
| RadixSplits.ReparentTail | tree.go:304-311 | after the reparenting, the new leaf finds its own handlers at exactly its pattern and, below it, what the old leaf found with the same bindings |
| RadixSplits.SplitTail | tree.go:331-339 | after the split, the new parent leaf finds the new leaf's handlers at exactly the common prefix followed by its pattern and, below it, what the old leaf found with the same bindings |
| RadixSplits.IndexAt | tree.go:401-424 | among children with distinct first bytes, the child with a given pattern is found at its own position |
| RadixSplits.DeletedMiss | tree.go:378-424 | once a static child is deleted, no remaining child has the pattern of a static leaf with the same first byte, so `insertChild` appends it |
| RadixSplits.ReplaceChild | tree.go:378-424 | `deleteChild` then `insertChild` of a static leaf with the same first byte replaces the child in the list and changes no other leaf than the parent and the new child |
| RadixSplits.HangFirst | tree.go:401-424 | `insertChild` into a childless leaf makes the node its only child |
| RadixSplits.HangSecond | tree.go:401-424 | `insertChild` of a static leaf with a different first byte after one static child appends it |
| RadixSplits.ReparentShape | tree.go:304-311 | the reparenting returns the new leaf; the parent has it in place of the old leaf; it has the old leaf, cut to the rest of its pattern, as its only child; every other leaf is unchanged |
| RadixSplits.SplitShape | tree.go:331-339 | the split returns the new leaf and appends one leaf holding the common prefix; that leaf replaces the old leaf under the parent and has the cut old leaf and the new leaf as children; every other leaf is unchanged |
| RadixSplits.SplitOpen | tree.go:331-334 | the new leaf holding the common prefix replaces the old leaf among the parent's children and gets the parent; no other leaf changes |
| RadixSplits.SplitClose | tree.go:335-337 | the old leaf, cut to the rest of its pattern, and then the new leaf are hung under the prefix leaf as its two children; no other leaf changes |
| RadixSplits.SpliceFrozen | tree.go:271-340 | the leaves below the parent other than the three spliced ones have no child among them |
| RadixSplits.SiblingsApart | tree.go:271-340 | the other children of the parent are none of the three spliced leaves |
| RadixSplits.SwapMatch | tree.go:84-142 | after a splice, a match from the parent that did not go on at the replaced child is unchanged, and one that did goes on at the new leaf with the same bindings and rest |
| RadixSplits.ReparentSibling | tree.go:304-311 | after the reparenting, the parent has the new leaf where the old one was and the leaves below it outside the splice are untouched |
| RadixSplits.ReparentBelow | tree.go:304-311 | after the reparenting, the new leaf finds its own handlers at its pattern and otherwise what the old leaf found, with the same bindings |
| RadixSplits.ReparentMatch | tree.go:304-311 | on any arena of the reparented shape, a match from the parent binds what it bound before and finds what it found before, except that the new leaf's route is now found with its handlers |
| RadixSplits.ReparentKeeps | tree.go:304-311 | the reparenting keeps every route the parent matched, with the same handlers and bindings, and adds exactly the new leaf's route |
| RadixSplits.SplitSibling | tree.go:331-339 | after the split, the parent has the prefix leaf where the old one was and the leaves below it outside the splice are untouched |
| RadixSplits.SplitBelow | tree.go:331-339 | after the split, the prefix leaf finds the new leaf's handlers at the prefix then the new pattern and otherwise what the old leaf found, with the same bindings |
| RadixSplits.SplitMatch | tree.go:331-339 | on any arena of the split shape, a match from the parent binds what it bound before and finds what it found before, except that the new leaf's route is now found with its handlers |
| RadixSplits.SplitKeeps | tree.go:331-339 | the split keeps every route the parent matched, with the same handlers and bindings, and adds exactly the new leaf's route |
| RadixTwoRoutes.Lifted | tree.go:271-340 | the rank for a grown arena with one more leaf: the old leaves one up, the two new ones at the bottom |
| RadixTwoRoutes.SpliceOnGrown | tree.go:271-340 | the arena after one route was grown under a new root, with one detached leaf appended, meets the hypotheses of both splices |
| RadixTwoRoutes.FlushUnder | tree.go:261-264 | flushing a static run under a "/" root cuts the new leaf after the "/" and scans the root's children with it |
| RadixTwoRoutes.ScanInto | tree.go:315-323 | the scan of a new static leaf under a leaf whose only child shares its first byte hands it down to that child |
| RadixTwoRoutes.InsertPrefix | tree.go:303-311 | `insert` of a leaf whose pattern is a proper prefix of the leaf it meets reparents |
| RadixTwoRoutes.InsertParting | tree.go:303-339 | `insert` of a leaf that parts from the leaf it meets after some common bytes cuts the new leaf and splits |
| RadixTwoRoutes.HopToChild | tree.go:84-139 | at a "/" root with one static child, `Match` goes on at the child with the rest `t` exactly when the path is "/" then `t` |
| RadixTwoRoutes.ReparentFound | tree.go:303-311 | inserting a proper prefix under a "/" root's only child: its route is found with its handlers, every other path as before |
| RadixTwoRoutes.CutOrphan | tree.go:312 | cutting the detached new leaf keeps the splice hypotheses and every match from the root |
| RadixTwoRoutes.SplitFound | tree.go:312-339 | inserting a parting static leaf under a "/" root's only child: its route is found with its handlers, every other path as before |
| RadixTwoRoutes.SplitUnderRoot | tree.go:331-339 | the split under a "/" root's only child: the route "/" then the common prefix and the new leaf's pattern is found with its handlers, every other path as before |
| RadixTwoRoutes.GrownPair | tree.go:261-264 | the leaves the splices look at after a second static run is flushed under a grown root |
| RadixTwoRoutes.FlushPrefixFound | tree.go:261-264 | flushing a static run that is a proper prefix of the root's only child: it is found, every other path as before |
| RadixTwoRoutes.FlushPartingFound | tree.go:261-264 | flushing a static run that parts from the root's only child: it is found, every other path as before |
| RadixTwoRoutes.ReparentOnGrown | tree.go:271-340 | after `s + x` and then `s`, each is found with its own handlers, nothing else is, and nothing is bound |
| RadixTwoRoutes.SplitOnGrown | tree.go:271-340 | after `s + x` and then `s + y` (parting at their first bytes), each is found with its own handlers, nothing else is, and nothing is bound |
| RadixTwoRoutes.AddSplitThenMatch | tree.go:185-340 | two static routes parting after more than "/", added to a new tree: both `add`s succeed and `Match` finds each at exactly its path with its own handlers and nothing elsewhere |
| RadixTwoRoutes.AddReparentThenMatch | tree.go:185-340 | a static route and then a proper prefix of it, added to a new tree: both `add`s succeed and `Match` finds each at exactly its path with its own handlers and nothing elsewhere |
| RegTreeSpec.NewTree | router/regtree/tree.go:23-29 | a static node holding the key and value, without children, parameters or root |
| RegTreeSpec.ApartIsLCP | router/regtree/tree.go:80-87 | two keys are apart exactly when their common prefix is empty, which is when `Add` returns nil |
| RegTreeSpec.ApartPrefix | router/regtree/tree.go:80-87 | a key apart from another is apart from each non-empty prefix of it |
| RegTreeSpec.KeepsTrans | router/regtree/tree.go:78-137 | what `Add` keeps about the nodes is kept across several steps |
| RegTreeSpec.WfAfter | router/regtree/tree.go:78-137 | a grown arena is well formed when every new or changed node keeps its shape |
| RegTreeSpec.String | router/regtree/tree.go:240-246 | the full key ends with the node's own key |
| RegTreeSpec.Ancestry | router/regtree/tree.go:240-246 | the root chain ends at the node, starts at a node without root, and each node is the root of the next |
| RegTreeSpec.StringIsAncestry | router/regtree/tree.go:240-246 | `String` is the keys of the root chain from the top down, concatenated |
| RegTreeSpec.ReMatch | router/regtree/tree.go:70-74 | a regexp node that accepts the key gives one value per parameter |
| RegTreeSpec.GetFrom | router/regtree/tree.go:32-75 | a node found is in the tree with one value per parameter, and a static node found holds a value |
| RegTreeSpec.GetAmong | router/regtree/tree.go:50-56 | as `GetFrom`, for the loop over the static children |
| RegTreeSpec.ReAmong | router/regtree/tree.go:59-65 | a node found by the loop over the regexp children is one of them that accepts the key |
| RegTreeSpec.GetSound | router/regtree/tree.go:32-75 | whatever `Get` finds is justified by a walk down from the node: static keys consume the key in turn, and the walk ends at a static node with a value or a regexp node matching the rest |
| RegTreeSpec.GetAmongSound | router/regtree/tree.go:50-56 | as `GetSound`, for the loop over the static children |
| RegTreeSpec.GrewTrans | router/regtree/tree.go:78-137 | the guarantees of an `Add` step hold from any earlier arena that only grew by static nodes |
| RegTreeSpec.FindKey | router/regtree/tree.go:230-234 | the first regexp child with the key, or the count when none has it |
| RegTreeSpec.ReKey | router/regtree/tree.go:200 | the expression of a regexp node is the translation from the first parameter on |
| RegTreeSpec.AddChildSpec | router/regtree/tree.go:139-237 | `addChild` keeps the old nodes, only adds regexp nodes holding the value, keeps the tree well formed when no static child starts with the key's first byte, and never returns nil |
| RegTreeSpec.ReUnder | router/regtree/tree.go:212-220 | a static prefix node with its regexp child keeps the tree as `AddChildSpec` says and returns a node |
| RegTreeSpec.ReBeside | router/regtree/tree.go:228-236 | a regexp child added directly keeps the tree well formed and returns a node |
| RegTreeSpec.StaticBeside | router/regtree/tree.go:222-225 | a static child keeps the tree as `AddChildSpec` says and returns a node |
| RegTreeSpec.AddEqual | router/regtree/tree.go:91-98 | adding the node's own key keeps the tree well formed and returns the node itself |
| RegTreeSpec.AddPrefix | router/regtree/tree.go:113-124 | adding a proper prefix of the node's key keeps the tree well formed and returns the node itself |
| RegTreeSpec.Split | router/regtree/tree.go:126-135 | the split node keeps the common prefix and one static child holding the rest of its old key |
| RegTreeSpec.Tail | router/regtree/tree.go:115-130 | the node made for the rest of a split key is static, has the split node as root, completes the kept prefix to the old key, and takes the old value and children |
| RegTreeSpec.AddSplit | router/regtree/tree.go:126-136 | a partial common prefix keeps the tree well formed and returns a node |
| RegTreeSpec.AddSpec | router/regtree/tree.go:78-137 | `Add` keeps the tree well formed; it returns nil exactly when the keys share no prefix, and then changes nothing |
| RegTreeSpec.AddAmong | router/regtree/tree.go:103-107 | the loop over the static children returns nil exactly when every child is apart from the key, and then changes nothing |
| RegTreeSpec.AddSameKey | router/regtree/tree.go:89-99 | adding the node's own key: nil changes nothing, a value is stored when the node has none, and a second value panics with the full key |
| RegTreeSpec.AddShorterKey | router/regtree/tree.go:113-124 | adding a proper prefix: the node takes the key and value, and a new static node with the rest of the old key, the old value and children becomes its only child |
| RegTreeSpec.AddPartialKey | router/regtree/tree.go:126-136 | a partial common prefix: the node keeps the prefix and no value, a new node takes the rest with the old value and children, and the rest of the key goes to `addChild` |
| RegTreeSpec.AddLongerKey | router/regtree/tree.go:101-110 | a key that extends the node's key: the static children are offered the rest in order, and `addChild` takes it when none does |
| RegTreeSpec.AddChildStatic | router/regtree/tree.go:212-225 | a key without parameters becomes the last static child, holding the value with the key as its format |
| RegTreeSpec.AddChildPrefixed | router/regtree/tree.go:193-220 | a key with static bytes before its first parameter: a static node for those bytes gets a regexp child for the rest, holding the value, all parameters and the whole format |
| RegTreeSpec.AddChildDuplicate | router/regtree/tree.go:228-234 | a regexp child with the same expression makes `addChild` panic with that child's full key, changing nothing |
| RegTreeSpec.AddChildBadRule | router/regtree/tree.go:204-207 | an expression that does not compile panics with the compiler's message, changing nothing |
| RegTreeSpec.AddChildThenGet | router/regtree/tree.go:32-75 | a static key added by `addChild` is found by `Get` at the node's key followed by it |
| RegTreeSpec.GetAmongSkips | router/regtree/tree.go:50-56 | the loop of `Get` passes over static children that find nothing |
| RegTreeSpec.UnderNodes | router/regtree/tree.go:212-221 | the arena grows by the static node and its regexp child |
| RegTreeSpec.ReUnderKeeps | router/regtree/tree.go:212-221 | no node of the old arena changes kind or first byte, and the new regexp node carries the value |
| RegTreeSpec.ReUnderWf | router/regtree/tree.go:212-221 | when no static child starts like the key, the tree stays well formed |
| RegTree.Trees.constructor | router/regtree/tree.go:23-29 | no nodes yet |
| RegTree.Trees.NewTree | router/regtree/tree.go:23-29 | appends the node `RegTreeSpec.NewTree` describes and returns its index |
| RegTree.Trees.Get | router/regtree/tree.go:32-75 | the result is `RegTreeSpec.GetFrom` |
| RegTree.Trees.GetRegexp | router/regtree/tree.go:59-65 | the result is `RegTreeSpec.ReAmong` |
| RegTree.Trees.Add | router/regtree/tree.go:78-137 | the arena and result are `RegTreeSpec.AddSpec` of the old arena |
| RegTree.Trees.SetValue | router/regtree/tree.go:91-98 | the arena and result are `RegTreeSpec.AddEqual` of the old arena |
| RegTree.Trees.AddBelow | router/regtree/tree.go:101-110 | the arena and result are those of offering the rest to the children, then `addChild` |
| RegTree.Trees.SplitAdd | router/regtree/tree.go:113-136 | the arena and result are `AddPrefix` or `AddSplit` of the old arena |
| RegTree.Trees.AddChild | router/regtree/tree.go:139-237 | the arena and result are `RegTreeSpec.AddChildSpec` of the old arena |
| RegTree.Trees.AddAmongLoop | router/regtree/tree.go:103-107 | the arena and result are those of offering the key to the static children in order until one takes it |
| RegTree.Trees.AddUnder | router/regtree/tree.go:212-221 | the arena and result are `RegTreeSpec.ReUnder` of the old arena |
| RegTree.Trees.AddStatic | router/regtree/tree.go:212-225 | the arena and result are `RegTreeSpec.StaticBeside` of the old arena |
| RegTree.Trees.AddRegexp | router/regtree/tree.go:228-236 | a regexp child with the same expression makes it panic with that child's full key; otherwise the arena and result are `RegTreeSpec.ReBeside` of the old arena |
| RegTreeRoutes.Initial | router/regtree/router.go:35-42 | one tree per method |
| RegTreeRoutes.InitialReady | router/regtree/router.go:35-42 | a new router's trees are ready: a "/" root per method |
| RegTreeRoutes.ReadyAfter | router/regtree/router.go:163 | a step that stores handlers keeps the trees ready |
| RegTreeRoutes.Insert | router/regtree/router.go:128-166 | an unknown method, an empty pattern and one without a leading `/` panic with the router's messages and change nothing, the last two after the groups are applied; otherwise the route is `Tree.Add` of the joined pattern, with its handlers as the value, at its method's root; the trees stay ready |
| RegTreeRoutes.AddRoute | router/regtree/router.go:128-168 | the trees change as written, a panic happens exactly as written, and the node returned has the format and parameters of the whole route; corrected, see Findings row 2 |
| RegTreeRoutes.AddRouteAsWritten | router/regtree/router.go:128-168 | `add` as written: the trees change as in `AddRoute`, and the node returned carries the format and parameters of the tree node `Tree.Add` returned |
| RegTreeRoutes.RouteFormat | router/regtree/router.go:84-98 | the route node of a pattern without `%` has one verb per parameter and does not end in a lone `%` |
| RegTreeRoutes.AddAll | router/regtree/router.go:102-113 | the calls of `Add` keep the trees ready |
| RegTreeRoutes.AddAllOne | router/regtree/router.go:112 | the calls of `Add` reduced to one are that call |
| RegTreeRoutes.AddAllFirst | router/regtree/router.go:102-113 | the calls of `Add` make the first call and, unless it panicked, the rest |
| RegTreeRoutes.Run | router/regtree/router.go:116-125 | running a group body keeps the trees ready; without a panic the group stack is back as it was, after one the old stack is at its bottom |
| RegTreeRoutes.RunFirst | router/regtree/router.go:116-125 | running calls is running the first one and then, unless it panicked, the rest |
| RegTreeRoutes.MatchSound | router/regtree/router.go:72-81 | a match that finds handlers comes from a walk from the method's root to a node holding them, and binds that node's parameters to the submatches in order |
| RegTreeRoutes.AddThenMatch | router/regtree/router.go:72-81 | a static route added to a new router gets the node of the whole route and is found again by `Match`, binding nothing |
| RegTreeRoutes.AddToNewRoot | router/regtree/router.go:163 | a static route on a new router becomes a new static child of its method's root holding the handlers |
| RegTreeRoutes.MatchSpec | router/regtree/router.go:72-81 | `Match`: `Get` from the root of the method (an unknown method reads the GET root); nothing found gives nil and binds nothing, a node found gives its handlers and binds its parameters to the submatches, in order |
| RegTreeRoutes.RelativeFormat | router/regtree/router.go:167 | as written, the node returned for "/" + `s` has the format `s`, without its leading `/`; the corrected `add` gives "/" + `s` |
| RegTreeRoutes.NameOnNewPanics | router/regtree/router.go:171-176 | as written, naming a route of a new router writes to a nil map and panics |
| RegTreeRoutes.NameAsWritten | router/regtree/router.go:171-176 | `Name` as written on a map that may be nil: an empty name does nothing, any other is stored, and a nil map panics |
| RegTreeRoutes.AddAsWritten | router/regtree/router.go:102-113 | `Add` as written: the corrected calls, except that an empty pattern inside a group with the trailing-slash option indexes `pattern[-1]` and panics, after the HEAD copy when there is one |
| RegTreeRoutes.AddAllAsWritten | router/regtree/router.go:102-113 | the calls of `Add`, each made by `add` as written, keep the trees ready |
| RegTreeRoutes.AddAllAsWrittenTrees | router/regtree/router.go:128-168 | the calls as written change the trees exactly as the corrected calls do and panic exactly when they do |
| RegTreeRoutes.EmptyGroupRoutePanics | router/regtree/router.go:106-108 | as written, adding the empty route of a group with the trailing-slash option panics with the Go runtime message for the index -1 and leaves the trees as they were |
| RegTreeRoutes.AddTwo | router/regtree/router.go:106-112 | the two trailing-slash calls are the first call and then, unless it panicked, the second |
| RegTreeRouter.Router.constructor | router/regtree/router.go:35-42 | a "/" root per method, no groups, an empty map of names; corrected, see Findings row 1 |
| RegTreeRouter.Router.SetAutoHead | router/regtree/router.go:62-64 | sets the flag, nothing else changes |
| RegTreeRouter.Router.SetAutoTrailingSlash | router/regtree/router.go:67-69 | sets the flag, nothing else changes |
| RegTreeRouter.Router.Match | router/regtree/router.go:72-81 | returns the handlers `MatchSpec` finds and binds its parameters in the context in order; nothing else in the context changes |
| RegTreeRouter.Router.URLFor | router/regtree/router.go:84-98 | "" for an empty or unknown name or an empty format; otherwise the format padded with one verb per extra argument and filled, so extra arguments follow the filled format |
| RegTreeRouter.Router.Name | router/regtree/router.go:171-176 | an empty name changes nothing; otherwise the name maps to the node, replacing any earlier one |
| RegTreeRouter.Router.Register | router/regtree/router.go:128-168 | the trees and the result are `RegTreeRoutes.AddRoute` of the old state; corrected, see Findings row 2 |
| RegTreeRouter.Router.Add | router/regtree/router.go:102-113 | the trees and the result are those of the calls `Registrations` lists, in order until one panics; corrected, see Findings row 5 |
| RegTreeRouter.Router.AddVariants | router/regtree/router.go:106-112 | as `Add`, without the HEAD copy; corrected, see Findings row 5 |
| RegTreeRouter.Router.GroupAdd | router/regtree/router.go:116-125 | the trees are those of running the body with the group pushed; without a panic the group stack is restored |
| RegTreeRouter.Router.RunOne | router/regtree/router.go:116-125 | one call of a body does what `RegTreeRoutes.Run` says |
| RegTreeRouter.Router.RunBody | router/regtree/router.go:116-125 | the calls of a body do what `RegTreeRoutes.Run` says |
| RegTreeRouter.Router.AddPair | router/regtree/router.go:106-112 | the trees and the result are those of the call with the trailing slash and then, unless it panicked, the one without |
| RegTreeRouter.NamedStaticRoute | router/regtree/router.go:35-176 | on a new router, a static route added and named is rebuilt by `URLFor` as its own path and found again by `Match` |
| RegTreeRouter.PlainPrint | router/regtree/router.go:94-97 | a path without `%` and with no extra verb prints as itself |
| RegexpRoutes.Initial | router/regexp/regexp.go:40-49 | an empty, ready list per method |
| RegexpRoutes.ScanShape | router/regexp/regexp.go:179-219 | a translation has no parameters exactly when the text has no `:`, and then its expression and format are the text; it starts with the text's first byte when that is not `:` |
| RegexpRoutes.Build | router/regexp/regexp.go:179-226 | a route built is well formed and keeps the handlers; a pattern without `:` is its own expression and format; a route with parameters has an expression that compiles |
| RegexpRoutes.AddRoute | router/regexp/regexp.go:144-237 | a panic changes nothing; success appends the route to its method's list only; an unknown method, an empty pattern and one without a leading `/` (after the groups are applied) panic with their messages; the route added is the translation of the joined pattern |
| RegexpRoutes.DebugDistinct | router/regexp/regexp.go:227-234 | in debug mode the lists keep free of repeated routes other than "/"; debug mode rejects exactly the routes already taken, other than "/" |
| RegexpRoutes.FirstFit | router/regexp/regexp.go:79-97 | `Match` gives nothing exactly when no route fits; otherwise the first route that fits, with what it binds |
| RegexpRoutes.Fit | router/regexp/regexp.go:80-94 | a static route fits exactly its own pattern and binds nothing; a route with parameters that fits binds exactly its parameter names, in order |
| RegexpRoutes.MatchFrom | router/regexp/regexp.go:80-96 | a route found is one of the routes searched and fits the path with the bindings returned; nothing found binds nothing |
| RegexpRoutes.MatchSpec | router/regexp/regexp.go:79-97 | a route found is in the list of the method and fits the path with the bindings returned; nothing found binds nothing |
| RegexpRoutes.MatchAppend | router/regexp/regexp.go:79-97 | a route appended to a list takes exactly the paths no earlier route fits |
| RegexpRoutes.AddThenMatch | router/regexp/regexp.go:235 | after `add`, a path an older route fits still goes to it; a path none fits goes to the new route when it fits; a static route fits its own path |
| RegexpRoutes.NewAddThenMatch | router/regexp/regexp.go:79-97 | a static route added to a new router is found again at its own path, binding nothing |
| RegexpRoutes.AddAll | router/regexp/regexp.go:118-129 | the calls of `Add` keep the lists ready |
| RegexpRoutes.AddAllOne | router/regexp/regexp.go:128 | the calls of `Add` reduced to one are that call |
| RegexpRoutes.AddAllFirst | router/regexp/regexp.go:118-129 | the calls of `Add` make the first call and, unless it panicked, the rest |
| RegexpRoutes.AddAllAppends | router/regexp/regexp.go:235 | the calls of `Add` only append: every list keeps its old routes, in order, at its front |
| RegexpRoutes.Run | router/regexp/regexp.go:132-141 | running a group body keeps the lists ready; without a panic the group stack is back as it was, after one the old stack is at its bottom |
| RegexpRoutes.RunFirst | router/regexp/regexp.go:132-141 | running calls is running the first one and then, unless it panicked, the rest |
| RegexpRoutes.AddTwo | router/regexp/regexp.go:122-128 | the two trailing-slash calls are the first call and then, unless it panicked, the second |
| RegexpRoutes.AddAsWritten | router/regexp/regexp.go:118-129 | `Add` as written: the corrected calls, except that an empty pattern inside a group with the trailing-slash option indexes `pattern[-1]` and panics, after the HEAD copy when there is one |
| RegexpRoutes.EmptyGroupRoutePanics | router/regexp/regexp.go:122-124 | as written, adding the empty route of a group with the trailing-slash option panics with the Go runtime message for the index -1 and leaves the lists as they were |
| RegexpRouter.Router.constructor | router/regexp/regexp.go:40-49 | an empty list per method, no groups, an empty map of names |
| RegexpRouter.Router.SetAutoHead | router/regexp/regexp.go:69-71 | sets the flag, nothing else changes |
| RegexpRouter.Router.SetAutoTrailingSlash | router/regexp/regexp.go:74-76 | sets the flag, nothing else changes |
| RegexpRouter.Router.Match | router/regexp/regexp.go:79-97 | returns the route `MatchSpec` finds and binds its parameters in the context in order; nothing else in the context changes |
| RegexpRouter.Router.BindParams | router/regexp/regexp.go:91-93 | binds each name to the value at the same index, in order |
| RegexpRouter.Router.URLFor | router/regexp/regexp.go:100-114 | "" for an empty or unknown name or an empty format; otherwise the filled format followed by the extra arguments; a static route without `%` gives its path followed by the arguments |
| RegexpRouter.Router.Name | router/regexp/regexp.go:245-250 | an empty name changes nothing; otherwise the name maps to the route, replacing any earlier one |
| RegexpRouter.Router.Register | router/regexp/regexp.go:144-237 | the lists and the result are `RegexpRoutes.AddRoute` of the old state |
| RegexpRouter.Router.Add | router/regexp/regexp.go:118-129 | the lists and the result are those of the calls `Registrations` lists, in order until one panics; corrected, see Findings row 4 |
| RegexpRouter.Router.AddVariants | router/regexp/regexp.go:122-128 | as `Add`, without the HEAD copy; corrected, see Findings row 4 |
| RegexpRouter.Router.GroupAdd | router/regexp/regexp.go:132-141 | the lists are those of running the body with the group pushed; without a panic the group stack is restored |
| RegexpRouter.Router.RunOne | router/regexp/regexp.go:132-141 | one call of a body does what `RegexpRoutes.Run` says |
| RegexpRouter.Router.RunBody | router/regexp/regexp.go:132-141 | the calls of a body do what `RegexpRoutes.Run` says |
| RegexpRouter.Router.BuildEntry | router/regexp/regexp.go:179-226 | the entry built is the translation of the pattern `Build` describes, or its panic |
| RegexpRouter.Router.Seen | router/regexp/regexp.go:228-234 | the loop finds an entry with the same expression exactly when `Taken` says so |
| RegexpRouter.Router.AddPair | router/regexp/regexp.go:122-128 | the lists and the result are those of the call with the trailing slash and then, unless it panicked, the one without |
| RegexpStub.NewNode | router/regexp.go:50-58 | a node's first byte is its pattern's; an empty pattern panics with the Go runtime message for the index 0 of an empty string |
| RegexpStub.Reuter.constructor | router/regexp.go:39-47 | a "/" root with first byte `/` per method, no groups, no names |
| RegexpStub.Reuter.SetAutoHead | router/regexp.go:69-71 | sets the flag, nothing else changes |
| RegexpStub.Reuter.SetAutoTrailingSlash | router/regexp.go:74-76 | sets the flag, nothing else changes |
| RegexpStub.Reuter.Match | router/regexp.go:79-81 | always nil |
| RegexpStub.Reuter.URLFor | router/regexp.go:84-86 | always "" |
| RegexpStub.Reuter.Add | router/regexp.go:89-91 | always nil, and nothing is registered |
| RegexpStub.Reuter.GroupAdd | router/regexp.go:94-96 | changes nothing |
| RegexpStub.Reuter.Name | router/regexp.go:104-124 | an empty name changes nothing; otherwise the name maps to the format of the node's pattern, replacing any earlier one; a node without a router panics |
| Contexts.ParamsAgree | context.go:111-127 | `Params()` has exactly the bound names, each mapped to what `Param` returns for it |
| Contexts.LastValueUnbound | context.go:111-118 | a name never bound has the value "" |
| Contexts.LastValue | context.go:111-118 | a bound name gets the value at its last position in the lists |
| Contexts.ParamMap | context.go:121-127 | the keys of the map `Params` builds are exactly the bound names |
| Contexts.URL | context.go:527-562 | the URL is scheme, separator, host and tail, with the separator "://", ":" or nothing chosen by the host's first byte, and just the tail without a host |
| Contexts.Context.constructor | context.go:57-67 | the chain is the middlewares, the cursor at 0, nothing bound or stored, the response fresh with status 200 |
| Contexts.Context.Reset | context.go:70-78 | the response is reset, the parameters and the store cleared, the cursor at 0 and the chain cut back to the middlewares |
| Contexts.Context.Set | context.go:81-86 | the store is created on first use, the key maps to the value and `Get(key)` then returns it; every other field is unchanged |
| Contexts.Context.Get | context.go:89-94 | nil without a store or for a key never set; otherwise the stored value |
| Contexts.Context.Gets | context.go:97-102 | the store, created empty on first use; every other field is unchanged |
| Contexts.Context.SetParam | context.go:105-108 | the name and value are appended to the two lists, which keep the same length; every other field is unchanged |
| Contexts.Context.Param | context.go:111-118 | the value bound last to the name, or "" |
| Contexts.Context.Params | context.go:121-127 | the map of every bound name to its last value |
| Contexts.Context.Next | context.go:600-613 | nothing runs once the chain is exhausted or the response written; otherwise the cursor moves up by one and the handler at the old cursor runs; the request, the response, the store, the chain and the parameters are unchanged |
| Contexts.Context.Break | context.go:616-618 | the cursor moves past the end, so every later `Next` runs nothing; every other field is unchanged |
| Responses.Response.constructor | response.go:21-27 | nothing written, size 0 |
| Responses.Response.WriteHeader | response.go:58-66 | the first call latches and forwards the code; every later call only logs and changes nothing |
| Responses.Response.Write | response.go:44-51 | writes the implicit 200 header first when none was written, and adds the reported count to the size, which never decreases |
| Responses.Response.Reset | response.go:92-98 | nothing written, size 0, status 200 |
| Responses.Response.Status | response.go:101-103 | the status held |
| Responses.Response.Size | response.go:106-108 | the number of body bytes written |
| Responses.Response.Wrote | response.go:111-113 | whether the header was written |
| Injection.DI.constructor | di.go:9-13 | an empty store |
| Injection.DI.Get | di.go:24-29 | nil for the empty name and a name never set; otherwise the stored value |
| Injection.DI.Set | di.go:16-21 | the empty name is ignored; otherwise `Get` of the name returns the value, and every other name keeps its value |
| Application.UseAllKeepsFirst | baa.go:207-213 | `Use` keeps the middlewares in the order given until there are 21 and drops every later one |
| Application.UseBound | baa.go:207-213 | a list filled through `Use` never holds more than 21 middlewares, and up to 21 are all kept |
| Application.UseSpec | baa.go:207-213 | `Use` only appends at the end of the list, and grows it by one exactly when it holds at most 20 middlewares |
| Application.UseAll | baa.go:207-213 | repeated `Use` only appends at the end, and from a list of at most 21 never goes past 21 |
| Application.HTTPError.constructor | baa.go:303-310 | the message is the first one given, else the status text of the code |
| Application.HTTPError.SetCode | baa.go:313-315 | a new code, the same message |
| Application.HTTPError.Code | baa.go:318-320 | the code held |
| Application.HTTPError.Error | baa.go:323-325 | the message held |
| Application.Baa.constructor | baa.go:81-91 | no middleware, not in debug mode |
| Application.Baa.SetDebug | baa.go:158-160 | sets the flag, nothing else changes |
| Application.Baa.SetAutoHead | baa.go:227-229 | sets the flag, nothing else changes |
| Application.Baa.Use | baa.go:207-213 | appends the middleware unless more than 20 are held, in which case it logs a warning and keeps the list |
| Application.Baa.Get | baa.go:249-255 | registers the route under GET and, when `autoHead` is set, under HEAD with the same handlers |
| Application.Baa.DefaultErrorHandler | baa.go:193-204 | an `HTTPError` gives its code and message; any other error gives 500 and its status text; in debug mode the message is the error's own text |

## Left out

- Locking with `sync.RWMutex` in every `add`: the model is sequential.
- `WrapHandlerFunc` is not part of this model. It is taken as the identity on handlers.
- The pointer from a route node to its router (`root`) is not stored. Only `Name` uses it.
- The `baa` field of the routers, and the application's logger except for the lines modelled (`Use`, `WriteHeader`, `Next`).
- `regexp.Compile` and `FindStringSubmatch` are parameters (`Patterns.Engine`); the model does not say which strings an expression matches.
- `fmt.Sprintf` is modelled for the `%v` verb only. `%%` and other verbs are not interpreted.
- `http.StatusText` is a parameter.
- Go strings are sequences of characters standing for bytes; there is no UTF-8.
- `Run`, `RunTLS`, `Server`, `ServeHTTP` and the rest of the server plumbing of baa.go.
- The `Query*`, `Post*`, cookie, rendering, redirect and conversion helpers of context.go.
- `Flush`, `Hijack` and `CloseNotify` of response.go: they assert the type of a foreign writer.
- `Application.Baa.DefaultErrorHandler`: returns the status code and message; the write through `http.Error` is not modelled.
- `Application.Baa.Get`: records the `add` calls made. The router behind `b.router` and the returned `*Route` are not modelled here; the routers are modelled on their own.
- `Application.Baa.constructor`: keeps only the fields of `New()` listed above. Name, DI, router, renderer, logger and pool are not part of this model.
- `RegexpRouter.Router.constructor`: the debug flag is fixed when the router is made. Go reads `b.Debug()` on every `add`.
- `RegexpRoutes.FirstFit`: matching is stated through `Fit`, which depends on the engine. Like the source, it searches the expression in the whole path and does not check that the whole match is the path.
- `RadixMatch.MatchSound`: proves that every match is justified by a walk that spells the path. The converse, that every registered route is found, is proved for the radix tree on a method tree that was new: for a static route, for a route with one parameter, for a static route added twice (`RadixComplete`), and for two static routes sharing more than "/" that make `insert` reparent or split (`RadixTwoRoutes`). For any number of routes it is not proved. `RadixSplits.ReparentKeeps` and `RadixSplits.SplitKeeps` show that each splice keeps every route the parent matched, but only under hypotheses `Wf` does not carry: an acyclic arena, one parent per leaf and distinct first bytes among static siblings. No invariant proving that `add` keeps these true is given, so the step from one splice to a whole sequence of `add`s is not made. For the other routers completeness is proved for static routes on a new router (`RegTreeRoutes.AddThenMatch`, `RegexpRoutes.NewAddThenMatch`).
- `RadixSpec.Reparent`: its own contract states only the shape (well formed, result). That the reparenting keeps every route is stated by `RadixSplits.ReparentKeeps`, under the hypotheses listed for `RadixMatch.MatchSound`.
- `RadixSpec.Split`: its own contract states only the shape (well formed, one more leaf, result). That the split keeps every route is stated by `RadixSplits.SplitKeeps`, under the hypotheses listed for `RadixMatch.MatchSound`.
- `RegTreeSpec.AddChildSpec`: the tree is proved to stay well formed only when no static child already starts with the key's first byte. That is the only way `Add` calls it.
- `RegTreeRoutes.AddThenMatch`: proved for a static route added to a new router. A general add-then-match needs an acyclic arena invariant, which is not modelled.
- `Handlers()` of router/regexp/regexp.go and router/regexp.go: the handlers are the `handlers` field of the route.
- `Fmt.Sprintf`: the `%!v(MISSING)` case is defined but no lemma is stated about it.
- `Responses.Response.Write`: the count the underlying writer reports is a parameter, and the error it returns is dropped; the model cannot say what happens when that write fails.
- `SetWriter` and `GetWriter` of response.go: the second writer field they touch is not modelled, so the model has one writer where Go may hold two after `SetWriter`.
- `Contexts.Context.Next`: returns the handler to run instead of calling it. The handlers are opaque values, so the model cannot run them or the calls to `Next` they make.

## Findings

| source | as written | input that shows it | evidently intended | confidence | as-written member | corrected member |
|---|---|---|---|---|---|---|
| router/regtree/router.go:35-42 | `New` never makes the map of route names, so `Node.Name` with a non-empty name writes to a nil map | `New(b)`, then `Add("GET", "/a", h).Name("a")` | `New` makes an empty map, as the other routers do, so `Name` records the route | not executed | RegTreeRoutes.NameOnNewPanics | RegTreeRouter.Router.constructor |
| router/regtree/router.go:163-167 | `add` returns a node built from the tree node `Tree.Add` returned, whose format covers only that node's own key | `Add("GET", "/ab", h).Name("n")` then `URLFor("n")` gives "ab", on a new router whose map of names exists (row 1 corrected first, since `Name` otherwise panics) | the node carries the format and parameters of the whole route, so `URLFor` rebuilds "/ab" | not executed | RegTreeRoutes.RelativeFormat | RegTreeRouter.NamedStaticRoute |
| tree.go:163-166 | `Add` with the trailing-slash option reads `pattern[len(pattern)-1]` even when the pattern is empty, which it may be inside a group | `SetAutoTrailingSlash(true)`, then `GroupAdd("/g", f)` where `f` calls `Add("POST", "", h)` | the empty route of a group is registered as the group prefix with and without "/" | not executed | RadixRoutes.EmptyGroupRoutePanics | Groups.EmptyGroupRouteRegistered |
| router/regexp/regexp.go:122-124 | `Add` with the trailing-slash option reads `pattern[len(pattern)-1]` even when the pattern is empty, which it may be inside a group | `SetAutoTrailingSlash(true)`, then `GroupAdd("/g", f)` where `f` calls `Add("POST", "", h)` | the empty route of a group is registered as the group prefix with and without "/" | not executed | RegexpRoutes.EmptyGroupRoutePanics | Groups.EmptyGroupRouteRegistered |
| router/regtree/router.go:106-108 | the same read of `pattern[len(pattern)-1]` on an empty pattern inside a group | `SetAutoTrailingSlash(true)`, then `GroupAdd("/g", f)` where `f` calls `Add("POST", "", h)` | the empty route of a group is registered as the group prefix with and without "/" | not executed | RegTreeRoutes.EmptyGroupRoutePanics | Groups.EmptyGroupRouteRegistered |
