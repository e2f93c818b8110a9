/** The translation of route patterns into regular-expression text that the
    two regexp-based routers share: router/regexp/regexp.go (`add`) and
    router/regtree/tree.go (`addChild`). A parameter is `:name`, where the
    name is a run of parameter characters, optionally followed by a rule in
    parentheses; it becomes one capturing group in the expression, one `%v`
    in the URL format and one entry of the parameter list. The regtree
    router also turns `*` into a catch-all parameter with an empty name. */
module Patterns {
  import opened Common
  import opened Router
  import opened Fmt

  /** Go's regexp package as parameters: `compile(src)` is the error
      `regexp.Compile(src)` reports, if any, and `find(src, s)` is
      `FindStringSubmatch(s)` of the expression compiled from `src` (the
      whole match, then one entry per group; empty for no match). */
  datatype Engine = Engine(compile: string -> Option<string>, find: (string, string) -> seq<string>)

  /** The length of the leading run of parameter characters of `s`. */
  function ParamRun(s: string): (n: nat)
    ensures n <= |s|
    ensures forall k :: 0 <= k < n ==> IsParamChar(s[k])
    ensures n < |s| ==> !IsParamChar(s[n])
  {
    if s == "" || !IsParamChar(s[0]) then 0 else 1 + ParamRun(s[1..])
  }

  /** The capturing group for a rule: any bytes but `/` when there is no
      rule, digits for `int`, word characters for `string`, otherwise the
      rule itself in parentheses. */
  function RuleText(rule: string): (t: string)
    ensures |t| >= 2 && t[0] == '(' && t[|t| - 1] == ')'
    ensures rule != "" && rule != "int" && rule != "string" ==> t == "(" + rule + ")"
  {
    if rule == "" then "([^\\/]+)"
    else if rule == "int" then "([\\d]+)"
    else if rule == "string" then "([\\w]+)"
    else "(" + rule + ")"
  }

  /** A parameter written in a pattern: its name, its rule ("" for none)
      and the index where the scan resumes after it. */
  datatype ParamSpec = ParamSpec(name: string, rule: string, next: nat)

  /** The index right after the name of the parameter whose `:` is at `i`. */
  function NameEnd(p: string, i: nat): (j: nat)
    requires i < |p|
    ensures i < j <= |p|
  {
    i + 1 + ParamRun(p[i + 1..])
  }

  /** The index of the `)` closing the rule whose `(` is at `j`, or the
      length when there is none. */
  function RuleEnd(p: string, j: nat): (k: nat)
    requires j < |p|
    ensures j < k <= |p|
  {
    j + 1 + RunUntil(p[j + 1..], ')')
  }

  /** The parameter whose `:` is at index `i`: the name is the run of
      parameter characters after the `:`; a `(` right after the name opens
      a rule that runs to the next `)` (or to the end when there is none);
      the scan resumes after the `)`, or right after the name. */
  function SpecAt(p: string, i: nat): (s: ParamSpec)
    requires i < |p|
    ensures i < s.next <= |p|
    ensures s.name == "" <==> i + 1 == |p| || !IsParamChar(p[i + 1])
  {
    var j := NameEnd(p, i);
    ParamSpec(p[i + 1..j], RuleOf(p, j), NextOf(p, j))
  }

  /** `p[j]` opens a rule. */
  predicate OpensRule(p: string, j: nat)
  {
    j < |p| && p[j] == '('
  }

  /** The rule of a parameter whose name ends at `j`: the bytes after the
      `(` up to the `)`, or "" when no `(` follows the name. */
  function RuleOf(p: string, j: nat): string
    requires j <= |p|
  {
    if OpensRule(p, j) then p[j + 1..RuleEnd(p, j)] else ""
  }

  /** Where the scan resumes after a parameter whose name ends at `j`:
      after the `)` of its rule (the end when the rule is not closed), or
      at `j` when there is no rule. */
  function NextOf(p: string, j: nat): (n: nat)
    requires j <= |p|
    ensures j <= n <= |p|
  {
    if OpensRule(p, j) then
      var k := RuleEnd(p, j);
      if k < |p| then k + 1 else |p|
    else j
  }

  /** The three outputs of a translation, built side by side. */
  datatype Translation = Translation(regex: string, format: string, params: seq<string>)

  /** Two translations one after the other. */
  function Concat(a: Translation, b: Translation): Translation
  {
    Translation(a.regex + b.regex, a.format + b.format, a.params + b.params)
  }

  /** `Concat` in front of a result that may be a panic. */
  function Glue(a: Translation, r: Result<Translation>): Result<Translation>
  {
    if r.Ok? then Ok(Concat(a, r.value)) else r
  }

  /** The translation of one byte that starts no parameter. */
  function Byte(c: char): Translation
  {
    Translation([c], [c], [])
  }

  /** The translation of one parameter. */
  function Param(s: ParamSpec): Translation
  {
    Translation(RuleText(s.rule), "%v", [s.name])
  }

  /** The panic of `add` in router/regexp/regexp.go for a `:` without a name. */
  const EmptyParamName := "Router.add: pattern param is empty"

  /** The panic of `add`, in both regexp routers, for a method outside
      `RouterMethods`. */
  function Unsupported(verb: string): string
  {
    "Router.add: unsupport http method [" + verb + "]"
  }

  /** The panics of `add`, in both regexp routers, for an empty pattern and
      for one that does not start with `/`, once the groups are applied. */
  const EmptyPattern := "Router.add: pattern can not be emtpy!"
  const NoLeadingSlash := "Router.add: pattern must begin /"

  /** The loop of `add` in router/regexp/regexp.go (lines 183-218) from
      index `i`: each `:name(rule)` becomes its group, `%v` and name; every
      other byte is copied to the expression and the format; a `:` that no
      parameter character follows panics. Every parameter found has a
      name, no `:` is left in the format, and the only panic is the one
      for a `:` without a name. */
  function RegexpScan(p: string, i: nat): (r: Result<Translation>)
    requires i <= |p|
    ensures r.Ok? ==> ':' !in r.value.format && forall k :: 0 <= k < |r.value.params| ==> r.value.params[k] != ""
    ensures r.Panic? ==> r.msg == EmptyParamName
    decreases |p| - i
  {
    if i == |p| then Ok(Translation("", "", []))
    else if p[i] == ':' then
      var s := SpecAt(p, i);
      if s.name == "" then Panic(EmptyParamName)
      else Glue(Param(s), RegexpScan(p, s.next))
    else Glue(Byte(p[i]), RegexpScan(p, i + 1))
  }

  /** The loop of `addChild` in router/regtree/tree.go (lines 145-191) from
      index `i`: as `RegexpScan`, except that a `:` without a name gives a
      parameter with the empty name instead of a panic, and `*` gives the
      catch-all group with the empty name. Neither `:` nor `*` is left in
      the format. */
  function TreeScan(p: string, i: nat): (t: Translation)
    requires i <= |p|
    ensures ':' !in t.format && '*' !in t.format
    decreases |p| - i
  {
    if i == |p| then Translation("", "", [])
    else if p[i] == '*' then Concat(Translation("(.*)", "%v", [""]), TreeScan(p, i + 1))
    else if p[i] == ':' then
      var s := SpecAt(p, i);
      Concat(Param(s), TreeScan(p, s.next))
    else Concat(Byte(p[i]), TreeScan(p, i + 1))
  }

  /** `c` starts a parameter in a regtree key. */
  predicate Special(c: char)
  {
    c == '*' || c == ':'
  }

  /** The index of the first `*` or `:` of `p` at or after `i`, or the length. */
  function FirstSpecial(p: string, i: nat): (f: nat)
    requires i <= |p|
    ensures i <= f <= |p|
    ensures forall k :: i <= k < f ==> !Special(p[k])
    ensures f < |p| ==> Special(p[f])
    decreases |p| - i
  {
    if i == |p| || Special(p[i]) then i else FirstSpecial(p, i + 1)
  }

  /** The static prefix `addChild` splits off a key: the bytes before the
      first parameter, when there is one and it does not start the key. */
  function StaticKey(p: string): (k: string)
    ensures IsPrefix(k, p)
    ensures k != "" ==> |k| == FirstSpecial(p, 0) < |p|
  {
    var f := FirstSpecial(p, 0);
    if 0 < f < |p| then p[..f] else ""
  }

  // ---- Properties of the translations ----

  /** Bytes without parameters translate to themselves. */
  lemma {:induction false} RegexpScanStatic(p: string, i: nat)
    requires i <= |p| && forall k :: i <= k < |p| ==> p[k] != ':'
    ensures RegexpScan(p, i) == Ok(Translation(p[i..], p[i..], []))
    decreases |p| - i
  {
    if i < |p| {
      RegexpScanStatic(p, i + 1);
      assert p[i..] == [p[i]] + p[i + 1..];
      assert Concat(Byte(p[i]), Translation(p[i + 1..], p[i + 1..], [])) == Translation(p[i..], p[i..], []);
    }
  }

  /** A run of bytes without `:` is copied in front of the translation of
      what follows it. */
  lemma {:induction false} RegexpScanRun(p: string, i: nat, j: nat)
    requires i <= j <= |p| && forall k :: i <= k < j ==> p[k] != ':'
    ensures RegexpScan(p, i) == Glue(Translation(p[i..j], p[i..j], []), RegexpScan(p, j))
    decreases j - i
  {
    if i < j {
      RegexpScanRun(p, i + 1, j);
      GlueAssoc(Byte(p[i]), Translation(p[i + 1..j], p[i + 1..j], []), RegexpScan(p, j));
      assert p[i..j] == [p[i]] + p[i + 1..j];
      assert Concat(Byte(p[i]), Translation(p[i + 1..j], p[i + 1..j], [])) == Translation(p[i..j], p[i..j], []);
    } else {
      assert p[i..j] == "";
      EmptyConcat(RegexpScan(p, j));
    }
  }

  /** A pattern without `:` has no parameters: the expression and the format
      are the pattern itself (router/regexp/regexp.go leaves `hasParam`
      false and compiles nothing). */
  lemma NoParams(p: string)
    requires ':' !in p
    ensures RegexpScan(p, 0) == Ok(Translation(p, p, []))
  {
    RegexpScanStatic(p, 0);
  }

  /** The regexp router panics exactly at a `:` that no parameter
      character follows, when every `:` before it had a name. */
  lemma RegexpScanEmptyName(p: string, i: nat)
    requires i < |p| && p[i] == ':' && (i + 1 == |p| || !IsParamChar(p[i + 1]))
    ensures RegexpScan(p, i) == Panic(EmptyParamName)
  {
    assert SpecAt(p, i).name == "";
  }

  /** Without a `:` or `*`, the regtree translation copies the key. */
  lemma {:induction false} TreeScanStatic(p: string, i: nat)
    requires i <= |p| && forall k :: i <= k < |p| ==> !Special(p[k])
    ensures TreeScan(p, i) == Translation(p[i..], p[i..], [])
    decreases |p| - i
  {
    if i < |p| {
      TreeScanStatic(p, i + 1);
      assert p[i..] == [p[i]] + p[i + 1..];
      assert Concat(Byte(p[i]), Translation(p[i + 1..], p[i + 1..], [])) == Translation(p[i..], p[i..], []);
    }
  }

  /** The regtree translation of a key is the bytes before its first
      parameter followed by the translation from that parameter on; this
      is the expression `addChild` keeps after splitting off `StaticKey`. */
  lemma {:induction false} TreeScanSplit(p: string, i: nat)
    requires i <= |p|
    ensures var f := FirstSpecial(p, i);
            TreeScan(p, i) == Concat(Translation(p[i..f], p[i..f], []), TreeScan(p, f))
    decreases |p| - i
  {
    var f := FirstSpecial(p, i);
    if i < |p| && !Special(p[i]) {
      TreeScanSplit(p, i + 1);
      var head := Translation(p[i + 1..f], p[i + 1..f], []);
      ConcatAssoc(Byte(p[i]), head, TreeScan(p, f));
      assert p[i..f] == [p[i]] + p[i + 1..f];
      assert Concat(Byte(p[i]), head) == Translation(p[i..f], p[i..f], []);
    } else {
      assert p[i..f] == "";
      EmptyConcat(Ok(TreeScan(p, i)));
    }
  }

  /** Each parameter contributes one `%v` to the format: a pattern without
      `%` yields a format with exactly as many verbs as parameters, which
      does not end in a lone `%`. */
  lemma {:induction false} RegexpVerbs(p: string, i: nat)
    requires i <= |p| && forall k :: i <= k < |p| ==> p[k] != '%'
    requires RegexpScan(p, i).Ok?
    ensures var t := RegexpScan(p, i).value;
            Verbs(t.format) == |t.params| && (t.format == "" || t.format[|t.format| - 1] != '%')
    decreases |p| - i
  {
    if i < |p| {
      if p[i] == ':' {
        var s := SpecAt(p, i);
        var u := RegexpScan(p, s.next);
        assert RegexpScan(p, i) == Glue(Param(s), u);
        RegexpVerbs(p, s.next);
        VerbFront(u.value.format);
      } else {
        var u := RegexpScan(p, i + 1);
        assert RegexpScan(p, i) == Glue(Byte(p[i]), u);
        RegexpVerbs(p, i + 1);
        ByteFront(p[i], u.value.format);
      }
    }
  }

  /** As `RegexpVerbs`, for the regtree translation. */
  lemma {:induction false} TreeVerbs(p: string, i: nat)
    requires i <= |p| && forall k :: i <= k < |p| ==> p[k] != '%'
    ensures var t := TreeScan(p, i);
            Verbs(t.format) == |t.params| && (t.format == "" || t.format[|t.format| - 1] != '%')
    decreases |p| - i
  {
    if i < |p| {
      if p[i] == '*' {
        TreeVerbs(p, i + 1);
        VerbFront(TreeScan(p, i + 1).format);
      } else if p[i] == ':' {
        var next := SpecAt(p, i).next;
        TreeVerbs(p, next);
        VerbFront(TreeScan(p, next).format);
      } else {
        TreeVerbs(p, i + 1);
        ByteFront(p[i], TreeScan(p, i + 1).format);
      }
    }
  }

  /** A verb in front of a format adds one verb and keeps its last byte
      clear of `%`. */
  lemma VerbFront(u: string)
    requires u == "" || u[|u| - 1] != '%'
    ensures Verbs("%v" + u) == Verbs(u) + 1
    ensures var f := "%v" + u; f[|f| - 1] != '%'
  {
    var f := "%v" + u;
    assert AtVerb(f) && f[2..] == u;
    assert f[|f| - 1] == if u == "" then 'v' else u[|u| - 1];
  }

  /** A byte other than `%` in front of a format adds no verb and keeps its
      last byte clear of `%`. */
  lemma ByteFront(c: char, u: string)
    requires c != '%' && (u == "" || u[|u| - 1] != '%')
    ensures Verbs([c] + u) == Verbs(u)
    ensures var f := [c] + u; f[|f| - 1] != '%'
  {
    var f := [c] + u;
    assert !AtVerb(f) && f[1..] == u;
    assert f[|f| - 1] == if u == "" then c else u[|u| - 1];
  }

  // ---- The loops ----

  /** The scan over a parameter (router/regexp/regexp.go lines 186-200,
      router/regtree/tree.go lines 159-174): the name run, then the rule up
      to `)`. */
  method ScanSpec(p: string, i: nat) returns (s: ParamSpec)
    requires i < |p|
    ensures s == SpecAt(p, i)
  {
    var j := ScanName(p, i);
    var rule := "";
    var next := j;
    if j < |p| && p[j] == '(' {
      var k := ScanRule(p, j);
      rule := p[j + 1..k];
      next := if k < |p| then k + 1 else |p|;
    }
    return ParamSpec(p[i + 1..j], rule, next);
  }

  /** The loop over the name of the parameter whose `:` is at `i`. */
  method ScanName(p: string, i: nat) returns (j: nat)
    requires i < |p|
    ensures j == NameEnd(p, i)
  {
    j := i + 1;
    while j < |p| && IsParamChar(p[j])
      invariant i + 1 <= j <= |p|
      invariant forall k :: i + 1 <= k < j ==> IsParamChar(p[k])
    {
      j := j + 1;
    }
    RunIs(p, i + 1, j);
  }

  /** The loop over the rule whose `(` is at `j`. */
  method ScanRule(p: string, j: nat) returns (k: nat)
    requires j < |p|
    ensures k == RuleEnd(p, j)
  {
    k := j + 1;
    while k < |p| && p[k] != ')'
      invariant j + 1 <= k <= |p|
      invariant forall q :: j + 1 <= q < k ==> p[q] != ')'
    {
      k := k + 1;
    }
    RuleIs(p, j + 1, k);
  }

  /** `ParamRun` from index `from` of `p` stops at the first byte that is
      not a parameter character, or at the end. */
  lemma {:induction false} RunIs(p: string, from: nat, j: nat)
    requires from <= j <= |p| && (forall k :: from <= k < j ==> IsParamChar(p[k]))
    requires j == |p| || !IsParamChar(p[j])
    ensures ParamRun(p[from..]) == j - from
    decreases j - from
  {
    if from < j {
      assert p[from..][1..] == p[from + 1..];
      RunIs(p, from + 1, j);
    } else if j < |p| {
      assert p[from..][0] == p[j];
    }
  }

  /** The rule run from index `from` of `p` stops at the first `)`, or at
      the end. */
  lemma {:induction false} RuleIs(p: string, from: nat, j: nat)
    requires from <= j <= |p| && (forall k :: from <= k < j ==> p[k] != ')')
    requires j == |p| || p[j] == ')'
    ensures RunUntil(p[from..], ')') == j - from
    decreases j - from
  {
    if from < j {
      assert p[from..][1..] == p[from + 1..];
      RuleIs(p, from + 1, j);
    } else if j < |p| {
      assert p[from..][0] == p[j];
    }
  }

  /** The loop of `add` in router/regexp/regexp.go (lines 179-218). */
  method ScanRegexp(p: string) returns (r: Result<Translation>)
    ensures r == RegexpScan(p, 0)
  {
    var acc := Translation("", "", []);
    EmptyConcat(RegexpScan(p, 0));
    var i := 0;
    while i < |p|
      invariant 0 <= i <= |p|
      invariant Glue(acc, RegexpScan(p, i)) == RegexpScan(p, 0)
      decreases |p| - i
    {
      if p[i] == ':' {
        var s := ScanSpec(p, i);
        if s.name == "" {
          return Panic(EmptyParamName);
        }
        GlueAssoc(acc, Param(s), RegexpScan(p, s.next));
        acc := Concat(acc, Param(s));
        i := s.next;
      } else {
        GlueAssoc(acc, Byte(p[i]), RegexpScan(p, i + 1));
        acc := Concat(acc, Byte(p[i]));
        i := i + 1;
      }
    }
    assert Concat(acc, Translation("", "", [])) == acc;
    return Ok(acc);
  }

  /** The loop of `addChild` in router/regtree/tree.go (lines 145-191),
      which also records the static prefix: the bytes before the first
      parameter, taken when that parameter is reached. */
  method ScanTree(p: string) returns (t: Translation, sk: string)
    ensures t == TreeScan(p, 0)
    ensures sk == StaticKey(p)
  {
    t := Translation("", "", []);
    sk := "";
    EmptyConcat(Ok(TreeScan(p, 0)));
    var i := 0;
    while i < |p|
      invariant i <= |p| && Scanned(p, i, t, sk)
      decreases |p| - i
    {
      var piece, next := TreePiece(p, i);
      var sk' := sk;
      if (p[i] == '*' || p[i] == ':') && |sk| == 0 && |t.params| == 0 && i > 0 {
        sk' := p[..i];
      }
      ScannedStep(p, i, t, sk, piece, next, sk');
      t, sk, i := Concat(t, piece), sk', next;
    }
    assert Concat(t, Translation("", "", [])) == t;
  }

  /** The invariant of `ScanTree` after the first `i` bytes: `t` and the
      translation of the rest make the whole; before the first parameter
      `t` is the bytes read and no static prefix is taken yet, after it the
      static prefix is final. */
  ghost predicate Scanned(p: string, i: nat, t: Translation, sk: string)
    requires i <= |p|
  {
    var f := FirstSpecial(p, 0);
    && Concat(t, TreeScan(p, i)) == TreeScan(p, 0)
    && (i <= f ==> t == Translation(p[..i], p[..i], []) && sk == "")
    && (i > f ==> t.params != [] && sk == StaticKey(p))
  }

  /** One turn of `ScanTree` keeps its invariant. */
  lemma ScannedStep(p: string, i: nat, t: Translation, sk: string, piece: Translation, next: nat, sk': string)
    requires i < next <= |p| && Scanned(p, i, t, sk)
    requires Concat(piece, TreeScan(p, next)) == TreeScan(p, i)
    requires Special(p[i]) ==> piece.params != []
    requires !Special(p[i]) ==> piece == Byte(p[i]) && next == i + 1
    requires sk' == if Special(p[i]) && sk == "" && t.params == [] && i > 0 then p[..i] else sk
    ensures Scanned(p, next, Concat(t, piece), sk')
  {
    ConcatAssoc(t, piece, TreeScan(p, next));
    if Special(p[i]) {
      ParamStepKeeps(p, i, t, sk, piece, next, sk');
    } else {
      ByteStepKeeps(p, i, t, sk, sk');
    }
  }

  /** `ScannedStep` for a byte that starts no parameter: the static part
      grows by the byte while no parameter was met. */
  lemma ByteStepKeeps(p: string, i: nat, t: Translation, sk: string, sk': string)
    requires i < |p| && !Special(p[i]) && sk' == sk
    requires var f := FirstSpecial(p, 0);
             && (i <= f ==> t == Translation(p[..i], p[..i], []) && sk == "")
             && (i > f ==> t.params != [] && sk == StaticKey(p))
    ensures var f := FirstSpecial(p, 0);
            && (i + 1 <= f ==> Concat(t, Byte(p[i])) == Translation(p[..i + 1], p[..i + 1], []) && sk' == "")
            && (i + 1 > f ==> Concat(t, Byte(p[i])).params != [] && sk' == StaticKey(p))
  {
    var f := FirstSpecial(p, 0);
    if i < f {
      assert p[..i + 1] == p[..i] + [p[i]];
    } else {
      assert i != f;
    }
  }

  /** `ScannedStep` for a parameter: it ends the static part, which is the
      static key when it is the first parameter. */
  lemma ParamStepKeeps(p: string, i: nat, t: Translation, sk: string, piece: Translation, next: nat, sk': string)
    requires i < next <= |p| && Special(p[i]) && Scanned(p, i, t, sk) && piece.params != []
    requires sk' == if sk == "" && t.params == [] && i > 0 then p[..i] else sk
    ensures next > FirstSpecial(p, 0)
    ensures Concat(t, piece).params != [] && sk' == StaticKey(p)
  {
    var f := FirstSpecial(p, 0);
    assert f <= i;
  }

  /** One turn of the loop of `addChild`: the translation of the `*`, the
      parameter or the byte at `i`, and where the scan goes on. */
  method TreePiece(p: string, i: nat) returns (piece: Translation, next: nat)
    requires i < |p|
    ensures i < next <= |p|
    ensures Concat(piece, TreeScan(p, next)) == TreeScan(p, i)
    ensures Special(p[i]) ==> piece.params != []
    ensures !Special(p[i]) ==> piece == Byte(p[i]) && next == i + 1
  {
    if p[i] == '*' {
      piece := Translation("(.*)", "%v", [""]);
      next := i + 1;
    } else if p[i] == ':' {
      var s := ScanSpec(p, i);
      piece := Param(s);
      next := s.next;
    } else {
      piece := Byte(p[i]);
      next := i + 1;
    }
  }

  /** The empty translation is neutral. */
  lemma EmptyConcat(r: Result<Translation>)
    ensures Glue(Translation("", "", []), r) == r
    ensures r.Ok? ==> Concat(Translation("", "", []), r.value) == r.value
  {
    if r.Ok? {
      var t := r.value;
      assert "" + t.regex == t.regex && "" + t.format == t.format && [] + t.params == t.params;
    }
  }

  /** `Concat` is associative. */
  lemma ConcatAssoc(a: Translation, b: Translation, c: Translation)
    ensures Concat(Concat(a, b), c) == Concat(a, Concat(b, c))
  {
    assert (a.regex + b.regex) + c.regex == a.regex + (b.regex + c.regex);
    assert (a.format + b.format) + c.format == a.format + (b.format + c.format);
    assert (a.params + b.params) + c.params == a.params + (b.params + c.params);
  }

  /** `Glue` after `Concat` is `Glue` of the two. */
  lemma GlueAssoc(a: Translation, b: Translation, r: Result<Translation>)
    ensures Glue(Concat(a, b), r) == Glue(a, Glue(b, r))
  {
    if r.Ok? {
      ConcatAssoc(a, b, r.value);
    }
  }

  /** The name of the parameter whose `:` is at `i` is `name` when `name`
      follows the `:` and no parameter character follows `name`. */
  lemma NameIs(p: string, i: nat, name: string)
    requires i < |p| && forall k :: 0 <= k < |name| ==> IsParamChar(name[k])
    requires i + 1 + |name| <= |p| && p[i + 1..i + 1 + |name|] == name
    requires i + 1 + |name| == |p| || !IsParamChar(p[i + 1 + |name|])
    ensures NameEnd(p, i) == i + 1 + |name|
  {
    var j := i + 1 + |name|;
    forall k | i + 1 <= k < j
      ensures IsParamChar(p[k])
    {
      assert p[k] == name[k - i - 1];
    }
    RunIs(p, i + 1, j);
  }

  /** A rule written `(rule)` at `j`, with no `)` inside it. */
  lemma RuleAt(p: string, j: nat, rule: string)
    requires j + 1 + |rule| < |p| && p[j] == '(' && p[j + 1..j + 1 + |rule|] == rule
    requires ')' !in rule && p[j + 1 + |rule|] == ')'
    ensures OpensRule(p, j) && RuleOf(p, j) == rule && NextOf(p, j) == j + 2 + |rule|
  {
    var e := j + 1 + |rule|;
    forall k | j + 1 <= k < e
      ensures p[k] != ')'
    {
      assert p[k] == rule[k - j - 1];
      assert rule[k - j - 1] in rule;
    }
    RuleIs(p, j + 1, e);
  }

  /** The parameter at `i` is `name` with the rule `rule` ("" for none),
      when the pattern spells them out there. */
  lemma SpecIs(p: string, i: nat, name: string, rule: string)
    requires i < |p| && p[i] == ':' && name != "" && forall k :: 0 <= k < |name| ==> IsParamChar(name[k])
    requires i + 1 + |name| <= |p| && p[i + 1..i + 1 + |name|] == name
    requires rule == "" ==> i + 1 + |name| == |p| || (!IsParamChar(p[i + 1 + |name|]) && p[i + 1 + |name|] != '(')
    requires rule != "" ==> var j := i + 1 + |name|;
               && j + 1 + |rule| < |p| && p[j] == '(' && p[j + 1..j + 1 + |rule|] == rule
               && ')' !in rule && p[j + 1 + |rule|] == ')'
    ensures SpecAt(p, i) == ParamSpec(name, rule, if rule == "" then i + 1 + |name| else i + 3 + |name| + |rule|)
  {
    var j := i + 1 + |name|;
    NameIs(p, i, name);
    if rule != "" {
      RuleAt(p, j, rule);
    }
  }

  /** The name of a parameter reads only what follows its `:`. */
  lemma NameShift(a: string, b: string, i: nat)
    requires i < |b|
    ensures NameEnd(a + b, |a| + i) == |a| + NameEnd(b, i)
    ensures (a + b)[|a| + i + 1..|a| + NameEnd(b, i)] == b[i + 1..NameEnd(b, i)]
  {
    assert (a + b)[|a| + i + 1..] == b[i + 1..];
  }

  /** The rule after a name reads only what follows the name. */
  lemma RuleShift(a: string, b: string, j: nat)
    requires j <= |b|
    ensures RuleOf(a + b, |a| + j) == RuleOf(b, j)
    ensures NextOf(a + b, |a| + j) == |a| + NextOf(b, j)
  {
    var p := a + b;
    var n := |a|;
    assert OpensRule(p, n + j) == OpensRule(b, j);
    if OpensRule(b, j) {
      assert p[n + j + 1..] == b[j + 1..];
      var k := RuleEnd(b, j);
      assert RuleEnd(p, n + j) == n + k;
      assert p[n + j + 1..n + k] == b[j + 1..k];
    }
  }

  /** A parameter reads only what follows its `:`. */
  lemma SpecShift(a: string, b: string, i: nat)
    requires i < |b|
    ensures SpecAt(a + b, |a| + i) == ParamSpec(SpecAt(b, i).name, SpecAt(b, i).rule, |a| + SpecAt(b, i).next)
  {
    NameShift(a, b, i);
    RuleShift(a, b, NameEnd(b, i));
  }

  /** The translation only looks ahead: from index `|a| + i` of `a + b`
      it is the translation of `b` from `i`. */
  lemma {:induction false} ScanShift(a: string, b: string, i: nat)
    requires i <= |b|
    ensures RegexpScan(a + b, |a| + i) == RegexpScan(b, i)
    decreases |b| - i
  {
    var p := a + b;
    if i < |b| {
      assert p[|a| + i] == b[i];
      if b[i] == ':' {
        var s := SpecAt(b, i);
        SpecShift(a, b, i);
        if s.name != "" {
          ScanShift(a, b, s.next);
        }
      } else {
        ScanShift(a, b, i + 1);
      }
    }
  }

  /** A front without `:` is copied in front of the translation of the
      rest. */
  lemma ScanStaticFront(a: string, b: string)
    requires ':' !in a
    ensures RegexpScan(a + b, 0) == Glue(Translation(a, a, []), RegexpScan(b, 0))
  {
    var p := a + b;
    forall k | 0 <= k < |a|
      ensures p[k] != ':'
    {
      assert p[k] == a[k] && a[k] in a;
    }
    RegexpScanRun(p, 0, |a|);
    assert p[0..|a|] == a;
    ScanShift(a, b, 0);
  }

  /** A front `:name(rule)` is one parameter in front of the translation
      of the rest. */
  lemma ScanRuleFront(name: string, rule: string, rest: string)
    requires name != "" && (forall k :: 0 <= k < |name| ==> IsParamChar(name[k]))
    requires rule != "" && ')' !in rule
    ensures var front := ":" + name + "(" + rule + ")";
            RegexpScan(front + rest, 0) == Glue(Param(ParamSpec(name, rule, |front|)), RegexpScan(rest, 0))
  {
    var front := ":" + name + "(" + rule + ")";
    RuleFrontBytes(name, rule, rest);
    SpecIs(front + rest, 0, name, rule);
    ScanShift(front, rest, 0);
  }

  /** Where the name and the rule of `:name(rule)` sit. */
  lemma RuleFrontBytes(name: string, rule: string, rest: string)
    ensures var p := ":" + name + "(" + rule + ")" + rest;
            var j := 1 + |name|;
            && p[0] == ':' && p[1..j] == name && p[j] == '('
            && p[j + 1..j + 1 + |rule|] == rule && p[j + 1 + |rule|] == ')'
  {
    var a := ":" + name;
    var b := a + "(";
    var c := b + rule;
    var p := c + ")" + rest;
    assert p[..|c|] == c;
    assert c[..|a|] == a;
    assert c[|b|..] == rule;
  }

  /** A front `:name` without a rule is one parameter in front of the
      translation of the rest. */
  lemma ScanNameFront(name: string, rest: string)
    requires name != "" && (forall k :: 0 <= k < |name| ==> IsParamChar(name[k]))
    requires rest == "" || (!IsParamChar(rest[0]) && rest[0] != '(')
    ensures RegexpScan(":" + name + rest, 0) == Glue(Param(ParamSpec(name, "", 1 + |name|)), RegexpScan(rest, 0))
  {
    var front := ":" + name;
    var p := front + rest;
    assert ":" + name + rest == p;
    assert p[1..1 + |name|] == name;
    if rest != "" {
      assert p[1 + |name|] == rest[0];
    }
    SpecIs(p, 0, name, "");
    ScanShift(front, rest, 0);
  }

  /** The route "/yy/:py([a-zA-Z0-9_-]+)-:id(int)/:page.html" cut in two. */
  lemma YyHalves()
    ensures "/yy/:py([a-zA-Z0-9_-]+)-:id(int)/:page.html" == "/yy/:py([a-zA-Z0-9_-]+)-" + ":id(int)/:page.html"
  {
  }

  /** The first half of the route "/yy/...", piece by piece. */
  lemma YyFront()
    ensures "/yy/:py([a-zA-Z0-9_-]+)-" == "/yy/" + (":" + "py" + "(" + "[a-zA-Z0-9_-]+" + ")" + "-")
  {
  }

  /** The second half of the route "/yy/...", piece by piece. */
  lemma YyBack()
    ensures ":id(int)/:page.html" == ":" + "id" + "(" + "int" + ")" + ("/" + (":" + "page" + ".html"))
  {
  }

  /** `(a + (b + c)) + d` is `a + (b + (c + d))`. */
  lemma Regroup(a: string, b: string, c: string, d: string)
    ensures (a + (b + c)) + d == a + (b + (c + d))
  {
  }

  /** The bytes of the pieces of the route "/yy/...". */
  lemma YyPieces()
    ensures ')' !in "[a-zA-Z0-9_-]+" && ')' !in "int" && ':' !in "/yy/" && ':' !in "-" && ':' !in "/" && ':' !in ".html"
    ensures forall k :: 0 <= k < 2 ==> IsParamChar("py"[k]) && IsParamChar("id"[k])
    ensures forall k :: 0 <= k < 4 ==> IsParamChar("page"[k])
  {
  }

  /** The expression of the route "/yy/...", cut in two. */
  lemma YyRegexHalves()
    ensures "/yy/([a-zA-Z0-9_-]+)-([\\d]+)/([^\\/]+).html" == "/yy/([a-zA-Z0-9_-]+)-" + "([\\d]+)/([^\\/]+).html"
  {
  }

  /** The halves of the expression of the route "/yy/...", piece by piece. */
  lemma YyRegexPieces()
    ensures "/yy/([a-zA-Z0-9_-]+)-" == "/yy/" + ("(" + "[a-zA-Z0-9_-]+" + ")" + "-")
    ensures "([\\d]+)/([^\\/]+).html" == "([\\d]+)" + ("/" + ("([^\\/]+)" + ".html"))
  {
  }

  /** The expression of the route "/yy/...", piece by piece. */
  lemma YyRegex()
    ensures "/yy/([a-zA-Z0-9_-]+)-([\\d]+)/([^\\/]+).html"
              == "/yy/" + ("(" + "[a-zA-Z0-9_-]+" + ")" + ("-" + ("([\\d]+)" + ("/" + ("([^\\/]+)" + ".html")))))
  {
    YyRegexHalves();
    YyRegexPieces();
    Regroup("/yy/", "(" + "[a-zA-Z0-9_-]+" + ")", "-", "([\\d]+)/([^\\/]+).html");
  }

  /** The format of the route "/yy/...", piece by piece. */
  lemma YyFormat()
    ensures "/yy/%v-%v/%v.html" == "/yy/" + ("%v" + ("-" + ("%v" + ("/" + ("%v" + ".html")))))
  {
  }

  /** The translations of the pieces of the route "/yy/...", glued front to
      back. */
  lemma YyGlued()
    ensures var page := Concat(Param(ParamSpec("page", "", 5)), Translation(".html", ".html", []));
            var id := Concat(Param(ParamSpec("id", "int", 8)), Concat(Translation("/", "/", []), page));
            var py := Concat(Param(ParamSpec("py", "[a-zA-Z0-9_-]+", 19)), Concat(Translation("-", "-", []), id));
            Concat(Translation("/yy/", "/yy/", []), py)
              == Translation("/yy/([a-zA-Z0-9_-]+)-([\\d]+)/([^\\/]+).html", "/yy/%v-%v/%v.html", ["py", "id", "page"])
  {
    YyRegex();
    YyFormat();
    assert [] + (["py"] + ([] + (["id"] + ([] + (["page"] + []))))) == ["py", "id", "page"];
  }

  /** regexp_test.go: "/yy/:py([a-zA-Z0-9_-]+)-:id(int)/:page.html" has the
      parameters py, id and page, in that order, its format is
      "/yy/%v-%v/%v.html", and its expression puts the rule of py, digits
      for id and any bytes but `/` for page in their places. */
  lemma YyRoute(p: string)
    requires p == "/yy/:py([a-zA-Z0-9_-]+)-:id(int)/:page.html"
    ensures RegexpScan(p, 0) == Ok(Translation("/yy/([a-zA-Z0-9_-]+)-([\\d]+)/([^\\/]+).html",
                                               "/yy/%v-%v/%v.html", ["py", "id", "page"]))
  {
    YyPieces();
    var r4 := ":" + "page" + ".html";
    var r3 := "/" + r4;
    var r2 := ":" + "id" + "(" + "int" + ")" + r3;
    var r1 := "-" + r2;
    var py := ":" + "py" + "(" + "[a-zA-Z0-9_-]+" + ")";
    var r0 := py + r1;
    assert p == "/yy/" + r0 by {
      YyHalves();
      YyFront();
      YyBack();
      Regroup("/yy/", py, "-", r2);
    }
    NoParams(".html");
    ScanNameFront("page", ".html");
    ScanStaticFront("/", r4);
    ScanRuleFront("id", "int", r3);
    ScanStaticFront("-", r2);
    ScanRuleFront("py", "[a-zA-Z0-9_-]+", r1);
    ScanStaticFront("/yy/", r0);
    YyGlued();
  }
}
