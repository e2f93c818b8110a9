/** The format builder behind `Name` in tree.go and in the stub regexp router
    (router/regexp.go): every `:name` run, up to the next `/`, becomes one
    `%v`; every other byte is copied. `URLFor` later fills the format with
    `Sprintf`. */
module Names {
  import opened Common
  import opened Fmt

  /** The format `Name` stores for `pattern`: no `:` is left in it. */
  function NameFormat(pattern: string): (f: string)
    ensures ':' !in f
    decreases |pattern|
  {
    if pattern == "" then ""
    else if pattern[0] != ':' then [pattern[0]] + NameFormat(pattern[1..])
    else "%v" + NameFormat(pattern[1 + RunUntil(pattern[1..], '/')..])
  }

  /** The number of `:name` runs in `pattern`: none exactly when there is
      no `:`. */
  function ParamCount(pattern: string): (n: nat)
    ensures n == 0 <==> ':' !in pattern
    decreases |pattern|
  {
    if pattern == "" then 0
    else if pattern[0] != ':' then
      assert pattern == [pattern[0]] + pattern[1..];
      ParamCount(pattern[1..])
    else 1 + ParamCount(pattern[1 + RunUntil(pattern[1..], '/')..])
  }

  /** `pattern` with its `k`-th `:name` run replaced by the text of
      `args[u + k]`: the URL the pattern describes for those values. A
      pattern without `:` describes only itself. */
  function Instantiate(pattern: string, args: seq<Arg>, u: nat): (url: string)
    ensures ':' !in pattern ==> url == pattern
    decreases |pattern|
  {
    if pattern == "" then ""
    else if pattern[0] != ':' then
      assert pattern == [pattern[0]] + pattern[1..];
      [pattern[0]] + Instantiate(pattern[1..], args, u)
    else Show(args, u) + Instantiate(pattern[1 + RunUntil(pattern[1..], '/')..], args, u + 1)
  }

  /** The scan of `Name`: copy bytes, and on `:` emit `%v` and jump to the
      next `/` (or past the end). */
  method FormatOf(pattern: string) returns (f: string)
    ensures f == NameFormat(pattern)
  {
    f := "";
    var i := 0;
    while i < |pattern|
      invariant 0 <= i <= |pattern|
      invariant f + NameFormat(pattern[i..]) == NameFormat(pattern)
    {
      if pattern[i] != ':' {
        FormatByte(pattern, i);
        Regroup(NameFormat(pattern), f + [pattern[i]], f, [pattern[i]], NameFormat(pattern[i + 1..]));
        f := f + [pattern[i]];
        i := i + 1;
        continue;
      }
      var j := SkipName(pattern, i + 1);
      FormatParam(pattern, i, j);
      Regroup(NameFormat(pattern), f + "%v", f, "%v", NameFormat(pattern[j..]));
      f := f + "%v";
      i := j;
    }
  }

  /** The inner loop of `Name`: from `from`, the index of the next `/`, or
      the length of `pattern` when there is none. */
  method SkipName(pattern: string, from: nat) returns (j: nat)
    requires from <= |pattern|
    ensures j == from + RunUntil(pattern[from..], '/')
  {
    j := from;
    while j < |pattern| && pattern[j] != '/'
      invariant from <= j <= |pattern|
      invariant forall k :: from <= k < j ==> pattern[k] != '/'
    {
      j := j + 1;
    }
    SkipTo(pattern[from..], j - from);
  }

  /** A byte other than `:` is copied to the format. */
  lemma FormatByte(pattern: string, i: nat)
    requires i < |pattern| && pattern[i] != ':'
    ensures NameFormat(pattern[i..]) == [pattern[i]] + NameFormat(pattern[i + 1..])
  {
    assert pattern[i..][1..] == pattern[i + 1..];
  }

  /** A `:name` run up to index `j` becomes one `%v`. */
  lemma FormatParam(pattern: string, i: nat, j: nat)
    requires i < |pattern| && pattern[i] == ':'
    requires j == i + 1 + RunUntil(pattern[i + 1..], '/')
    ensures NameFormat(pattern[i..]) == "%v" + NameFormat(pattern[j..])
  {
    assert pattern[i..][1..] == pattern[i + 1..];
    assert pattern[i + 1..][j - (i + 1)..] == pattern[j..];
  }

  /** The name run stops at the first `/`, or at the end. */
  lemma SkipTo(s: string, n: nat)
    requires n <= |s|
    requires forall k :: 0 <= k < n ==> s[k] != '/'
    requires n == |s| || s[n] == '/'
    ensures RunUntil(s, '/') == n
  {
  }

  /** A pattern without `%` has as many verbs in its format as it has
      `:name` runs, and its format filled from index `u` is the pattern with
      its runs replaced by the arguments from index `u` on. */
  lemma {:induction false} FillFormat(pattern: string, args: seq<Arg>, u: nat)
    requires '%' !in pattern
    ensures Verbs(NameFormat(pattern)) == ParamCount(pattern)
    ensures Body(NameFormat(pattern), args, u) == Instantiate(pattern, args, u)
    decreases |pattern|
  {
    if pattern != "" {
      var f := NameFormat(pattern);
      if pattern[0] != ':' {
        var rest := pattern[1..];
        assert '%' !in rest by {
          forall k | 0 <= k < |rest| ensures rest[k] != '%' {
            assert rest[k] == pattern[k + 1];
          }
        }
        FillFormat(rest, args, u);
        assert !AtVerb(f);
        assert f[1..] == NameFormat(rest);
      } else {
        var rest := pattern[1 + RunUntil(pattern[1..], '/')..];
        assert '%' !in rest by {
          forall k | 0 <= k < |rest| ensures rest[k] != '%' {
            assert rest[k] == pattern[k + 1 + RunUntil(pattern[1..], '/')];
          }
        }
        FillFormat(rest, args, u + 1);
        assert AtVerb(f);
        assert f[2..] == NameFormat(rest);
      }
    }
  }

  /** `URLFor` on a named pattern without `%`, given one argument per
      parameter, rebuilds the pattern with every `:name` run replaced by its
      argument, in order. */
  lemma URLRoundTrip(pattern: string, args: seq<Arg>)
    requires '%' !in pattern
    requires |args| == ParamCount(pattern)
    ensures Sprintf(NameFormat(pattern), args) == Instantiate(pattern, args, 0)
  {
    FillFormat(pattern, args, 0);
  }

  /** A pattern without `:` is its own format. */
  lemma {:induction false} FormatOfStatic(s: string)
    requires ':' !in s
    ensures NameFormat(s) == s
    decreases |s|
  {
    if s != "" {
      NoColonTail(s);
      FormatOfStatic(s[1..]);
      assert s == [s[0]] + s[1..];
    }
  }

  /** Dropping the first byte of a string without `:` leaves none. */
  lemma NoColonTail(s: string)
    requires s != "" && ':' !in s
    ensures ':' !in s[1..]
  {
    forall k | 0 <= k < |s[1..]|
      ensures s[1..][k] != ':'
    {
      assert s[1..][k] == s[k + 1];
    }
  }

  /** A prefix without `:` is copied to the format unchanged. */
  lemma {:induction false} FormatOfPrefix(s: string, t: string)
    requires ':' !in s
    ensures NameFormat(s + t) == s + NameFormat(t)
    decreases |s|
  {
    if s != "" {
      assert (s + t)[0] == s[0];
      assert (s + t)[1..] == s[1..] + t;
      NoColonTail(s);
      FormatOfPrefix(s[1..], t);
      assert s == [s[0]] + s[1..];
    } else {
      assert s + t == t;
    }
  }

  /** A prefix without `:` is copied to the URL unchanged. */
  lemma {:induction false} InstantiateOfPrefix(s: string, t: string, args: seq<Arg>)
    requires ':' !in s
    ensures Instantiate(s + t, args, 0) == s + Instantiate(t, args, 0)
    decreases |s|
  {
    if s != "" {
      assert (s + t)[0] == s[0];
      assert (s + t)[1..] == s[1..] + t;
      NoColonTail(s);
      InstantiateOfPrefix(s[1..], t, args);
      assert Instantiate(s + t, args, 0) == [s[0]] + Instantiate(s[1..] + t, args, 0);
      assert s == [s[0]] + s[1..];
    } else {
      assert s + t == t;
    }
  }

  /** A prefix without `:` adds no parameters. */
  lemma {:induction false} ParamCountOfPrefix(s: string, t: string)
    requires ':' !in s
    ensures ParamCount(s + t) == ParamCount(t)
    decreases |s|
  {
    if s != "" {
      assert (s + t)[0] == s[0];
      assert (s + t)[1..] == s[1..] + t;
      NoColonTail(s);
      ParamCountOfPrefix(s[1..], t);
    } else {
      assert s + t == t;
    }
  }

}

/** The example of tree_test.go: naming "/article/:id/show" and rebuilding
    its URL. */
module NamesExample {
  import opened Fmt
  import opened Names

  /** The pieces of ":id/show". */
  lemma IdPieces()
    ensures ":id/show"[1..] == "id/show" && ":id/show"[1 + 2..] == "/show"
    ensures "%v" + "/show" == "%v/show"
    ensures ':' !in "/show" && "id/show"[2] == '/' && "id/show"[0] != '/' && "id/show"[1] != '/'
  {
  }

  /** ":id/show" has the format "%v/show", one parameter, and the URL
      `v` + "/show" for the argument `v`. */
  lemma {:induction false} IdShow(tail: string, args: seq<Arg>)
    requires tail == ":id/show" && |args| == 1
    ensures NameFormat(tail) == "%v/show"
    ensures ParamCount(tail) == 1
    ensures Instantiate(tail, args, 0) == args[0].text + "/show"
  {
    IdPieces();
    SkipTo("id/show", 2);
    FormatOfStatic("/show");
  }

  /** The pieces of "/article/:id/show" and of what is built from it. */
  lemma ArticlePieces()
    ensures "/article/:id/show" == "/article/" + ":id/show"
    ensures "/article/" + "%v/show" == "/article/%v/show"
    ensures "/article/" + ("123" + "/show") == "/article/123/show"
    ensures ':' !in "/article/"
  {
  }

  /** The format of "/article/:id/show" is "/article/%v/show". */
  lemma {:induction false} ArticleFormat(p: string)
    requires p == "/article/:id/show"
    ensures NameFormat(p) == "/article/%v/show"
  {
    ArticlePieces();
    IdShow(":id/show", [Arg("int", "123")]);
    FormatOfPrefix("/article/", ":id/show");
  }

  /** "/article/:id/show" has one parameter, and with 123 in its place it
      reads "/article/123/show". */
  lemma {:induction false} ArticleParams(p: string, args: seq<Arg>)
    requires p == "/article/:id/show" && args == [Arg("int", "123")]
    ensures |args| == ParamCount(p)
    ensures Instantiate(p, args, 0) == "/article/123/show"
  {
    ArticlePieces();
    IdShow(":id/show", args);
    ParamCountOfPrefix("/article/", ":id/show");
    InstantiateOfPrefix("/article/", ":id/show", args);
  }

  /** `URLFor` of "/article/:id/show" with 123 gives "/article/123/show". */
  lemma {:induction false} ArticleURL(p: string, args: seq<Arg>)
    requires p == "/article/:id/show" && args == [Arg("int", "123")]
    ensures Sprintf(NameFormat(p), args) == "/article/123/show"
  {
    assert '%' !in p;
    ArticleParams(p, args);
    URLRoundTrip(p, args);
  }
}
