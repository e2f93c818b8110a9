/** The part of Go's `fmt.Sprintf` the routers use to rebuild URLs: the `%v`
    verb applied, left to right, to arguments whose printed text is known. A
    missing argument prints `%!v(MISSING)`; arguments left over are listed
    after the output as `%!(EXTRA type=value, ...)`. */
module Fmt {

  /** An argument of `Sprintf`: its Go type name and the text `%v` prints
      for it (`Arg("int", "123")`, `Arg("string", "abc")`). */
  datatype Arg = Arg(typ: string, text: string)

  /** What `%v` prints when the arguments have run out. */
  const Missing: string := "%!v(MISSING)"

  /** The text `%v` prints for the argument at index `u`. */
  function Show(args: seq<Arg>, u: nat): string
  {
    if u < |args| then args[u].text else Missing
  }

  /** `f` starts with the verb `%v`. */
  predicate AtVerb(f: string)
  {
    |f| >= 2 && f[0] == '%' && f[1] == 'v'
  }

  /** The number of `%v` verbs met scanning `f` from the left. */
  function Verbs(f: string): nat
    decreases |f|
  {
    if f == "" then 0
    else if AtVerb(f) then 1 + Verbs(f[2..])
    else Verbs(f[1..])
  }

  /** The output for `f` with the verbs filled from index `u` of `args` on,
      without the trailing list of unused arguments. */
  function Body(f: string, args: seq<Arg>, u: nat): string
    decreases |f|
  {
    if f == "" then ""
    else if AtVerb(f) then Show(args, u) + Body(f[2..], args, u + 1)
    else [f[0]] + Body(f[1..], args, u)
  }

  /** `type=value` for each argument, separated by ", ". */
  function Listing(args: seq<Arg>): string
  {
    if args == [] then ""
    else if |args| == 1 then args[0].typ + "=" + args[0].text
    else args[0].typ + "=" + args[0].text + ", " + Listing(args[1..])
  }

  /** The annotation for arguments no verb consumed. */
  function Extra(args: seq<Arg>): string
  {
    "%!(EXTRA " + Listing(args) + ")"
  }

  /** The printed texts of `args`, concatenated. */
  function Texts(args: seq<Arg>): string
  {
    if args == [] then "" else args[0].text + Texts(args[1..])
  }

  /** `%v` repeated `k` times. */
  function VerbRun(k: nat): (f: string)
    ensures |f| == 2 * k
  {
    if k == 0 then "" else "%v" + VerbRun(k - 1)
  }

  /** What `Sprintf` appends after the filled format when only `v`
      arguments were consumed: nothing, or the `EXTRA` annotation. */
  function Leftover(args: seq<Arg>, v: nat): string
  {
    if v < |args| then Extra(args[v..]) else ""
  }

  /** `fmt.Sprintf(f, args...)`: a format without verbs prints as it is,
      followed by the `EXTRA` annotation when there are arguments. */
  function Sprintf(f: string, args: seq<Arg>): (s: string)
    ensures Verbs(f) == 0 ==> s == f + Leftover(args, 0)
  {
    if Verbs(f) == 0 then NoVerbs(f, args, 0); Body(f, args, 0) + Leftover(args, Verbs(f))
    else Body(f, args, 0) + Leftover(args, Verbs(f))
  }

  /** A format without verbs is printed as it is, whatever argument index
      the scan starts from. */
  lemma {:induction false} NoVerbs(f: string, args: seq<Arg>, u: nat)
    requires Verbs(f) == 0
    ensures Body(f, args, u) == f
    decreases |f|
  {
    if f != "" {
      assert !AtVerb(f);
      NoVerbs(f[1..], args, u);
      assert f == [f[0]] + f[1..];
    }
  }

  /** The verbs of `f + g` are those of `f` and those of `g`, as long as
      `f` does not end in a `%` that `g` could complete to a verb. */
  lemma {:induction false} AppendVerbs(f: string, g: string)
    requires f == "" || f[|f| - 1] != '%'
    ensures Verbs(f + g) == Verbs(f) + Verbs(g)
    decreases |f|
  {
    if f == "" {
      assert f + g == g;
    } else {
      var t := if AtVerb(f) then f[2..] else f[1..];
      assert (f + g)[|f| - |t|..] == t + g;
      assert AtVerb(f + g) == AtVerb(f) by {
        if |f| == 1 {
          assert (f + g)[0] == '%' ==> false;
        }
      }
      assert t == "" || t[|t| - 1] == f[|f| - 1];
      AppendVerbs(t, g);
    }
  }

  /** Scanning `f + g` is scanning `f` and then `g`, under the same
      condition as `AppendVerbs`. */
  lemma {:induction false} Append(f: string, g: string, args: seq<Arg>, u: nat)
    requires f == "" || f[|f| - 1] != '%'
    ensures Verbs(f + g) == Verbs(f) + Verbs(g)
    ensures Body(f + g, args, u) == Body(f, args, u) + Body(g, args, u + Verbs(f))
    decreases |f|, 1
  {
    AppendVerbs(f, g);
    if f == "" {
      assert f + g == g;
    } else if AtVerb(f) {
      AppendAtVerb(f, g, args, u);
    } else {
      AppendAtByte(f, g, args, u);
    }
  }

  /** `f + g` starts as `f` does: with the same verb, or with the same
      byte not starting a verb. */
  lemma HeadOfAppend(f: string, g: string)
    requires f != "" && f[|f| - 1] != '%'
    ensures AtVerb(f + g) == AtVerb(f)
    ensures AtVerb(f) ==> (f + g)[2..] == f[2..] + g
    ensures !AtVerb(f) ==> (f + g)[1..] == f[1..] + g && (f + g)[0] == f[0]
  {
    if |f| == 1 {
      assert (f + g)[0] == f[0];
    }
  }

  /** Regrouping a three-part concatenation. */
  lemma Regroup(whole: string, front: string, s: string, x: string, y: string)
    requires whole == s + (x + y) && front == s + x
    ensures whole == front + y
  {
  }

  /** Replacing the second part of a concatenation by an equal string. */
  lemma Swap(whole: string, x: string, y: string, z: string)
    requires whole == x + y && y == z
    ensures whole == x + z
  {
  }

  /** `Append` when `f` starts with a verb. */
  lemma {:induction false} AppendAtVerb(f: string, g: string, args: seq<Arg>, u: nat)
    requires AtVerb(f) && f[|f| - 1] != '%'
    ensures Body(f + g, args, u) == Body(f, args, u) + Body(g, args, u + Verbs(f))
    decreases |f|, 0
  {
    var t := f[2..];
    assert t == "" || t[|t| - 1] == f[|f| - 1];
    Append(t, g, args, u + 1);
    HeadOfAppend(f, g);
    var fg := f + g;
    VerbBody(fg, args, u);
    VerbBody(f, args, u);
    Regroup(Body(fg, args, u), Body(f, args, u), Show(args, u), Body(t, args, u + 1), Body(g, args, u + Verbs(f)));
  }

  /** A format that starts with a verb prints the next argument, then the
      rest from the argument after it. */
  lemma VerbBody(f: string, args: seq<Arg>, u: nat)
    requires AtVerb(f)
    ensures Body(f, args, u) == Show(args, u) + Body(f[2..], args, u + 1) && Verbs(f) == 1 + Verbs(f[2..])
  {
  }

  /** `Append` when `f` starts with a byte that is not a verb. */
  lemma {:induction false} AppendAtByte(f: string, g: string, args: seq<Arg>, u: nat)
    requires f != "" && !AtVerb(f) && f[|f| - 1] != '%'
    ensures Body(f + g, args, u) == Body(f, args, u) + Body(g, args, u + Verbs(f))
    decreases |f|, 0
  {
    var t := f[1..];
    assert t == "" || t[|t| - 1] == f[|f| - 1];
    Append(t, g, args, u);
    HeadOfAppend(f, g);
    var fg := f + g;
    ByteBody(fg, args, u);
    ByteBody(f, args, u);
    Regroup(Body(fg, args, u), Body(f, args, u), [f[0]], Body(t, args, u), Body(g, args, u + Verbs(f)));
  }

  /** A format that does not start with a verb prints its first byte, then
      the rest. */
  lemma ByteBody(f: string, args: seq<Arg>, u: nat)
    requires f != "" && !AtVerb(f)
    ensures Body(f, args, u) == [f[0]] + Body(f[1..], args, u) && Verbs(f) == Verbs(f[1..])
  {
  }

  /** `k` verbs in a row print the texts of the next `k` arguments. */
  lemma {:induction false} Repeat(k: nat, args: seq<Arg>, u: nat)
    requires u + k <= |args|
    ensures Verbs(VerbRun(k)) == k
    ensures Body(VerbRun(k), args, u) == Texts(args[u..u + k])
    decreases k
  {
    if k > 0 {
      var f := VerbRun(k);
      assert AtVerb(f);
      assert f[2..] == VerbRun(k - 1);
      Repeat(k - 1, args, u + 1);
      assert args[u..u + k][1..] == args[u + 1..u + k];
    }
  }

  /** A format without `%` has no verbs. */
  lemma {:induction false} NoPercent(f: string)
    requires '%' !in f
    ensures Verbs(f) == 0
    decreases |f|
  {
    if f != "" {
      assert f[0] in f;
      assert forall c :: c in f[1..] ==> c in f;
      NoPercent(f[1..]);
    }
  }

  /** A run of verbs grows at its end as well as at its start. */
  lemma {:induction false} VerbRunSnoc(k: nat)
    ensures VerbRun(k) + "%v" == VerbRun(k + 1)
    decreases k
  {
    if k > 0 {
      VerbRunSnoc(k - 1);
      assert VerbRun(k) + "%v" == "%v" + (VerbRun(k - 1) + "%v");
    }
  }

  /** A format with a verb for every argument prints without `EXTRA`. */
  lemma SprintfAll(f: string, args: seq<Arg>)
    requires Verbs(f) == |args|
    ensures Sprintf(f, args) == Body(f, args, 0)
  {
    assert Leftover(args, Verbs(f)) == "";
  }

  /** Padding a format with one `%v` per argument beyond its own verbs (as
      both regexp routers' `URLFor` do) gives a format with a verb for
      every argument, which prints every extra argument right after the
      filled format: `Sprintf` adds no `EXTRA` annotation to it. */
  lemma {:induction false} Padding(f: string, args: seq<Arg>, n: nat, g: string)
    requires n == Verbs(f) <= |args| && g == VerbRun(|args| - n)
    requires f == "" || f[|f| - 1] != '%'
    ensures Verbs(f + g) == |args|
    ensures Body(f + g, args, 0) == Body(f, args, 0) + Texts(args[n..])
  {
    var k := |args| - n;
    Repeat(k, args, n);
    AppendVerbs(f, g);
    Append(f, g, args, 0);
    assert Body(g, args, 0 + Verbs(f)) == Body(g, args, n);
    assert Texts(args[n..n + k]) == Texts(args[n..]) by {
      assert args[n..n + k] == args[n..];
    }
    Swap(Body(f + g, args, 0), Body(f, args, 0), Body(g, args, n), Texts(args[n..]));
  }

  /** The number of `%v` the regexp routers' `URLFor` append to a format
      made for `have` parameters when given `count` arguments. */
  function PadCount(have: nat, count: nat): nat
  {
    if count > have then count - have else 0
  }

  /** The loop both regexp routers' `URLFor` run before `Sprintf`: one more
      `%v` for each argument beyond the `have` parameters of the route. */
  method PadVerbs(f: string, have: nat, count: nat) returns (padded: string)
    ensures padded == f + VerbRun(PadCount(have, count))
  {
    padded := f;
    var i := have + 1;
    while i <= count
      invariant have + 1 <= i
      invariant i <= count + 1 || i == have + 1
      invariant padded == f + VerbRun(i - have - 1)
    {
      VerbRunSnoc(i - have - 1);
      assert padded + "%v" == f + (VerbRun(i - have - 1) + "%v");
      padded := padded + "%v";
      i := i + 1;
    }
    assert i - have - 1 == PadCount(have, count);
  }

  /** A format whose `have` verbs are all parameters, padded for `args`
      and printed, gives the filled format followed by the texts of the
      arguments beyond the parameters. */
  lemma PaddedPrint(f: string, have: nat, args: seq<Arg>)
    requires Verbs(f) == have <= |args|
    requires f == "" || f[|f| - 1] != '%'
    ensures Sprintf(f + VerbRun(PadCount(have, |args|)), args) == Body(f, args, 0) + Texts(args[have..])
  {
    var g := VerbRun(PadCount(have, |args|));
    Padding(f, args, have, g);
    SprintfAll(f + g, args);
  }
}
