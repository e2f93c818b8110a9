/** Shared vocabulary of the model: optional values, Go panics as results,
    opaque handler ids and Go's `interface{}` values. */
module Common {

  datatype Option<+T> = None | Some(value: T) {
    function ValueOr(default: T): T {
      match this
      case Some(v) => v
      case None => default
    }
  }

  /** The outcome of a Go call that may panic: either its value, or the panic
      (with the message the source passes to `panic`, or the Go runtime's
      message for an index out of range or a nil dereference). */
  datatype Result<+T> = Ok(value: T) | Panic(msg: string) {
    predicate IsFailure() {
      Panic?
    }

    function PropagateFailure<U>(): Result<U>
      requires Panic?
    {
      Panic(msg)
    }

    function Extract(): T
      requires Ok?
    {
      value
    }
  }

  /** A handler function (`HandlerFunc`) is opaque: only its identity matters. */
  type Handler = nat

  /** A Go `interface{}` value: `nil` or some object. */
  datatype Any = Nil | Obj(id: nat)

  /** The message of the Go runtime for a nil pointer dereference. */
  const NilDeref := "runtime error: invalid memory address or nil pointer dereference"

  /** The message of the Go runtime for the index -1, as in
      `pattern[len(pattern)-1]` on an empty pattern. */
  const IndexNegative := "runtime error: index out of range [-1]"

  /** The message of the Go runtime for the index 0 of an empty string, as
      in `pattern[0]` on an empty pattern. */
  const IndexOfEmpty := "runtime error: index out of range [0] with length 0"

  /** `s` starts with `p`. */
  predicate IsPrefix(p: string, s: string) {
    |p| <= |s| && s[..|p|] == p
  }

  /** The length of the leading run of `s` that holds no `stop` byte: the
      index of the first `stop`, or the length of `s`. */
  function RunUntil(s: string, stop: char): (n: nat)
    ensures n <= |s|
    ensures forall k :: 0 <= k < n ==> s[k] != stop
    ensures n < |s| ==> s[n] == stop
  {
    if s == "" || s[0] == stop then 0 else 1 + RunUntil(s[1..], stop)
  }

  /** The length of the longest common prefix of `a` and `b`. */
  function LCP(a: string, b: string): (n: nat)
    ensures n <= |a| && n <= |b|
    ensures a[..n] == b[..n]
    ensures n < |a| && n < |b| ==> a[n] != b[n]
  {
    if a == "" || b == "" || a[0] != b[0] then 0
    else
      var m := LCP(a[1..], b[1..]);
      assert a[..m + 1] == [a[0]] + a[1..][..m];
      assert b[..m + 1] == [b[0]] + b[1..][..m];
      1 + m
  }

  /** The common prefix `LCP` finds is the longest one: any `n` up to which
      the two strings agree and after which they end or differ is it. */
  lemma {:induction false} LCPUnique(a: string, b: string, n: nat)
    requires n <= |a| && n <= |b| && a[..n] == b[..n]
    requires n == |a| || n == |b| || a[n] != b[n]
    ensures LCP(a, b) == n
    decreases n
  {
    if n > 0 {
      assert a[0] == a[..n][0] == b[..n][0] == b[0];
      assert a[1..][..n - 1] == a[1..n] == a[..n][1..];
      assert b[1..][..n - 1] == b[1..n] == b[..n][1..];
      LCPUnique(a[1..], b[1..], n - 1);
    }
  }

  /** A parameter bound with `SetParam` while matching. */
  datatype Bind = Bind(name: string, value: string)

  /** The names of the bindings, in order. */
  function BindNames(bs: seq<Bind>): (ns: seq<string>)
    ensures |ns| == |bs| && forall k :: 0 <= k < |bs| ==> ns[k] == bs[k].name
  {
    seq(|bs|, k requires 0 <= k < |bs| => bs[k].name)
  }

  /** The values of the bindings, in order. */
  function BindValues(bs: seq<Bind>): (vs: seq<string>)
    ensures |vs| == |bs| && forall k :: 0 <= k < |bs| ==> vs[k] == bs[k].value
  {
    seq(|bs|, k requires 0 <= k < |bs| => bs[k].value)
  }

  /** The binding lists of two stretches of a match, joined. */
  lemma BindsAppend(bs: seq<Bind>, more: seq<Bind>)
    ensures BindNames(bs + more) == BindNames(bs) + BindNames(more)
    ensures BindValues(bs + more) == BindValues(bs) + BindValues(more)
  {
  }

  /** Parameter lists that recorded `bs` after `names` and `values`, then
      `more`, have recorded `bs + more`. */
  lemma RecordMore(names: seq<string>, values: seq<string>, mid: (seq<string>, seq<string>),
                   now: (seq<string>, seq<string>), bs: seq<Bind>, more: seq<Bind>)
    requires mid.0 == names + BindNames(bs) && mid.1 == values + BindValues(bs)
    requires now.0 == mid.0 + BindNames(more) && now.1 == mid.1 + BindValues(more)
    ensures now.0 == names + BindNames(bs + more) && now.1 == values + BindValues(bs + more)
  {
    BindsAppend(bs, more);
  }

  /** Each of `names` bound to the value at the same index, in order. */
  function Zip(names: seq<string>, values: seq<string>): (bs: seq<Bind>)
    requires |names| == |values|
    ensures BindNames(bs) == names && BindValues(bs) == values
  {
    seq(|names|, k requires 0 <= k < |names| => Bind(names[k], values[k]))
  }
}
