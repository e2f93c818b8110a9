/** The application object of baa.go: the bounded middleware list, the
    `GET` shortcut with its automatic HEAD copy, and `HTTPError` with the
    default error handler's choice of status code and message. The router
    behind `b.router` is not part of this model: the application records
    the `add` calls it makes. */
module Application {
  import opened Common

  /** `MiddlewareMaxSize`. */
  const MiddlewareMaxSize: nat := 20

  /** `http.StatusInternalServerError`. */
  const StatusInternalServerError: int := 500

  /** What `Use` does to the middleware list: appends `m` unless the list
      already holds more than `MiddlewareMaxSize` entries. The list only
      grows at its end, and by one entry exactly when it was within the
      bound. */
  function UseSpec(middleware: seq<Handler>, m: Handler): (r: seq<Handler>)
    ensures |middleware| <= |r| && r[..|middleware|] == middleware
    ensures |r| == |middleware| + 1 <==> |middleware| <= MiddlewareMaxSize
  {
    if |middleware| > MiddlewareMaxSize then middleware else middleware + [m]
  }

  /** `Use` called with each of `ms` in turn: the list only grows at its
      end, and never past `MiddlewareMaxSize + 1` entries from a list
      within that bound. */
  function UseAll(middleware: seq<Handler>, ms: seq<Handler>): (r: seq<Handler>)
    ensures |middleware| <= |r| && r[..|middleware|] == middleware
    ensures |middleware| <= MiddlewareMaxSize + 1 ==> |r| <= MiddlewareMaxSize + 1
    decreases |ms|
  {
    if ms == [] then middleware else UseAll(UseSpec(middleware, ms[0]), ms[1..])
  }

  /** From a list within the bound, `Use` keeps the middlewares in the
      order given until there are `MiddlewareMaxSize + 1` of them and drops
      every later one. */
  lemma {:induction false} UseAllKeepsFirst(middleware: seq<Handler>, ms: seq<Handler>)
    requires |middleware| <= MiddlewareMaxSize + 1
    ensures var n := |middleware| + |ms|;
            UseAll(middleware, ms) == (middleware + ms)[..if n <= MiddlewareMaxSize + 1 then n else MiddlewareMaxSize + 1]
    decreases |ms|
  {
    if ms != [] {
      var next := UseSpec(middleware, ms[0]);
      UseAllKeepsFirst(next, ms[1..]);
      if |middleware| > MiddlewareMaxSize {
        assert next == middleware;
        assert UseAll(next, ms[1..]) == middleware;
        assert (middleware + ms)[..MiddlewareMaxSize + 1] == middleware;
      } else {
        assert next + ms[1..] == middleware + ms;
      }
    }
  }

  /** The list of a new application, filled through `Use` only, never
      holds more than `MiddlewareMaxSize + 1` middlewares. */
  lemma UseBound(ms: seq<Handler>)
    ensures |UseAll([], ms)| <= MiddlewareMaxSize + 1
    ensures |ms| <= MiddlewareMaxSize + 1 ==> UseAll([], ms) == ms
  {
    UseAllKeepsFirst([], ms);
    assert [] + ms == ms;
  }

  /** The line `Use` logs when the list is full. */
  const Overhead: string := "middleware num overhead, limit 20\n"

  /** A call of `b.router.add(method, pattern, handlers)`. */
  datatype Call = Call(verb: string, pattern: string, handlers: Option<seq<Handler>>)

  /** `HTTPError`: a status code and a message. */
  class HTTPError {
    var code: int
    var message: string

    /** `NewHTTPError(code, msg...)` (baa.go lines 303-310): the message is
        the first of `msg` when there is one, else the status text of the
        code (`http.StatusText`, given as `statusText`). */
    constructor (code: int, msg: seq<string>, statusText: int -> string)
      ensures Code() == code
      ensures |msg| > 0 ==> Error() == msg[0]
      ensures |msg| == 0 ==> Error() == statusText(code)
    {
      this.code := code;
      message := statusText(code);
      new;
      if |msg| > 0 {
        message := msg[0];
      }
    }

    /** `Code()`. */
    function Code(): int
      reads this
    {
      code
    }

    /** `Error()`. */
    function Error(): string
      reads this
    {
      message
    }

    /** `SetCode(code)` (baa.go lines 313-315): a new code, the same message. */
    method SetCode(code: int)
      modifies this
      ensures Code() == code && Error() == old(Error())
    {
      this.code := code;
    }
  }

  /** An `error` handed to the error handler: an `*HTTPError`, or any other
      error, of which only its `Error()` text matters. */
  datatype Err = HTTP(e: HTTPError) | Other(text: string)

  class Baa {
    var debug: bool
    var middleware: seq<Handler>
    /** Lines written to the application's logger. */
    var logged: seq<string>
    /** `b.router.autoHead`. */
    var autoHead: bool
    /** The calls of `b.router.add` made so far, in order. */
    var added: seq<Call>

    /** `Use` keeps the list within its bound. */
    predicate Valid()
      reads this
    {
      |middleware| <= MiddlewareMaxSize + 1
    }

    /** The state of `New()` (baa.go lines 81-91) that this model keeps:
        no middleware, nothing logged or registered. */
    constructor ()
      ensures Valid()
      ensures middleware == [] && logged == [] && added == [] && !debug && !autoHead
    {
      debug := false;
      middleware := [];
      logged := [];
      autoHead := false;
      added := [];
    }

    /** `SetDebug(v)`. */
    method SetDebug(v: bool)
      modifies this
      ensures debug == v && middleware == old(middleware) && logged == old(logged)
      ensures autoHead == old(autoHead) && added == old(added)
    {
      debug := v;
    }

    /** `SetAutoHead(v)` (baa.go lines 227-229). */
    method SetAutoHead(v: bool)
      modifies this
      ensures autoHead == v && debug == old(debug) && middleware == old(middleware)
      ensures logged == old(logged) && added == old(added)
    {
      autoHead := v;
    }

    /** `Use(m)` (baa.go lines 207-213): appends the middleware, unless the
        list already holds more than `MiddlewareMaxSize` of them, in which
        case it logs a warning and keeps the list. */
    method Use(m: Handler)
      requires Valid()
      modifies this
      ensures middleware == UseSpec(old(middleware), m) && Valid()
      ensures |old(middleware)| > MiddlewareMaxSize ==> logged == old(logged) + [Overhead]
      ensures |old(middleware)| <= MiddlewareMaxSize ==> logged == old(logged)
      ensures debug == old(debug) && autoHead == old(autoHead) && added == old(added)
    {
      if |middleware| > MiddlewareMaxSize {
        logged := logged + [Overhead];
        return;
      }
      middleware := middleware + [m];
    }

    /** `Get(pattern, h...)` (baa.go lines 249-255): the route under GET and,
        when `autoHead` is set, the same route under HEAD, in that order. */
    method Get(pattern: string, h: Option<seq<Handler>>)
      modifies this
      ensures autoHead ==> added == old(added) + [Call("GET", pattern, h), Call("HEAD", pattern, h)]
      ensures !autoHead ==> added == old(added) + [Call("GET", pattern, h)]
      ensures debug == old(debug) && middleware == old(middleware) && logged == old(logged)
      ensures autoHead == old(autoHead)
    {
      added := added + [Call("GET", pattern, h)];
      if autoHead {
        added := added + [Call("HEAD", pattern, h)];
      }
    }

    /** The status code and message `DefaultErrorHandler(err, c)` (baa.go
        lines 193-204) sends through `http.Error`: those of an `HTTPError`,
        otherwise 500 with its status text; in debug mode the message is
        always the error's own text. */
    method DefaultErrorHandler(err: Err, statusText: int -> string) returns (code: int, msg: string)
      ensures err.HTTP? ==> code == err.e.Code() && msg == err.e.Error()
      ensures err.Other? ==> code == StatusInternalServerError
      ensures err.Other? && debug ==> msg == err.text
      ensures err.Other? && !debug ==> msg == statusText(StatusInternalServerError)
    {
      code := StatusInternalServerError;
      msg := statusText(code);
      if err.HTTP? {
        code := err.e.code;
        msg := err.e.message;
      }
      if debug {
        msg := if err.HTTP? then err.e.Error() else err.text;
      }
    }
  }
}
