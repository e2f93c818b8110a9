/** context.go: the per-request bookkeeping of a `Context` -- the route
    parameters bound while matching, the key/value store, the cursor over
    the handler chain -- and the full URL of the request. The application a
    context belongs to is not held: the two things read from it (the number
    of middlewares, the debug flag) are arguments. */
module Contexts {
  import opened Common
  import opened Responses

  /** The fields of an `http.Request` that `URL` reads. */
  datatype Request = Request(
    scheme: string,     // Req.URL.Scheme
    urlHost: string,    // Req.URL.Host
    tls: bool,          // Req.TLS != nil
    host: string,       // Req.Host
    requestURI: string, // Req.RequestURI
    path: string,       // Req.URL.Path
    rawQuery: string    // Req.URL.RawQuery
  )

  /** The line logged when `Next` finds the response already written. */
  const ChainBreak: string := "Warning: content has been written, handle chain break."

  /** The value bound last to `name` among the parallel lists, or "": a
      bound name gets the value at its last position. */
  function LastValue(names: seq<string>, values: seq<string>, name: string): (v: string)
    requires |names| == |values|
    ensures name in names ==>
              exists k :: && 0 <= k < |names| && names[k] == name && v == values[k]
                          && forall j :: k < j < |names| ==> names[j] != name
    decreases |names|
  {
    if names == [] then ""
    else if names[|names| - 1] == name then values[|values| - 1]
    else LastValue(names[..|names| - 1], values[..|values| - 1], name)
  }

  /** The map `Params` builds: each name to the value bound to it last;
      its keys are exactly the bound names. */
  function ParamMap(names: seq<string>, values: seq<string>): (m: map<string, string>)
    requires |names| == |values|
    ensures m.Keys == set k | k in names
    decreases |names|
  {
    if names == [] then map[]
    else
      assert names == names[..|names| - 1] + [names[|names| - 1]];
      ParamMap(names[..|names| - 1], values[..|values| - 1])[names[|names| - 1] := values[|values| - 1]]
  }

  /** `Params()` and `Param(name)` agree: the map has exactly the bound
      names, and each maps to what `Param` returns for it. */
  lemma {:induction false} ParamsAgree(names: seq<string>, values: seq<string>)
    requires |names| == |values|
    ensures ParamMap(names, values).Keys == set k | k in names
    ensures forall k :: k in ParamMap(names, values) ==> ParamMap(names, values)[k] == LastValue(names, values, k)
    decreases |names|
  {
    if names != [] {
      var n := |names| - 1;
      ParamsAgree(names[..n], values[..n]);
      var m := ParamMap(names, values);
      forall k | k in m
        ensures m[k] == LastValue(names, values, k)
      {
        if k != names[n] {
          assert k in ParamMap(names[..n], values[..n]);
        }
      }
    }
  }

  /** A name never bound has the value "". */
  lemma {:induction false} LastValueUnbound(names: seq<string>, values: seq<string>, name: string)
    requires |names| == |values|
    requires name !in names
    ensures LastValue(names, values, name) == ""
    decreases |names|
  {
    if names != [] {
      var n := |names| - 1;
      assert names == names[..n] + [names[n]];
      LastValueUnbound(names[..n], values[..n], name);
    }
  }

  /** `URL(hasQuery)`: the scheme, or https/http by TLS; the host, or the
      request's Host header; "://" after the scheme, or ":" for a host
      starting with `/`, or nothing for one starting with `:`; no scheme at
      all without a host; then the request URI (or path and query) or the
      path. */
  function URL(req: Request, hasQuery: bool): (url: string)
    ensures var host := if req.urlHost == "" then req.host else req.urlHost;
            var scheme := if req.scheme != "" then req.scheme else if req.tls then "https" else "http";
            var tail := if !hasQuery then req.path
                        else if req.requestURI != "" then req.requestURI
                        else if req.rawQuery != "" then req.path + "?" + req.rawQuery
                        else req.path;
            && (host == "" ==> url == tail)
            && (host != "" && host[0] == ':' ==> url == scheme + host + tail)
            && (host != "" && host[0] == '/' ==> url == scheme + ":" + host + tail)
            && (host != "" && host[0] != ':' && host[0] != '/' ==> url == scheme + "://" + host + tail)
  {
    var scheme := if req.scheme == "" then (if req.tls then "https" else "http") else req.scheme;
    var host := if req.urlHost == "" then req.host else req.urlHost;
    var prefix :=
      if |host| > 0 then
        if host[0] == ':' then scheme
        else if host[0] == '/' then scheme + ":"
        else scheme + "://"
      else "";
    if hasQuery then
      var url :=
        if req.requestURI == "" then
          if |req.rawQuery| > 0 then req.path + "?" + req.rawQuery else req.path
        else req.requestURI;
      prefix + host + url
    else prefix + host + req.path
  }

  class Context {
    var req: Request
    var resp: Response
    /** The key/value store; `None` stands for Go's nil map. */
    var store: Option<map<string, Any>>
    /** The names of the route parameters bound so far. */
    var pNames: seq<string>
    /** Their values, in the same order. */
    var pValues: seq<string>
    /** The handler chain: the middlewares, then the route's handlers. */
    var handlers: seq<Handler>
    /** The position of the next handler to run. */
    var hi: nat
    /** Lines written to the application's logger. */
    var logged: seq<string>

    /** The two parameter lists always have the same length. */
    ghost predicate Valid()
      reads this
    {
      |pNames| == |pValues|
    }

    /** Everything but the parameter lists. */
    ghost function Others(): (Option<map<string, Any>>, seq<Handler>, nat, Request, Response, seq<string>)
      reads this
    {
      (store, handlers, hi, req, resp, logged)
    }

    /** `NewContext(w, r, b)`: the middlewares copied into the chain, then
        `Reset(w, r)`. */
    constructor (w: nat, r: Request, middleware: seq<Handler>)
      ensures Valid() && fresh(resp)
      ensures req == r && resp.writer == w && !resp.Wrote() && resp.Size() == 0 && resp.Status() == StatusOK
      ensures handlers == middleware && hi == 0 && pNames == [] && pValues == [] && store == None
    {
      resp := new Response(w);
      pNames := [];
      pValues := [];
      handlers := middleware;
      req := r;
      hi := 0;
      store := None;
      logged := [];
      new;
      Reset(w, r, |middleware|);
    }

    /** `Reset(w, r)` for an application with `middlewares` middlewares:
        the response is reset, the parameters and the store are cleared,
        the cursor goes back to the start and the chain is cut back to the
        middlewares. */
    method Reset(w: nat, r: Request, middlewares: nat)
      requires middlewares <= |handlers|
      modifies this, resp
      ensures Valid()
      ensures req == r && resp == old(resp)
      ensures resp.writer == w && !resp.Wrote() && resp.Size() == 0 && resp.Status() == StatusOK
      ensures hi == 0 && handlers == old(handlers)[..middlewares]
      ensures pNames == [] && pValues == [] && store == None
      ensures logged == old(logged)
    {
      resp.Reset(w);
      req := r;
      hi := 0;
      handlers := handlers[..middlewares];
      pNames := [];
      pValues := [];
      store := None;
    }

    /** `Set(key, v)`: creates the store on first use. */
    method Set(key: string, v: Any)
      modifies this
      ensures store.Some? && key in store.value && store.value[key] == v
      ensures store.value == (if old(store).Some? then old(store).value else map[])[key := v]
      ensures Get(key) == v
      ensures pNames == old(pNames) && pValues == old(pValues) && handlers == old(handlers) && hi == old(hi)
      ensures req == old(req) && resp == old(resp) && logged == old(logged)
    {
      if store.None? {
        store := Some(map[]);
      }
      store := Some(store.value[key := v]);
    }

    /** `Get(key)`: `nil` without a store or for a key never set. */
    function Get(key: string): (v: Any)
      reads this
      ensures store.None? ==> v == Nil
      ensures v != Nil ==> store.Some? && key in store.value && store.value[key] == v
    {
      if store.None? then Nil
      else if key in store.value then store.value[key]
      else Nil
    }

    /** `Gets()`: the store, created empty on first use. */
    method Gets() returns (m: map<string, Any>)
      modifies this
      ensures store == Some(m)
      ensures old(store).Some? ==> m == old(store).value
      ensures old(store).None? ==> m == map[]
      ensures pNames == old(pNames) && pValues == old(pValues) && handlers == old(handlers) && hi == old(hi)
      ensures req == old(req) && resp == old(resp) && logged == old(logged)
    {
      if store.None? {
        store := Some(map[]);
      }
      m := store.value;
    }

    /** `SetParam(name, value)`: appends to both lists. */
    method SetParam(name: string, value: string)
      requires Valid()
      modifies this
      ensures Valid()
      ensures pNames == old(pNames) + [name] && pValues == old(pValues) + [value]
      ensures store == old(store) && handlers == old(handlers) && hi == old(hi) && req == old(req)
      ensures resp == old(resp) && logged == old(logged)
    {
      pNames := pNames + [name];
      pValues := pValues + [value];
    }

    /** `Param(name)`: scans the bindings from the newest back. */
    method Param(name: string) returns (v: string)
      requires Valid()
      ensures v == LastValue(pNames, pValues, name)
      ensures name !in pNames ==> v == ""
    {
      var i := |pNames| - 1;
      assert pNames[..i + 1] == pNames && pValues[..i + 1] == pValues;
      while i >= 0
        invariant -1 <= i < |pNames|
        invariant LastValue(pNames, pValues, name) == LastValue(pNames[..i + 1], pValues[..i + 1], name)
      {
        assert pNames[..i + 1][..i] == pNames[..i] && pValues[..i + 1][..i] == pValues[..i];
        if pNames[i] == name {
          return pValues[i];
        }
        i := i - 1;
      }
      if name !in pNames {
        LastValueUnbound(pNames, pValues, name);
      }
      return "";
    }

    /** `Params()`: later bindings of a name override earlier ones. */
    method Params() returns (m: map<string, string>)
      requires Valid()
      ensures m == ParamMap(pNames, pValues)
      ensures m.Keys == set k | k in pNames
      ensures forall k :: k in m ==> m[k] == LastValue(pNames, pValues, k)
    {
      m := map[];
      var i := 0;
      while i < |pNames|
        invariant 0 <= i <= |pNames|
        invariant m == ParamMap(pNames[..i], pValues[..i])
      {
        assert pNames[..i + 1][..i] == pNames[..i] && pValues[..i + 1][..i] == pValues[..i];
        m := m[pNames[i] := pValues[i]];
        i := i + 1;
      }
      assert pNames[..i] == pNames && pValues[..i] == pValues;
      ParamsAgree(pNames, pValues);
    }

    /** `Next()`: unless the chain is exhausted or the response was already
        written, advances the cursor by one and returns the handler to run
        (the one at the old cursor); otherwise returns none and, in debug
        mode after a write, logs why. */
    method Next(debug: bool) returns (run: Option<Handler>)
      modifies this
      ensures old(hi) >= |handlers| ==> run == None && hi == old(hi) && logged == old(logged)
      ensures old(hi) < |handlers| && resp.Wrote() ==>
                run == None && hi == old(hi) && logged == (if debug then old(logged) + [ChainBreak] else old(logged))
      ensures old(hi) < |handlers| && !resp.Wrote() ==>
                run == Some(handlers[old(hi)]) && hi == old(hi) + 1 && logged == old(logged)
      ensures handlers == old(handlers) && pNames == old(pNames) && pValues == old(pValues) && store == old(store)
      ensures req == old(req) && resp == old(resp)
    {
      if hi >= |handlers| {
        return None;
      }
      if resp.Wrote() {
        if debug {
          logged := logged + [ChainBreak];
        }
        return None;
      }
      var i := hi;
      hi := hi + 1;
      return Some(handlers[i]);
    }

    /** `Break()`: moves the cursor past the end, so every later `Next`
        runs nothing. */
    method Break()
      modifies this
      ensures hi == |handlers| && handlers == old(handlers)
      ensures pNames == old(pNames) && pValues == old(pValues) && store == old(store) && logged == old(logged)
      ensures req == old(req) && resp == old(resp)
    {
      hi := |handlers|;
    }
  }
}
