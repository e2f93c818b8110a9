/** response.go: the `Response` wrapper around the underlying
    `http.ResponseWriter`, which latches the first status code written and
    counts the body bytes. The underlying writer is opaque: the model records
    the status codes forwarded to it and takes the byte count its `Write`
    reports as an argument. */
module Responses {

  /** The line logged on a second `WriteHeader`. */
  const MultipleWriteHeader: string := "http: multiple response.WriteHeader calls"

  /** `http.StatusOK`. */
  const StatusOK: int := 200

  class Response {
    /** Whether a status line has been (logically) written. */
    var wroteHeader: bool
    /** The number of body bytes written. */
    var written: int
    /** The status code passed to the first `WriteHeader`. */
    var status: int
    /** The underlying writer. Go keeps it in two fields, `resp` and
        `writer`, which `reset` sets together and only `SetWriter` (not part
        of this model) sets apart. */
    var writer: nat
    /** Status codes forwarded to the underlying writer, in order. */
    var forwarded: seq<int>
    /** Lines written to the application's logger. */
    var logged: seq<string>

    /** `Wrote()`. */
    function Wrote(): bool
      reads this
    {
      wroteHeader
    }

    /** `Status()`. */
    function Status(): int
      reads this
    {
      status
    }

    /** `Size()`. */
    function Size(): int
      reads this
    {
      written
    }

    /** `NewResponse(w, b)`: nothing written, status still Go's zero. */
    constructor (w: nat)
      ensures writer == w && !Wrote() && Size() == 0 && Status() == 0
      ensures forwarded == [] && logged == []
    {
      writer := w;
      wroteHeader := false;
      written := 0;
      status := 0;
      forwarded := [];
      logged := [];
    }

    /** `WriteHeader(code)`: the first call latches the code and forwards it;
        every later call only logs a warning. */
    method WriteHeader(code: int)
      modifies this
      ensures Wrote()
      ensures !old(Wrote()) ==> Status() == code && forwarded == old(forwarded) + [code] && logged == old(logged)
      ensures old(Wrote()) ==> Status() == old(Status()) && forwarded == old(forwarded)
                               && logged == old(logged) + [MultipleWriteHeader]
      ensures Size() == old(Size()) && writer == old(writer)
    {
      if wroteHeader {
        logged := logged + [MultipleWriteHeader];
        return;
      }
      wroteHeader := true;
      status := code;
      forwarded := forwarded + [code];
    }

    /** `Write(b)`, where `n` is the count the underlying writer reports for
        `b` (an `io.Writer` reports at most `len(b)`): writes the implicit 200
        header first when none was written, then adds `n` to the size. */
    method Write(b: seq<bv8>, n: nat) returns (count: nat)
      requires n <= |b|
      modifies this
      ensures count == n
      ensures Wrote()
      ensures Status() == if old(Wrote()) then old(Status()) else StatusOK
      ensures forwarded == if old(Wrote()) then old(forwarded) else old(forwarded) + [StatusOK]
      ensures Size() == old(Size()) + n && Size() >= old(Size())
      ensures logged == old(logged) && writer == old(writer)
    {
      if !wroteHeader {
        WriteHeader(StatusOK);
      }
      written := written + n;
      count := n;
    }

    /** `reset(w)`: reuse for a new request on writer `w`. */
    method Reset(w: nat)
      modifies this
      ensures writer == w && !Wrote() && Size() == 0 && Status() == StatusOK
      ensures forwarded == old(forwarded) && logged == old(logged)
    {
      writer := w;
      wroteHeader := false;
      written := 0;
      status := StatusOK;
    }
  }
}
