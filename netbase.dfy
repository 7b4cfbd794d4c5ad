/** Values shared by the connection and listener models: bytes, contexts,
    scripted results of operating-system calls, and the errors the calls return. */
module NetBase {

  newtype byte = x: int | 0 <= x < 256
  newtype uint16 = x: int | 0 <= x < 0x1_0000
  newtype uint32 = x: int | 0 <= x < 0x1_0000_0000

  /** A time.Duration. The model records it when a deadline is set; it is
      never added to a clock. */
  type Duration = int

  datatype Option<T> = None | Some(value: T)

  /** What ctx.Err() reports once a context is done. */
  datatype CtxErr = Canceled | DeadlineExceeded

  /** A context as the blocking calls see it. The calls number their loop
      iterations by the position of the scripted step they are about to
      consume; a cancellable context is done at every position from `doneAt`
      on, so once done it stays done. Background is never done. */
  datatype Context = Background | Cancellable(doneAt: nat, cause: CtxErr) {
    predicate DoneAt(t: nat) {
      Cancellable? && doneAt <= t
    }

    /** ctx.Err() at position t: nil until the context is done. */
    function Err(t: nat): (e: Option<CtxErr>)
      ensures e.Some? <==> DoneAt(t)
      ensures e.Some? ==> e.value == cause
    {
      if DoneAt(t) then Some(cause) else None
    }
  }

  /** Outcome of one socket call: a value, an error for which isTemporary
      holds, or any other error. */
  datatype Io<T> = Ok(value: T) | Temporary | Fatal

  /** One loop iteration's worth of environment: whether setting the
      deadline of now+heartBeat succeeds, and what the socket call returns. */
  datatype Step<R> = Step(deadlineOk: bool, io: R)

  datatype AcceptFailure = SetDeadlineFailed | AcceptFailed

  /** The errors of the three connection files, one constructor per
      `return` site that builds a distinct error. */
  datatype NetError =
    // conn.go
    | ContextErr(cause: CtxErr)          // ctx.Err(), returned unchanged
    | CannotSetWriteDeadline             // "cannot set write deadline for tcp connection"
    | CannotWrite                        // "cannot write to tcp connection"
    | ReadCancelled(cause: CtxErr)       // "cannot read from tcp connection: <ctx.Err()>"
    | CannotSetReadDeadline              // "cannot set read deadline for tcp connection"
    | CannotRead                         // "cannot read from tcp connection: <err>"
    | CannotReadFull(inner: NetError)    // "cannot read full from tcp connection: <err>"
    // connUDP.go
    | InvalidUdpCtx                      // "cannot write with context: invalid udpCtx"
    | InvalidMulticastUdpCtx             // "cannot write multicast with context: invalid udpCtx"
    | InvalidMulticastDestination        // "... invalid destination address"
    | CannotGetInterfaces                // "... cannot get interfaces for multicast connection"
    | CannotSetMulticastWriteDeadline    // "... cannot set write deadline for connection"
    | CannotSetUdpWriteDeadline          // "cannot set write deadline for udp connection"
    | CannotWriteUdp                     // "cannot write to udp connection"
    | UdpReadCancelled(cause: CtxErr)    // "cannot read from udp connection: <ctx.Err()>"
    | CannotSetUdpReadDeadline           // "cannot set read deadline for udp connection"
    | CannotReadUdp(ctxErr: Option<CtxErr>)  // "cannot read from udp connection: <ctx.Err()>", ctx.Err() possibly nil
    | UdpReadFailed                      // the same message wrapping the read's own error
    // tlslistener.go
    | ServerClosed                       // ErrServerClosed
    | CannotAccept(failure: AcceptFailure)  // "cannot accept connections: <err>"

  /** The `error` a call returns: nil, an error, or Pending when the scripted
      environment ran out while the call was still looping. */
  datatype Status = Nil | Error(err: NetError) | Pending

  /** Appending is associative; the loops' traces grow by one attempt at a
      time. */
  lemma AppendAssoc<T>(a: seq<T>, b: seq<T>, c: seq<T>)
    ensures a + (b + c) == (a + b) + c
  {
  }

  function Last<T>(s: seq<T>): T
    requires |s| > 0
  {
    s[|s| - 1]
  }

  function Min(a: nat, b: nat): (m: nat)
    ensures m <= a && m <= b && (m == a || m == b)
  {
    if a <= b then a else b
  }
}
