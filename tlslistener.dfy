/** The TLS listener of vendor/github.com/go-ocf/go-coap/net/tlslistener.go:
    the `closed` flag set once by compare-and-swap, and the accept loop that
    polls it, the context and the socket. */
module TlsListener {
  import opened NetBase

  /** A connection the listener handed out. */
  type ConnId = nat

  /** What closing the wrapped tls listener returns. */
  datatype CloseResult = CloseOk | CloseFailed

  /** The listener's state: the `closed` flag and, standing for the wrapped
      listener, how many times it was closed. */
  datatype ListenerState = ListenerState(closed: uint32, listenerCloses: nat)

  /** Every state Close can lead to: the flag is 0 or 1 and the wrapped
      listener was closed exactly when the flag is 1. */
  predicate Valid(s: ListenerState)
  {
    s.closed <= 1 && s.listenerCloses == s.closed as nat
  }

  const Fresh: ListenerState := ListenerState(0, 0)

  /** Close: the compare-and-swap of `closed` from 0 to 1. Whoever wins it
      closes the wrapped listener and returns what that returned; anyone else
      returns nil and does nothing. */
  function CloseStep(s: ListenerState, underlying: CloseResult): (r: (ListenerState, CloseResult))
    requires Valid(s)
    ensures Valid(r.0) && r.0.closed == 1
    ensures s.closed == 0 ==> r.0.listenerCloses == s.listenerCloses + 1 && r.1 == underlying
    ensures s.closed == 1 ==> r.0 == s && r.1 == CloseOk
  {
    if s.closed != 0 then (s, CloseOk)
    else (ListenerState(1, s.listenerCloses + 1), underlying)
  }

  /** A run of Close calls, in the order they take effect. */
  function CloseAll(s: ListenerState, results: seq<CloseResult>): (r: (ListenerState, seq<CloseResult>))
    requires Valid(s)
    ensures |r.1| == |results|
    decreases |results|
  {
    if results == [] then (s, [])
    else
      var first := CloseStep(s, results[0]);
      var rest := CloseAll(first.0, results[1..]);
      (rest.0, [first.1] + rest.1)
  }

  /** Closing twice is closing once: the second Close returns nil and
      changes nothing. */
  lemma CloseIdempotent(s: ListenerState, a: CloseResult, b: CloseResult)
    requires Valid(s)
    ensures var once := CloseStep(s, a);
      CloseStep(once.0, b) == (once.0, CloseOk)
  {
  }

  /** However many Close calls there are, the wrapped listener is closed at
      most once; from a fresh listener the first Close returns the wrapped
      listener's result and every later one returns nil; and `closed`, once
      1, stays 1. */
  lemma {:induction false} ClosesAtMostOnce(s: ListenerState, results: seq<CloseResult>)
    requires Valid(s)
    ensures var r := CloseAll(s, results);
      && Valid(r.0)
      && r.0.listenerCloses <= 1
      && (s.closed == 1 ==> r.0 == s && forall j :: 0 <= j < |r.1| ==> r.1[j] == CloseOk)
      && (s.closed == 0 && |results| > 0 ==>
            && r.0.closed == 1
            && r.1[0] == results[0]
            && forall j :: 1 <= j < |r.1| ==> r.1[j] == CloseOk)
    decreases |results|
  {
    if results != [] {
      var first := CloseStep(s, results[0]);
      ClosesAtMostOnce(first.0, results[1..]);
      var rest := CloseAll(first.0, results[1..]);
      assert CloseAll(s, results).1 == [first.1] + rest.1;
    }
  }

  // ---------------------------------------------------------------------
  // AcceptWithContext

  /** One iteration of the accept loop: whether setting the deadline
      succeeds, what Accept returns, and whether another goroutine's Close
      took effect while the iteration ran. */
  datatype AcceptStep = AcceptStep(deadlineOk: bool, io: Io<ConnId>, closedMeanwhile: bool)

  /** The calls the loop makes on the sockets, each with its result. */
  datatype ListenerCall =
    | SetDeadline(after: Duration, ok: bool)
    | AcceptCall(got: Io<ConnId>)

  datatype AcceptRun = AcceptRun(conn: Option<ConnId>, status: Status, calls: seq<ListenerCall>,
                                 state: ListenerState, next: nat)

  /** The state after an iteration: a concurrent Close, if any, applied. */
  function After(s: ListenerState, step: AcceptStep): (t: ListenerState)
    requires Valid(s)
    ensures Valid(t) && s.closed <= t.closed
  {
    if step.closedMeanwhile then CloseStep(s, CloseOk).0 else s
  }

  /** The accept loop of tlslistener.go from script position i. */
  function AcceptLoop(hb: Duration, ctx: Context, s: ListenerState, env: seq<AcceptStep>, i: nat): (r: AcceptRun)
    requires Valid(s) && i <= |env|
    ensures i <= r.next <= |env| && Valid(r.state) && s.closed <= r.state.closed
    decreases |env| - i
  {
    if s.closed == 1 then AcceptRun(None, Error(ServerClosed), [], s, i)
    else if ctx.DoneAt(i) then AcceptRun(None, Error(ContextErr(ctx.cause)), [], s, i)
    else if i == |env| then AcceptRun(None, Pending, [], s, i)
    else
      var t := After(s, env[i]);
      if !env[i].deadlineOk then
        AcceptRun(None, Error(CannotAccept(SetDeadlineFailed)), [SetDeadline(hb, false)], t, i + 1)
      else
        var attempt := [SetDeadline(hb, true), AcceptCall(env[i].io)];
        match env[i].io
        case Temporary =>
          var r := AcceptLoop(hb, ctx, t, env, i + 1);
          r.(calls := attempt + r.calls)
        case Fatal => AcceptRun(None, Error(CannotAccept(AcceptFailed)), attempt, t, i + 1)
        case Ok(c) => AcceptRun(Some(c), Nil, attempt, t, i + 1)
  }

  /** The checks come in order: a closed listener is refused before the
      context or the socket is looked at, and an open listener with a done
      context returns the context's error before any socket call. */
  lemma AcceptChecksFirst(hb: Duration, ctx: Context, s: ListenerState, env: seq<AcceptStep>, i: nat)
    requires Valid(s) && i <= |env|
    ensures var r := AcceptLoop(hb, ctx, s, env, i);
      && (s.closed == 1 ==> r == AcceptRun(None, Error(ServerClosed), [], s, i))
      && (s.closed == 0 && ctx.DoneAt(i) ==> r == AcceptRun(None, Error(ContextErr(ctx.cause)), [], s, i))
  {
  }

  /** How the accept loop ends: a connection exactly when it returns nil, the
      one the last Accept returned; each error names the check that failed. */
  lemma {:induction false} AcceptOutcomes(hb: Duration, ctx: Context, s: ListenerState,
                                          env: seq<AcceptStep>, i: nat)
    requires Valid(s) && i <= |env|
    ensures var r := AcceptLoop(hb, ctx, s, env, i);
      && (r.conn.Some? <==> r.status == Nil)
      && (r.status == Nil <==> |r.calls| > 0 && Last(r.calls).AcceptCall? && Last(r.calls).got.Ok?)
      && (r.status == Nil ==> r.conn == Some(Last(r.calls).got.value))
      && (r.status == Error(CannotAccept(SetDeadlineFailed)) <==>
            |r.calls| > 0 && Last(r.calls) == SetDeadline(hb, false))
      && (r.status == Error(CannotAccept(AcceptFailed)) <==>
            |r.calls| > 0 && Last(r.calls) == AcceptCall(Fatal))
      && (r.status.Error? ==>
            || r.status.err == ServerClosed
            || (ctx.DoneAt(r.next) && r.status.err == ContextErr(ctx.cause))
            || r.status.err.CannotAccept?)
      && (r.status == Error(ServerClosed) ==> r.state.closed == 1)
    decreases |env| - i
  {
    if s.closed == 1 || ctx.DoneAt(i) || i == |env| || !env[i].deadlineOk || !env[i].io.Temporary? {
    } else {
      var t := After(s, env[i]);
      var attempt := [SetDeadline(hb, true), AcceptCall(env[i].io)];
      AcceptOutcomes(hb, ctx, t, env, i + 1);
      var r := AcceptLoop(hb, ctx, t, env, i + 1);
      assert AcceptLoop(hb, ctx, s, env, i) == r.(calls := attempt + r.calls);
      if |r.calls| > 0 { assert Last(attempt + r.calls) == Last(r.calls); }
    }
  }

  /** Every attempt sets a deadline of now+hb first, and only a temporary
      Accept error is followed by another attempt. */
  lemma {:induction false} AcceptShape(hb: Duration, ctx: Context, s: ListenerState,
                                       env: seq<AcceptStep>, i: nat)
    requires Valid(s) && i <= |env|
    ensures var r := AcceptLoop(hb, ctx, s, env, i);
      && (forall c :: c in r.calls && c.SetDeadline? ==> c.after == hb)
      && (forall j :: 0 <= j < |r.calls| - 1 && r.calls[j].AcceptCall? ==> r.calls[j].got.Temporary?)
      && (forall j :: 0 <= j < |r.calls| && r.calls[j].AcceptCall? ==> 0 < j && r.calls[j - 1] == SetDeadline(hb, true))
    decreases |env| - i
  {
    if s.closed == 1 || ctx.DoneAt(i) || i == |env| || !env[i].deadlineOk {
    } else {
      var t := After(s, env[i]);
      var attempt := [SetDeadline(hb, true), AcceptCall(env[i].io)];
      if env[i].io.Temporary? {
        AcceptShape(hb, ctx, t, env, i + 1);
        var r := AcceptLoop(hb, ctx, t, env, i + 1);
        var all := attempt + r.calls;
        assert AcceptLoop(hb, ctx, s, env, i).calls == all;
        assert forall c :: c in all ==> c in attempt || c in r.calls;
        assert forall j :: 2 <= j < |all| ==> all[j] == r.calls[j - 2];
      } else {
        assert AcceptLoop(hb, ctx, s, env, i).calls == attempt;
      }
    }
  }


  /** One iteration of the accept loop on an open listener and a live
      context: the calls it makes and where it ends, or that it goes round
      again with the concurrent Close applied. */
  lemma AcceptIteration(hb: Duration, ctx: Context, s: ListenerState, env: seq<AcceptStep>, i: nat)
    requires Valid(s) && i < |env| && s.closed == 0 && !ctx.DoneAt(i)
    ensures var t := After(s, env[i]); var r := AcceptLoop(hb, ctx, s, env, i);
      var attempt := [SetDeadline(hb, true), AcceptCall(env[i].io)];
      && (!env[i].deadlineOk ==>
            r == AcceptRun(None, Error(CannotAccept(SetDeadlineFailed)), [SetDeadline(hb, false)], t, i + 1))
      && (env[i].deadlineOk && env[i].io.Temporary? ==>
            var tail := AcceptLoop(hb, ctx, t, env, i + 1); r == tail.(calls := attempt + tail.calls))
      && (env[i].deadlineOk && env[i].io.Fatal? ==>
            r == AcceptRun(None, Error(CannotAccept(AcceptFailed)), attempt, t, i + 1))
      && (env[i].deadlineOk && env[i].io.Ok? ==>
            r == AcceptRun(Some(env[i].io.value), Nil, attempt, t, i + 1))
  {
  }

  /** A temporary Accept error goes back to the top of the loop and reads
      the flag again: a Close that took effect meanwhile ends the call with
      ErrServerClosed before any further socket call. */
  lemma AcceptRechecksClosed(hb: Duration, ctx: Context, s: ListenerState, env: seq<AcceptStep>, i: nat)
    requires Valid(s) && i < |env| && s.closed == 0 && !ctx.DoneAt(i)
    requires env[i] == AcceptStep(true, Temporary, true)
    ensures AcceptLoop(hb, ctx, s, env, i) ==
      AcceptRun(None, Error(ServerClosed), [SetDeadline(hb, true), AcceptCall(Temporary)],
                ListenerState(1, s.listenerCloses + 1), i + 1)
  {
    var t := After(s, env[i]);
    assert t == ListenerState(1, s.listenerCloses + 1);
    assert AcceptLoop(hb, ctx, t, env, i + 1) == AcceptRun(None, Error(ServerClosed), [], t, i + 1);
  }

  /** Accept never reports a context error: Background is never done. */
  lemma {:induction false} AcceptNeverCancelled(hb: Duration, s: ListenerState, env: seq<AcceptStep>, i: nat)
    requires Valid(s) && i <= |env|
    ensures var r := AcceptLoop(hb, Background, s, env, i);
      r.status.Error? ==> r.status.err == ServerClosed || r.status.err.CannotAccept?
    decreases |env| - i
  {
    if s.closed == 1 || i == |env| || !env[i].deadlineOk || !env[i].io.Temporary? {
    } else {
      var t := After(s, env[i]);
      AcceptNeverCancelled(hb, t, env, i + 1);
    }
  }

  // ---------------------------------------------------------------------
  // The listener

  class TLSListener {
    const heartBeat: Duration
    var closed: uint32
    /** How many times the wrapped listener was closed. */
    var listenerCloses: nat

    function State(): ListenerState
      reads this
    {
      ListenerState(closed, listenerCloses)
    }

    /** NewTLSListener, once the tcp listener is bound: open. */
    constructor (heartBeat: Duration)
      ensures this.heartBeat == heartBeat && State() == Fresh
    {
      this.heartBeat := heartBeat;
      closed := 0;
      listenerCloses := 0;
    }

    /** Close; `underlying` is what closing the wrapped listener returns. */
    method Close(underlying: CloseResult) returns (err: CloseResult)
      requires Valid(State())
      modifies this
      ensures var r := CloseStep(old(State()), underlying); State() == r.0 && err == r.1
    {
      if closed != 0 {
        return CloseOk;
      }
      closed := 1;
      listenerCloses := listenerCloses + 1;
      return underlying;
    }

    /** AcceptWithContext. */
    method AcceptWithContext(ctx: Context, env: seq<AcceptStep>)
      returns (conn: Option<ConnId>, err: Status, calls: seq<ListenerCall>)
      requires Valid(State())
      modifies this
      ensures var r := AcceptLoop(heartBeat, ctx, old(State()), env, 0);
        conn == r.conn && err == r.status && calls == r.calls && State() == r.state
    {
      ghost var st := State();
      ghost var total := AcceptLoop(heartBeat, ctx, st, env, 0);
      var hb := heartBeat;
      var i: nat := 0;
      calls := [];
      while true
        invariant i <= |env| && Valid(st) && State() == st
        invariant var r := AcceptLoop(hb, ctx, st, env, i);
          total == r.(calls := calls + r.calls)
        decreases |env| - i
      {
        ghost var rest := AcceptLoop(hb, ctx, st, env, i);
        if closed == 1 {
          return None, Error(ServerClosed), calls;
        }
        if ctx.DoneAt(i) {
          return None, Error(ContextErr(ctx.cause)), calls;
        }
        if i == |env| {
          return None, Pending, calls;
        }
        var step := env[i];
        AcceptIteration(hb, ctx, st, env, i);
        if step.closedMeanwhile {
          // another goroutine's Close takes effect
          var _ := Close(CloseOk);
        }
        st := After(st, step);
        i := i + 1;
        if !step.deadlineOk {
          return None, Error(CannotAccept(SetDeadlineFailed)), calls + [SetDeadline(hb, false)];
        }
        var attempt := [SetDeadline(hb, true), AcceptCall(step.io)];
        match step.io {
          case Temporary =>
            ghost var tail := AcceptLoop(hb, ctx, st, env, i);
            AppendAssoc(calls, attempt, tail.calls);
            calls := calls + attempt;
          case Fatal =>
            return None, Error(CannotAccept(AcceptFailed)), calls + attempt;
          case Ok(c) =>
            return Some(c), Nil, calls + attempt;
        }
      }
    }

    /** Accept: AcceptWithContext with a context that is never done. */
    method Accept(env: seq<AcceptStep>) returns (conn: Option<ConnId>, err: Status, calls: seq<ListenerCall>)
      requires Valid(State())
      modifies this
      ensures var r := AcceptLoop(heartBeat, Background, old(State()), env, 0);
        conn == r.conn && err == r.status && calls == r.calls && State() == r.state
    {
      conn, err, calls := AcceptWithContext(Background, env);
    }
  }
}
