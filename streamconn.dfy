/** The stream connection of vendor/github.com/go-ocf/go-coap/net/conn.go:
    context-bounded write, read and read-full loops over a socket whose
    answers are given as a script of steps, one per loop iteration. */
module StreamConn {
  import opened NetBase

  /** What one Write on the underlying connection reports. A temporary error
      (a deadline that expired mid-write, say) may come with the number of
      bytes the socket had already taken. */
  datatype WriteIo = Wrote(n: nat) | WriteTemporary(partial: nat) | WriteFatal

  /** The calls the loops make on the connection, each with its result. */
  datatype Call =
    | SetWriteDeadline(after: Duration, ok: bool)
    | Write(chunk: seq<byte>, wrote: WriteIo)
    | SetReadDeadline(after: Duration, ok: bool)
    | Read(size: nat, got: Io<nat>)

  // ---------------------------------------------------------------------
  // Traces

  /** Bytes the socket reports having taken in one Write. */
  function Taken(c: Call): seq<byte>
  {
    match c
    case Write(chunk, Wrote(n)) => chunk[..Min(n, |chunk|)]
    case Write(chunk, WriteTemporary(p)) => chunk[..Min(p, |chunk|)]
    case _ => []
  }

  /** Everything the socket took, in order: what reached the stream. */
  function Delivered(calls: seq<Call>): seq<byte>
    decreases |calls|
  {
    if calls == [] then [] else Taken(calls[0]) + Delivered(calls[1..])
  }

  /** The socket keeps the io.Writer rule: it never reports more bytes than
      it was given. */
  predicate HonestWriter(calls: seq<Call>)
  {
    forall c :: c in calls ==> HonestCall(c)
  }

  predicate HonestCall(c: Call)
  {
    c.Write? ==>
      match c.wrote
      case Wrote(n) => n <= |c.chunk|
      case WriteTemporary(p) => p <= |c.chunk|
      case WriteFatal => true
  }

  /** No temporary write error came with a partial count. */
  predicate NoPartialTemporary(calls: seq<Call>)
  {
    forall c :: c in calls ==> NoPartial(c)
  }

  predicate NoPartial(c: Call)
  {
    c.Write? && c.wrote.WriteTemporary? ==> c.wrote.partial == 0
  }

  /** The write trace is a run of attempts, each a deadline of now+hb
      followed, only if that succeeded, by one Write; a failed deadline or a
      fatal Write is the last call. */
  predicate WriteAttempts(hb: Duration, calls: seq<Call>)
    decreases |calls|
  {
    || calls == []
    || calls == [SetWriteDeadline(hb, false)]
    || (&& |calls| >= 2
        && calls[0] == SetWriteDeadline(hb, true)
        && calls[1].Write?
        && (calls[1].wrote.WriteFatal? ==> |calls| == 2)
        && WriteAttempts(hb, calls[2..]))
  }

  /** Each Write is handed exactly `rest`, the part not yet written: a
      temporary error leaves it as it was, Wrote(n) drops its first n bytes. */
  predicate WritesFrom(calls: seq<Call>, rest: seq<byte>)
    decreases |calls|
  {
    calls == [] ||
    match calls[0]
    case Write(chunk, res) =>
      && chunk == rest
      && WritesFrom(calls[1..], if res.Wrote? then rest[Min(res.n, |rest|)..] else rest)
    case _ => WritesFrom(calls[1..], rest)
  }

  // ---------------------------------------------------------------------
  // WriteWithContext

  datatype WriteRun = WriteRun(status: Status, written: nat, calls: seq<Call>, next: nat)

  /** The write loop of conn.go, from `written` bytes handed over and script
      position i. */
  function WriteLoop(hb: Duration, ctx: Context, data: seq<byte>, env: seq<Step<WriteIo>>,
                     written: nat, i: nat): (r: WriteRun)
    requires i <= |env|
    ensures i <= r.next <= |env|
    ensures r.written >= written
    decreases |env| - i
  {
    if written >= |data| then WriteRun(Nil, written, [], i)
    else if ctx.DoneAt(i) then WriteRun(Error(ContextErr(ctx.cause)), written, [], i)
    else if i == |env| then WriteRun(Pending, written, [], i)
    else if !env[i].deadlineOk then
      WriteRun(Error(CannotSetWriteDeadline), written, [SetWriteDeadline(hb, false)], i + 1)
    else
      var attempt := [SetWriteDeadline(hb, true), Write(data[written..], env[i].io)];
      if env[i].io.WriteFatal? then WriteRun(Error(CannotWrite), written, attempt, i + 1)
      else
        // a temporary error drops its partial count: the same bytes go again
        var w := if env[i].io.Wrote? then written + env[i].io.n else written;
        var r := WriteLoop(hb, ctx, data, env, w, i + 1);
        r.(calls := attempt + r.calls)
  }

  /** The write trace is a run of deadline-then-write attempts, at most
      one attempt per consumed step. */
  lemma {:induction false} WriteShape(hb: Duration, ctx: Context, data: seq<byte>,
                                      env: seq<Step<WriteIo>>, written: nat, i: nat)
    requires i <= |env|
    ensures var r := WriteLoop(hb, ctx, data, env, written, i);
      WriteAttempts(hb, r.calls) && |r.calls| <= 2 * (r.next - i)
    decreases |env| - i
  {
    if written >= |data| || ctx.DoneAt(i) || i == |env| || !env[i].deadlineOk || env[i].io.WriteFatal? {
    } else {
      var attempt := [SetWriteDeadline(hb, true), Write(data[written..], env[i].io)];
      var w := if env[i].io.Wrote? then written + env[i].io.n else written;
      WriteShape(hb, ctx, data, env, w, i + 1);
      var r := WriteLoop(hb, ctx, data, env, w, i + 1);
      assert WriteLoop(hb, ctx, data, env, written, i).calls == attempt + r.calls;
      assert (attempt + r.calls)[2..] == r.calls;
    }
  }

  /** How the write loop ends: nil exactly when every byte was handed over,
      and each error names the check that failed. */
  lemma {:induction false} WriteOutcomes(hb: Duration, ctx: Context, data: seq<byte>,
                                         env: seq<Step<WriteIo>>, written: nat, i: nat)
    requires i <= |env|
    ensures var r := WriteLoop(hb, ctx, data, env, written, i);
      && (r.status == Nil <==> r.written >= |data|)
      && (r.status == Error(CannotSetWriteDeadline) <==>
            |r.calls| > 0 && Last(r.calls) == SetWriteDeadline(hb, false))
      && (r.status == Error(CannotWrite) <==>
            |r.calls| > 0 && Last(r.calls).Write? && Last(r.calls).wrote == WriteFatal)
      && (r.status.Error? ==>
            || (r.status.err.ContextErr? && ctx.DoneAt(r.next) && r.status.err.cause == ctx.cause)
            || r.status.err == CannotSetWriteDeadline
            || r.status.err == CannotWrite)
    decreases |env| - i
  {
    if written >= |data| || ctx.DoneAt(i) || i == |env| || !env[i].deadlineOk || env[i].io.WriteFatal? {
    } else {
      var attempt := [SetWriteDeadline(hb, true), Write(data[written..], env[i].io)];
      var w := if env[i].io.Wrote? then written + env[i].io.n else written;
      WriteOutcomes(hb, ctx, data, env, w, i + 1);
      var r := WriteLoop(hb, ctx, data, env, w, i + 1);
      assert WriteLoop(hb, ctx, data, env, written, i) == r.(calls := attempt + r.calls);
      if |r.calls| > 0 { assert Last(attempt + r.calls) == Last(r.calls); }
    }
  }

  /** A cancelled context is the last thing the loop looks at: no step at or
      after the cancellation is consumed, so no socket call follows it; the
      loop is left pending only when the script ran out first. */
  lemma {:induction false} WriteStopsAtCancel(hb: Duration, ctx: Context, data: seq<byte>,
                                              env: seq<Step<WriteIo>>, written: nat, i: nat)
    requires i <= |env|
    ensures var r := WriteLoop(hb, ctx, data, env, written, i);
      && (ctx.Cancellable? && i <= ctx.doneAt ==> r.next <= ctx.doneAt)
      && (r.status == Pending ==> r.next == |env| && !ctx.DoneAt(r.next))
    decreases |env| - i
  {
    if written >= |data| || ctx.DoneAt(i) || i == |env| || !env[i].deadlineOk || env[i].io.WriteFatal? {
    } else {
      var w := if env[i].io.Wrote? then written + env[i].io.n else written;
      WriteStopsAtCancel(hb, ctx, data, env, w, i + 1);
    }
  }

  /** Each socket write is given exactly data[written:]: a temporary error
      retries the same bytes, a write of n bytes moves on by n. */
  lemma {:induction false} WriteChunksFollow(hb: Duration, ctx: Context, data: seq<byte>,
                                             env: seq<Step<WriteIo>>, written: nat, i: nat)
    requires i <= |env| && written <= |data|
    ensures WritesFrom(WriteLoop(hb, ctx, data, env, written, i).calls, data[written..])
    decreases |env| - i
  {
    var whole := WriteLoop(hb, ctx, data, env, written, i);
    if written >= |data| || ctx.DoneAt(i) || i == |env| || !env[i].deadlineOk {
    } else {
      var io := env[i].io;
      var left := data[written..];
      var d := SetWriteDeadline(hb, true);
      if io.WriteFatal? {
        assert whole.calls == [d, Write(left, io)] + [];
        WritesFromAttempt(d, left, io, [], left);
      } else if io.WriteTemporary? {
        var r := WriteLoop(hb, ctx, data, env, written, i + 1);
        assert whole.calls == [d, Write(left, io)] + r.calls;
        WriteChunksFollow(hb, ctx, data, env, written, i + 1);
        WritesFromAttempt(d, left, io, r.calls, left);
      } else {
        var n := io.n;
        var r := WriteLoop(hb, ctx, data, env, written + n, i + 1);
        assert whole.calls == [d, Write(left, io)] + r.calls;
        if written + n <= |data| {
          WriteChunksFollow(hb, ctx, data, env, written + n, i + 1);
          assert Min(n, |left|) == n;
          assert left[n..] == data[written + n..];
        } else {
          assert r.calls == [];
        }
        WritesFromAttempt(d, left, io, r.calls, left[Min(n, |left|)..]);
      }
    }
  }

  /** One deadline-then-write attempt keeps WritesFrom. */
  lemma WritesFromAttempt(d: Call, left: seq<byte>, io: WriteIo, rest: seq<Call>, next: seq<byte>)
    requires d.SetWriteDeadline?
    requires next == (if io.Wrote? then left[Min(io.n, |left|)..] else left)
    requires WritesFrom(rest, next)
    ensures WritesFrom([d, Write(left, io)] + rest, left)
  {
    var all := [d, Write(left, io)] + rest;
    assert all[1..] == [Write(left, io)] + rest;
    assert all[1..][1..] == rest;
  }

  /** What one deadline-then-write attempt adds to the stream. */
  lemma DeliveredAttempt(d: Call, w: Call, rest: seq<Call>)
    requires d.SetWriteDeadline?
    ensures Delivered([d, w] + rest) == Taken(w) + Delivered(rest)
  {
    var all := [d, w] + rest;
    assert all[1..] == [w] + rest;
    assert all[1..][1..] == rest;
  }

  lemma HonestSplit(a: seq<Call>, b: seq<Call>)
    requires HonestWriter(a + b) && NoPartialTemporary(a + b)
    ensures HonestWriter(a) && HonestWriter(b) && NoPartialTemporary(a) && NoPartialTemporary(b)
  {
    assert forall c :: c in a ==> c in a + b;
    assert forall c :: c in b ==> c in a + b;
  }

  lemma HonestSplitCorrected(a: seq<Call>, b: seq<Call>)
    requires HonestWriter(a + b)
    ensures HonestWriter(a) && HonestWriter(b)
  {
    assert forall c :: c in a ==> c in a + b;
    assert forall c :: c in b ==> c in a + b;
  }

  /** An honest socket's Write of a chunk takes the first k bytes, k being
      the count it reports. */
  lemma TakenByWrite(d: Call, chunk: seq<byte>, io: WriteIo)
    requires !io.WriteFatal? && HonestWriter([d, Write(chunk, io)])
    ensures var k := if io.Wrote? then io.n else io.partial;
      k <= |chunk| && Taken(Write(chunk, io)) == chunk[..k]
  {
    assert Write(chunk, io) in [d, Write(chunk, io)];
  }

  /** The same for a socket that reports no partial count with a temporary
      error: the bytes taken are the first k, k being what the loop adds to
      `written`. */
  lemma TakenByWriteNoPartial(d: Call, chunk: seq<byte>, io: WriteIo)
    requires !io.WriteFatal? && HonestWriter([d, Write(chunk, io)]) && NoPartialTemporary([d, Write(chunk, io)])
    ensures var k := if io.Wrote? then io.n else 0;
      k <= |chunk| && Taken(Write(chunk, io)) == chunk[..k]
  {
    assert Write(chunk, io) in [d, Write(chunk, io)];
  }

  /** An attempt that took data[written:written+k], followed by calls that
      delivered data[written+k:], delivered data[written:]. */
  lemma DeliveredStep(hb: Duration, data: seq<byte>, written: nat, io: WriteIo, k: nat, rest: seq<Call>)
    requires written + k <= |data|
    requires Taken(Write(data[written..], io)) == data[written..][..k]
    requires Delivered(rest) == data[written + k..]
    ensures Delivered([SetWriteDeadline(hb, true), Write(data[written..], io)] + rest) == data[written..]
  {
    var left := data[written..];
    DeliveredAttempt(SetWriteDeadline(hb, true), Write(left, io), rest);
    assert left[k..] == data[written + k..];
    assert left == left[..k] + left[k..];
  }

  /** With a socket that keeps the io.Writer rule and never reports a
      partial count alongside a temporary error, a nil result means the
      stream received exactly data[written:], in order. */
  lemma {:induction false} WriteDelivers(hb: Duration, ctx: Context, data: seq<byte>,
                                         env: seq<Step<WriteIo>>, written: nat, i: nat)
    requires i <= |env| && written <= |data|
    ensures var r := WriteLoop(hb, ctx, data, env, written, i);
      r.status == Nil && HonestWriter(r.calls) && NoPartialTemporary(r.calls) ==>
        Delivered(r.calls) == data[written..]
    decreases |env| - i
  {
    var whole := WriteLoop(hb, ctx, data, env, written, i);
    if written >= |data| {
      assert whole.calls == [] && data[written..] == [];
    } else if ctx.DoneAt(i) || i == |env| || !env[i].deadlineOk || env[i].io.WriteFatal? {
      assert whole.status != Nil;
    } else {
      var io := env[i].io;
      var attempt := [SetWriteDeadline(hb, true), Write(data[written..], io)];
      var k: nat := if io.Wrote? then io.n else 0;
      var r := WriteLoop(hb, ctx, data, env, written + k, i + 1);
      var all := attempt + r.calls;
      assert whole == r.(calls := all);
      if r.status == Nil && HonestWriter(all) && NoPartialTemporary(all) {
        HonestSplit(attempt, r.calls);
        TakenByWriteNoPartial(SetWriteDeadline(hb, true), data[written..], io);
        WriteDelivers(hb, ctx, data, env, written + k, i + 1);
        DeliveredStep(hb, data, written, io, k, r.calls);
      }
    }
  }

  /** The loop as written drops the count that comes with a temporary error
      and resends those bytes: a socket that takes two bytes, times out, and
      then takes four puts six bytes on the stream for a four-byte message. */
  lemma PartialRetryDuplicatesBytes(hb: Duration, b0: byte, b1: byte, b2: byte, b3: byte)
    ensures
      var data := [b0, b1, b2, b3];
      var env := [Step(true, WriteTemporary(2)), Step(true, Wrote(4))];
      var r := WriteLoop(hb, Background, data, env, 0, 0);
      && r.status == Nil
      && HonestWriter(r.calls)
      && Delivered(r.calls) == [b0, b1, b0, b1, b2, b3]
      && Delivered(r.calls) != data
  {
    var data := [b0, b1, b2, b3];
    PartialRetryTrace(hb, data);
    PartialRetryDelivered(hb, data);
    assert data[..2] + data == [b0, b1, b0, b1, b2, b3];
  }

  /** The calls the loop makes for that script. */
  lemma PartialRetryTrace(hb: Duration, data: seq<byte>)
    requires |data| == 4
    ensures
      var env := [Step(true, WriteTemporary(2)), Step(true, Wrote(4))];
      WriteLoop(hb, Background, data, env, 0, 0) ==
        WriteRun(Nil, 4, [SetWriteDeadline(hb, true), Write(data, WriteTemporary(2)),
                          SetWriteDeadline(hb, true), Write(data, Wrote(4))], 2)
  {
    var env := [Step(true, WriteTemporary(2)), Step(true, Wrote(4))];
    var d := SetWriteDeadline(hb, true);
    assert WriteLoop(hb, Background, data, env, 4, 2) == WriteRun(Nil, 4, [], 2);
    assert WriteLoop(hb, Background, data, env, 0, 1) == WriteRun(Nil, 4, [d, Write(data, Wrote(4))], 2);
  }

  /** What those calls put on the stream. */
  lemma PartialRetryDelivered(hb: Duration, data: seq<byte>)
    requires |data| == 4
    ensures
      var calls := [SetWriteDeadline(hb, true), Write(data, WriteTemporary(2)),
                    SetWriteDeadline(hb, true), Write(data, Wrote(4))];
      HonestWriter(calls) && Delivered(calls) == data[..2] + data
  {
    var d := SetWriteDeadline(hb, true);
    var w1 := Write(data, WriteTemporary(2));
    var w2 := Write(data, Wrote(4));
    var calls := [d, w1, d, w2];
    assert forall c :: c in calls ==> c == d || c == w1 || c == w2;
    assert calls[1..] == [w1, d, w2] && calls[1..][1..] == [d, w2];
    assert [d, w2][1..] == [w2] && [w2][1..] == [];
    assert Delivered([w2]) == data;
    assert Delivered([d, w2]) == data;
    assert Delivered([w1, d, w2]) == data[..2] + data;
  }

  /** The write loop with the evident intent: the bytes a temporary error
      reports as taken count as written. */
  function CorrectedWriteLoop(hb: Duration, ctx: Context, data: seq<byte>, env: seq<Step<WriteIo>>,
                              written: nat, i: nat): (r: WriteRun)
    requires i <= |env|
    ensures i <= r.next <= |env|
    decreases |env| - i
  {
    if written >= |data| then WriteRun(Nil, written, [], i)
    else if ctx.DoneAt(i) then WriteRun(Error(ContextErr(ctx.cause)), written, [], i)
    else if i == |env| then WriteRun(Pending, written, [], i)
    else if !env[i].deadlineOk then
      WriteRun(Error(CannotSetWriteDeadline), written, [SetWriteDeadline(hb, false)], i + 1)
    else
      var attempt := [SetWriteDeadline(hb, true), Write(data[written..], env[i].io)];
      match env[i].io
      case WriteTemporary(p) =>
        var r := CorrectedWriteLoop(hb, ctx, data, env, written + p, i + 1);
        r.(calls := attempt + r.calls)
      case WriteFatal => WriteRun(Error(CannotWrite), written, attempt, i + 1)
      case Wrote(n) =>
        var r := CorrectedWriteLoop(hb, ctx, data, env, written + n, i + 1);
        r.(calls := attempt + r.calls)
  }

  /** For the corrected loop, a nil result with an honest socket means the
      stream received exactly data[written:], whatever the temporary errors
      reported. */
  lemma {:induction false} CorrectedWriteDelivers(hb: Duration, ctx: Context, data: seq<byte>,
                                                  env: seq<Step<WriteIo>>, written: nat, i: nat)
    requires i <= |env| && written <= |data|
    ensures var r := CorrectedWriteLoop(hb, ctx, data, env, written, i);
      r.status == Nil && HonestWriter(r.calls) ==> Delivered(r.calls) == data[written..]
    decreases |env| - i
  {
    if written >= |data| || ctx.DoneAt(i) || i == |env| || !env[i].deadlineOk || env[i].io.WriteFatal? {
    } else {
      var io := env[i].io;
      var attempt := [SetWriteDeadline(hb, true), Write(data[written..], io)];
      var k := if io.Wrote? then io.n else io.partial;
      var r := CorrectedWriteLoop(hb, ctx, data, env, written + k, i + 1);
      var all := attempt + r.calls;
      assert CorrectedWriteLoop(hb, ctx, data, env, written, i) == r.(calls := all);
      if r.status == Nil && HonestWriter(all) {
        HonestSplitCorrected(attempt, r.calls);
        TakenByWrite(SetWriteDeadline(hb, true), data[written..], io);
        CorrectedWriteDelivers(hb, ctx, data, env, written + k, i + 1);
        DeliveredStep(hb, data, written, io, k, r.calls);
      }
    }
  }

  // ---------------------------------------------------------------------
  // ReadWithContext

  datatype ReadRun = ReadRun(n: int, status: Status, calls: seq<Call>, next: nat)

  /** The read loop of conn.go on a destination of `size` bytes. */
  function ReadLoop(hb: Duration, ctx: Context, size: nat, env: seq<Step<Io<nat>>>, i: nat): (r: ReadRun)
    requires i <= |env|
    ensures i <= r.next <= |env|
    ensures r.status == Nil ==> i < r.next && r.n >= 0
    decreases |env| - i
  {
    if ctx.DoneAt(i) then ReadRun(-1, Error(ReadCancelled(ctx.cause)), [], i)
    else if i == |env| then ReadRun(-1, Pending, [], i)
    else if !env[i].deadlineOk then
      ReadRun(-1, Error(CannotSetReadDeadline), [SetReadDeadline(hb, false)], i + 1)
    else
      var attempt := [SetReadDeadline(hb, true), Read(size, env[i].io)];
      match env[i].io
      case Temporary =>
        var r := ReadLoop(hb, ctx, size, env, i + 1);
        r.(calls := attempt + r.calls)
      case Fatal => ReadRun(-1, Error(CannotRead), attempt, i + 1)
      case Ok(n) => ReadRun(n, Nil, attempt, i + 1)
  }

  /** The read trace: attempts that ended in a temporary error, then at most
      one decisive attempt; every read targets the whole destination. */
  predicate ReadAttempts(hb: Duration, size: nat, calls: seq<Call>)
    decreases |calls|
  {
    || calls == []
    || calls == [SetReadDeadline(hb, false)]
    || (&& |calls| >= 2
        && calls[0] == SetReadDeadline(hb, true)
        && calls[1].Read? && calls[1].size == size
        && if calls[1].got.Temporary? then ReadAttempts(hb, size, calls[2..]) else |calls| == 2)
  }

  /** The read trace: every read targets the whole destination, each read
      is preceded by setting a deadline of now+hb, and only a temporary
      error is followed by another attempt. */
  lemma {:induction false} ReadShape(hb: Duration, ctx: Context, size: nat,
                                     env: seq<Step<Io<nat>>>, i: nat)
    requires i <= |env|
    ensures ReadAttempts(hb, size, ReadLoop(hb, ctx, size, env, i).calls)
    decreases |env| - i
  {
    if ctx.DoneAt(i) || i == |env| || !env[i].deadlineOk || !env[i].io.Temporary? {
    } else {
      var attempt := [SetReadDeadline(hb, true), Read(size, env[i].io)];
      ReadShape(hb, ctx, size, env, i + 1);
      var r := ReadLoop(hb, ctx, size, env, i + 1);
      assert ReadLoop(hb, ctx, size, env, i).calls == attempt + r.calls;
      assert (attempt + r.calls)[2..] == r.calls;
    }
  }

  /** How a read ends: the reader's count with nil, or -1 with an error that
      names the check that failed. */
  lemma {:induction false} ReadOutcomes(hb: Duration, ctx: Context, size: nat,
                                        env: seq<Step<Io<nat>>>, i: nat)
    requires i <= |env|
    ensures var r := ReadLoop(hb, ctx, size, env, i);
      && (r.status != Nil ==> r.n == -1)
      && (r.status == Nil <==> |r.calls| > 0 && Last(r.calls).Read? && Last(r.calls).got.Ok?)
      && (r.status == Nil ==> Last(r.calls).got == Ok(r.n))
      && (r.status == Error(CannotSetReadDeadline) <==>
            |r.calls| > 0 && Last(r.calls) == SetReadDeadline(hb, false))
      && (r.status == Error(CannotRead) <==>
            |r.calls| > 0 && Last(r.calls).Read? && Last(r.calls).got.Fatal?)
      && (r.status.Error? ==>
            || (r.status.err.ReadCancelled? && ctx.DoneAt(r.next) && r.status.err.cause == ctx.cause)
            || r.status.err == CannotSetReadDeadline
            || r.status.err == CannotRead)
    decreases |env| - i
  {
    if ctx.DoneAt(i) || i == |env| || !env[i].deadlineOk || !env[i].io.Temporary? {
    } else {
      var attempt := [SetReadDeadline(hb, true), Read(size, env[i].io)];
      ReadOutcomes(hb, ctx, size, env, i + 1);
      var r := ReadLoop(hb, ctx, size, env, i + 1);
      assert ReadLoop(hb, ctx, size, env, i) == r.(calls := attempt + r.calls);
      if |r.calls| > 0 { assert Last(attempt + r.calls) == Last(r.calls); }
    }
  }

  /** A cancelled context stops the read before any step at or after the
      cancellation; the read is left pending only when the script ran out. */
  lemma {:induction false} ReadStopsAtCancel(hb: Duration, ctx: Context, size: nat,
                                             env: seq<Step<Io<nat>>>, i: nat)
    requires i <= |env|
    ensures var r := ReadLoop(hb, ctx, size, env, i);
      && (ctx.Cancellable? && i <= ctx.doneAt ==> r.next <= ctx.doneAt)
      && (r.status == Pending ==> r.next == |env| && !ctx.DoneAt(r.next))
    decreases |env| - i
  {
    if ctx.DoneAt(i) || i == |env| || !env[i].deadlineOk || !env[i].io.Temporary? {
    } else {
      ReadStopsAtCancel(hb, ctx, size, env, i + 1);
    }
  }

  // ---------------------------------------------------------------------
  // ReadFullWithContext

  /** What one call reports as read. */
  function Count(c: Call): nat
  {
    if c.Read? && c.got.Ok? then c.got.value else 0
  }

  /** Bytes the reads reported, in all. */
  function Received(calls: seq<Call>): nat
    decreases |calls|
  {
    if calls == [] then 0 else Count(calls[0]) + Received(calls[1..])
  }

  /** Each read targets buffer[offset:], where offset grows by every count
      read so far. */
  predicate ReadsFollow(calls: seq<Call>, size: nat, offset: nat)
    decreases |calls|
  {
    || calls == []
    || (&& (calls[0].Read? ==> calls[0].size == size - offset)
        && ReadsFollow(calls[1..], size, offset + Count(calls[0])))
  }

  datatype FullRun = FullRun(status: Status, offset: nat, calls: seq<Call>, next: nat)

  /** How read-full reports a read that did not return nil: an error
      wrapped, a pending read as pending. */
  function FullStatus(s: Status): (f: Status)
    ensures f == Pending <==> s == Pending
    ensures s.Error? ==> f == Error(CannotReadFull(s.err))
  {
    if s.Error? then Error(CannotReadFull(s.err)) else s
  }

  /** The read-full loop of conn.go on a buffer of `size` bytes. */
  function ReadFullLoop(hb: Duration, ctx: Context, size: nat, env: seq<Step<Io<nat>>>,
                        offset: nat, i: nat): (r: FullRun)
    requires i <= |env|
    ensures i <= r.next <= |env|
    decreases |env| - i
  {
    if offset >= size then FullRun(Nil, offset, [], i)
    else
      var rd := ReadLoop(hb, ctx, size - offset, env, i);
      if rd.status != Nil then FullRun(FullStatus(rd.status), offset, rd.calls, rd.next)
      else
        var r := ReadFullLoop(hb, ctx, size, env, offset + rd.n, rd.next);
        r.(calls := rd.calls + r.calls)
  }

  /** One read of the read-full loop. */
  lemma ReadFullUnfold(hb: Duration, ctx: Context, size: nat, env: seq<Step<Io<nat>>>, offset: nat, i: nat)
    requires i <= |env| && offset < size
    ensures var rd := ReadLoop(hb, ctx, size - offset, env, i);
      var whole := ReadFullLoop(hb, ctx, size, env, offset, i);
      && (rd.status != Nil ==> whole.status == FullStatus(rd.status) && whole.calls == rd.calls)
      && (rd.status == Nil ==>
            var r := ReadFullLoop(hb, ctx, size, env, offset + rd.n, rd.next);
            whole == r.(calls := rd.calls + r.calls))
  { }

  lemma {:induction false} ReceivedAppend(a: seq<Call>, b: seq<Call>)
    ensures Received(a + b) == Received(a) + Received(b)
    decreases |a|
  {
    if a == [] {
      assert a + b == b;
    } else {
      assert (a + b)[0] == a[0];
      assert (a + b)[1..] == a[1..] + b;
      ReceivedAppend(a[1..], b);
    }
  }

  lemma {:induction false} ReadsFollowAppend(a: seq<Call>, b: seq<Call>, size: nat, offset: nat)
    requires ReadsFollow(a, size, offset) && ReadsFollow(b, size, offset + Received(a))
    ensures ReadsFollow(a + b, size, offset)
    decreases |a|
  {
    if a == [] {
      assert a + b == b;
    } else {
      assert (a + b)[0] == a[0];
      assert (a + b)[1..] == a[1..] + b;
      ReadsFollowAppend(a[1..], b, size, offset + Count(a[0]));
    }
  }

  /** One read's trace reports a count only in its last call, when it
      succeeds. */
  lemma {:induction false} ReadCount(hb: Duration, ctx: Context, size: nat,
                                     env: seq<Step<Io<nat>>>, i: nat)
    requires i <= |env|
    ensures var rd := ReadLoop(hb, ctx, size, env, i);
      Received(rd.calls) == (if rd.status == Nil then rd.n else 0)
    decreases |env| - i
  {
    if ctx.DoneAt(i) || i == |env| {
    } else if !env[i].deadlineOk {
      var rd := ReadLoop(hb, ctx, size, env, i);
      assert rd.calls[1..] == [];
    } else {
      var attempt := [SetReadDeadline(hb, true), Read(size, env[i].io)];
      assert attempt[1..] == [attempt[1]];
      assert Received(attempt[1..]) == Count(attempt[1]);
      if env[i].io.Temporary? {
        ReadCount(hb, ctx, size, env, i + 1);
        var r := ReadLoop(hb, ctx, size, env, i + 1);
        assert ReadLoop(hb, ctx, size, env, i).calls == attempt + r.calls;
        ReceivedAppend(attempt, r.calls);
      }
    }
  }

  /** One read's calls all target buffer[offset:]. */
  lemma {:induction false} ReadTargets(hb: Duration, ctx: Context, size: nat,
                                       env: seq<Step<Io<nat>>>, i: nat, total: nat, offset: nat)
    requires i <= |env| && size == total - offset
    ensures var rd := ReadLoop(hb, ctx, size, env, i);
      && Received(rd.calls) == (if rd.status == Nil then rd.n else 0)
      && ReadsFollow(rd.calls, total, offset)
    decreases |env| - i
  {
    ReadCount(hb, ctx, size, env, i);
    if ctx.DoneAt(i) || i == |env| {
    } else if !env[i].deadlineOk {
      var rd := ReadLoop(hb, ctx, size, env, i);
      assert rd.calls[1..] == [];
    } else {
      var attempt := [SetReadDeadline(hb, true), Read(size, env[i].io)];
      assert attempt[1..] == [attempt[1]];
      assert Received(attempt[1..]) == Count(attempt[1]);
      if env[i].io.Temporary? {
        ReadTargets(hb, ctx, size, env, i + 1, total, offset);
        var r := ReadLoop(hb, ctx, size, env, i + 1);
        assert ReadLoop(hb, ctx, size, env, i).calls == attempt + r.calls;
        ReadsFollowAppend(attempt, r.calls, total, offset);
      }
    }
  }

  /** Read-full's offset is where it started plus every count read. */
  lemma {:induction false} ReadFullCounts(hb: Duration, ctx: Context, size: nat,
                                          env: seq<Step<Io<nat>>>, offset: nat, i: nat)
    requires i <= |env|
    ensures var r := ReadFullLoop(hb, ctx, size, env, offset, i);
      r.offset == offset + Received(r.calls)
    decreases |env| - i
  {
    if offset < size {
      var rd := ReadLoop(hb, ctx, size - offset, env, i);
      ReadCount(hb, ctx, size - offset, env, i);
      if rd.status == Nil {
        var mid: nat := offset + rd.n;
        var rest := ReadFullLoop(hb, ctx, size, env, mid, rd.next);
        var r := ReadFullLoop(hb, ctx, size, env, offset, i);
        assert r.offset == rest.offset && r.calls == rd.calls + rest.calls;
        ReadFullCounts(hb, ctx, size, env, mid, rd.next);
        assert rest.offset == mid + Received(rest.calls);
        ReceivedAppend(rd.calls, rest.calls);
      } else {
        var r := ReadFullLoop(hb, ctx, size, env, offset, i);
        assert r.offset == offset && r.calls == rd.calls;
        assert Received(r.calls) == 0;
        assert r.offset == offset + Received(r.calls);
      }
    } else {
      var r := ReadFullLoop(hb, ctx, size, env, offset, i);
      assert r.calls == [];
      assert r.offset == offset + Received(r.calls);
    }
  }

  /** How read-full ends: nil exactly when the counts read, added to where
      it started, reach the buffer size. */
  lemma {:induction false} ReadFullCovers(hb: Duration, ctx: Context, size: nat,
                                          env: seq<Step<Io<nat>>>, offset: nat, i: nat)
    requires i <= |env|
    ensures var r := ReadFullLoop(hb, ctx, size, env, offset, i);
      && r.offset == offset + Received(r.calls)
      && (r.status == Nil <==> r.offset >= size)
    decreases |env| - i
  {
    ReadFullCounts(hb, ctx, size, env, offset, i);
    var r := ReadFullLoop(hb, ctx, size, env, offset, i);
    if offset < size {
      var rd := ReadLoop(hb, ctx, size - offset, env, i);
      if rd.status == Nil {
        var mid: nat := offset + rd.n;
        var rest := ReadFullLoop(hb, ctx, size, env, mid, rd.next);
        assert r.status == rest.status && r.offset == rest.offset;
        ReadFullCovers(hb, ctx, size, env, mid, rd.next);
      } else {
        assert r.status != Nil && r.offset == offset;
      }
    } else {
      assert r.status == Nil && r.offset == offset;
    }
  }

  /** Every read of read-full targets buffer[offset:], offset being the sum
      of the counts read before it. */
  lemma {:induction false} ReadFullTargets(hb: Duration, ctx: Context, size: nat,
                                           env: seq<Step<Io<nat>>>, offset: nat, i: nat)
    requires i <= |env|
    ensures ReadsFollow(ReadFullLoop(hb, ctx, size, env, offset, i).calls, size, offset)
    decreases |env| - i
  {
    var r := ReadFullLoop(hb, ctx, size, env, offset, i);
    if offset < size {
      var rd := ReadLoop(hb, ctx, size - offset, env, i);
      ReadTargets(hb, ctx, size - offset, env, i, size, offset);
      if rd.status == Nil {
        var mid: nat := offset + rd.n;
        var rest := ReadFullLoop(hb, ctx, size, env, mid, rd.next);
        assert r.calls == rd.calls + rest.calls;
        ReadFullTargets(hb, ctx, size, env, mid, rd.next);
        assert mid == offset + Received(rd.calls);
        ReadsFollowAppend(rd.calls, rest.calls, size, offset);
      } else {
        assert r.calls == rd.calls;
      }
    } else {
      assert r.calls == [];
    }
  }

  /** The read that starts at script position j, on the part of a `size`-byte
      buffer after `offset`, fails with e and ends at position `next`. */
  predicate ReadFailsAt(hb: Duration, ctx: Context, size: nat, offset: nat, env: seq<Step<Io<nat>>>,
                        j: nat, e: NetError, next: nat)
  {
    && offset <= size
    && j <= |env|
    && ReadLoop(hb, ctx, size - offset, env, j).status == Error(e)
    && ReadLoop(hb, ctx, size - offset, env, j).next == next
  }

  /** Read-full stops at the first failed read: its error is that read's
      error, wrapped, and the read that failed is the last thing it did. */
  lemma {:induction false} ReadFullStopsAtError(hb: Duration, ctx: Context, size: nat,
                                                env: seq<Step<Io<nat>>>, offset: nat, i: nat)
    requires i <= |env|
    ensures var r := ReadFullLoop(hb, ctx, size, env, offset, i);
      r.status.Error? ==>
        && r.status.err.CannotReadFull?
        && r.offset < size
        && exists j :: i <= j && ReadFailsAt(hb, ctx, size, r.offset, env, j, r.status.err.inner, r.next)
    decreases |env| - i
  {
    if offset < size {
      var rd := ReadLoop(hb, ctx, size - offset, env, i);
      if rd.status == Nil {
        var rest := ReadFullLoop(hb, ctx, size, env, offset + rd.n, rd.next);
        assert ReadFullLoop(hb, ctx, size, env, offset, i) == rest.(calls := rd.calls + rest.calls);
        ReadFullStopsAtError(hb, ctx, size, env, offset + rd.n, rd.next);
      } else if rd.status.Error? {
        assert ReadFailsAt(hb, ctx, size, offset, env, i, rd.status.err, rd.next);
      }
    }
  }

  // ---------------------------------------------------------------------
  // The connection

  /** A stream connection: the socket behind it answers through the script
      passed to each call. */
  class Conn {
    const heartBeat: Duration
    const readBufferSize: nat

    /** NewConn: keeps the heartbeat and wraps the socket in a 2048-byte
        buffered reader. */
    constructor (heartBeat: Duration)
      ensures this.heartBeat == heartBeat && readBufferSize == 2048
    {
      this.heartBeat := heartBeat;
      readBufferSize := 2048;
    }

    method WriteWithContext(ctx: Context, data: seq<byte>, env: seq<Step<WriteIo>>)
      returns (err: Status, calls: seq<Call>)
      ensures var r := WriteLoop(heartBeat, ctx, data, env, 0, 0); err == r.status && calls == r.calls
      ensures |data| == 0 ==> err == Nil && calls == []
    {
      var hb := heartBeat;
      ghost var total := WriteLoop(hb, ctx, data, env, 0, 0);
      var written: nat := 0;
      var i: nat := 0;
      calls := [];
      while written < |data|
        invariant i <= |env|
        invariant var r := WriteLoop(hb, ctx, data, env, written, i);
          total == r.(calls := calls + r.calls)
        decreases |env| - i
      {
        ghost var rest := WriteLoop(hb, ctx, data, env, written, i);
        if ctx.DoneAt(i) {
          return Error(ContextErr(ctx.cause)), calls;
        }
        if i == |env| {
          return Pending, calls;
        }
        var step := env[i];
        i := i + 1;
        if !step.deadlineOk {
          return Error(CannotSetWriteDeadline), calls + [SetWriteDeadline(hb, false)];
        }
        var attempt := [SetWriteDeadline(hb, true), Write(data[written..], step.io)];
        if step.io.WriteFatal? {
          return Error(CannotWrite), calls + attempt;
        }
        // a temporary error drops its partial count: the same bytes go again
        var w: nat := if step.io.Wrote? then written + step.io.n else written;
        ghost var tail := WriteLoop(hb, ctx, data, env, w, i);
        assert rest == tail.(calls := attempt + tail.calls);
        AppendAssoc(calls, attempt, tail.calls);
        calls := calls + attempt;
        written := w;
      }
      return Nil, calls;
    }

    /** Reads into a destination of `size` bytes, consuming the script from
        position `from`; `next` is where the following call resumes. */
    method ReadWithContext(ctx: Context, size: nat, env: seq<Step<Io<nat>>>, from: nat)
      returns (n: int, err: Status, calls: seq<Call>, next: nat)
      requires from <= |env|
      ensures var r := ReadLoop(heartBeat, ctx, size, env, from);
        n == r.n && err == r.status && calls == r.calls && next == r.next
    {
      var hb := heartBeat;
      ghost var total := ReadLoop(hb, ctx, size, env, from);
      var i: nat := from;
      calls := [];
      while true
        invariant from <= i <= |env|
        invariant var r := ReadLoop(hb, ctx, size, env, i);
          total == r.(calls := calls + r.calls)
        decreases |env| - i
      {
        ghost var rest := ReadLoop(hb, ctx, size, env, i);
        if ctx.DoneAt(i) {
          return -1, Error(ReadCancelled(ctx.cause)), calls, i;
        }
        if i == |env| {
          return -1, Pending, calls, i;
        }
        var step := env[i];
        i := i + 1;
        if !step.deadlineOk {
          return -1, Error(CannotSetReadDeadline), calls + [SetReadDeadline(hb, false)], i;
        }
        var attempt := [SetReadDeadline(hb, true), Read(size, step.io)];
        match step.io {
          case Temporary =>
            ghost var tail := ReadLoop(hb, ctx, size, env, i);
            assert rest == tail.(calls := attempt + tail.calls);
            AppendAssoc(calls, attempt, tail.calls);
            calls := calls + attempt;
          case Fatal =>
            return -1, Error(CannotRead), calls + attempt, i;
          case Ok(count) =>
            return count, Nil, calls + attempt, i;
        }
      }
    }

    method ReadFullWithContext(ctx: Context, size: nat, env: seq<Step<Io<nat>>>)
      returns (err: Status, calls: seq<Call>)
      ensures var r := ReadFullLoop(heartBeat, ctx, size, env, 0, 0); err == r.status && calls == r.calls
      ensures size == 0 ==> err == Nil && calls == []
    {
      var hb := heartBeat;
      ghost var total := ReadFullLoop(hb, ctx, size, env, 0, 0);
      var offset: nat := 0;
      var i: nat := 0;
      calls := [];
      while offset < size
        invariant i <= |env|
        invariant var r := ReadFullLoop(hb, ctx, size, env, offset, i);
          total == r.(calls := calls + r.calls)
        decreases |env| - i
      {
        var n, e, cs, next := ReadWithContext(ctx, size - offset, env, i);
        ReadFullUnfold(hb, ctx, size, env, offset, i);
        if e != Nil {
          return FullStatus(e), calls + cs;
        }
        ghost var tail := ReadFullLoop(hb, ctx, size, env, offset + n, next);
        AppendAssoc(calls, cs, tail.calls);
        calls := calls + cs;
        i := next;
        offset := offset + n;
      }
      return Nil, calls;
    }
  }
}
