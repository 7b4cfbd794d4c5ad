/** The DTLS session rules of vendor/github.com/go-ocf/go-coap/sessiondtls.go:
    how a session resolves its block-wise settings, which SZX values it
    accepts, the CoAP ping it sends and the pong it answers with, and how
    closing it picks the error to return.

    Calls into the rest of go-coap (the exchange, the response writer, the
    connection's Close) are parameters holding what they return; what the
    session hands to them is recorded as a sequence of effects. */
module SessionDtls {
  import opened NetBase
  import opened Coap

  /** A block-wise SZX: the exponent of a block size of 2^(szx+4) bytes for
      0 to 6 (section 2.2 of RFC 7959). The value 7 stands for BERT
      (section 6 of RFC 8323), which only reliable transports may use. */
  newtype Szx = x: int | 0 <= x < 256

  const Szx1024: Szx := 6
  const SzxBERT: Szx := 7

  /** The errors this file builds, and errors made elsewhere that it passes
      on unchanged. */
  datatype CoapError = InvalidBlockWiseSzx | InvalidResponse | Passed(id: nat)

  /** A Go `error`: None is nil. */
  type Error = Option<CoapError>

  datatype Result<T> = Success(value: T) | Failure(error: CoapError)

  /** The server's block-wise settings; None stands for an unset (nil) setting. */
  datatype Server = Server(blockWiseTransfer: Option<bool>, blockWiseTransferSzx: Option<Szx>)

  type ConnId = nat
  type ContextId = nat
  /** A token as the session's maps key it. */
  type TokenKey = seq<byte>
  type HandlerId = nat
  type PairId = nat

  datatype Session = Session(
    connection: Option<ConnId>,
    srv: Server,
    tokenHandlers: map<TokenKey, HandlerId>,
    blockWiseTransfer: bool,
    blockWiseTransferSzx: uint32,
    mapPairs: map<TokenKey, map<uint16, PairId>>)

  /** A datagram CoAP message as the session inspects it. A nil payload and
      an empty payload are both []. */
  datatype Message = Message(
    mtype: MessageType,
    code: Code,
    messageId: uint16,
    token: seq<byte>,
    optionCount: nat,
    payload: seq<byte>)

  /** A request as a handler receives it: the message and its context. */
  datatype Request = Request(msg: Message, ctx: ContextId)

  /** What the session asks of the code around it. */
  datatype Effect =
    | Wrote(ctx: ContextId, msg: Message)       // ResponseWriter.WriteMsgWithContext
    | Exchanged(ctx: ContextId, req: Message)   // ExchangeWithContext
    | NotifiedSessionEnd(err: Error)            // srv.NotifySessionEndFunc
    | ClosedConnection(conn: ConnId)            // connection.Close

  datatype Outcome = Outcome(err: Error, effects: seq<Effect>)

  // ---------------------------------------------------------------------
  // Construction (sessiondtls.go:19-45)

  /** The block-wise switch in force: on unless the server sets it. */
  function EffectiveBlockWise(srv: Server): (enabled: bool)
    ensures srv.blockWiseTransfer.None? ==> enabled
    ensures srv.blockWiseTransfer.Some? ==> enabled == srv.blockWiseTransfer.value
  {
    match srv.blockWiseTransfer
    case None => true
    case Some(b) => b
  }

  /** The block size in force: 1024 bytes unless the server sets one. */
  function EffectiveSzx(srv: Server): (szx: Szx)
    ensures srv.blockWiseTransferSzx.None? ==> szx == Szx1024
    ensures srv.blockWiseTransferSzx.Some? ==> szx == srv.blockWiseTransferSzx.value
  {
    match srv.blockWiseTransferSzx
    case None => Szx1024
    case Some(s) => s
  }

  function NewSessionDTLS(connection: Option<ConnId>, srv: Server): (r: Result<Session>)
    ensures r.Failure? <==> EffectiveBlockWise(srv) && EffectiveSzx(srv) == SzxBERT
    ensures r.Failure? ==> r.error == InvalidBlockWiseSzx
    ensures r.Success? ==>
      && r.value.connection == connection
      && r.value.srv == srv
      && r.value.blockWiseTransfer == EffectiveBlockWise(srv)
      && r.value.blockWiseTransferSzx as int == EffectiveSzx(srv) as int
      && r.value.tokenHandlers == map[]
      && r.value.mapPairs == map[]
  {
    var enabled := EffectiveBlockWise(srv);
    var szx := EffectiveSzx(srv);
    if enabled && szx == SzxBERT then
      Failure(InvalidBlockWiseSzx)
    else
      Success(Session(connection, srv, map[], enabled, szx as int as uint32, map[]))
  }

  /** With nothing set, a session is built with block-wise transfer on and
      1024-byte blocks. */
  lemma DefaultSettings(connection: Option<ConnId>)
    ensures NewSessionDTLS(connection, Server(None, None)).Success?
    ensures NewSessionDTLS(connection, Server(None, None)).value.blockWiseTransfer
    ensures NewSessionDTLS(connection, Server(None, None)).value.blockWiseTransferSzx == Szx1024 as int as uint32
  {
  }

  /** BERT is refused only while block-wise transfer is on: a server that
      switches it off may name BERT and still gets a session. */
  lemma BertAcceptedWhenDisabled(connection: Option<ConnId>, srv: Server)
    requires srv.blockWiseTransfer == Some(false)
    ensures NewSessionDTLS(connection, srv).Success?
    ensures !NewSessionDTLS(connection, srv).value.blockWiseTransfer
  {
  }

  /** A session built with block-wise transfer on never holds BERT. */
  lemma EnabledSessionIsNotBert(connection: Option<ConnId>, srv: Server)
    requires NewSessionDTLS(connection, srv).Success?
    requires NewSessionDTLS(connection, srv).value.blockWiseTransfer
    ensures NewSessionDTLS(connection, srv).value.blockWiseTransferSzx != SzxBERT as int as uint32
  {
  }

  // ---------------------------------------------------------------------
  // Fixed answers (sessiondtls.go:62-64, 113-115)

  /** Whether a block size may travel over this session (the receiver is not
      consulted): any of the seven sizes up to 1024 bytes, never BERT. */
  function BlockWiseIsValid(szx: Szx): (valid: bool)
    ensures valid <==> szx <= Szx1024
    ensures valid ==> szx != SzxBERT
  {
    szx <= Szx1024
  }

  /** A DTLS session never runs over TCP. */
  function IsTCP(): (tcp: bool)
    ensures !tcp
  {
    false
  }

  // ---------------------------------------------------------------------
  // Messages, ping and pong (sessiondtls.go:67-86, 107-110, 131-150)

  /** NewMessage: a datagram message with the given type, code and message
      ID, no token, no options and no payload. */
  function NewMessage(t: MessageType, c: Code, id: uint16): (m: Message)
    ensures m.mtype == t && m.code == c && m.messageId == id
    ensures m.token == [] && m.optionCount == 0 && m.payload == []
  {
    Message(t, c, id, [], 0, [])
  }

  /** The pong sendPong builds: an empty Reset echoing the request's message
      ID (sections 4.2 and 4.3 of RFC 7252). */
  function Pong(r: Request): (p: Message)
    ensures p.mtype == Reset && p.code == Empty && p.messageId == r.msg.messageId
    ensures p.token == [] && p.optionCount == 0 && p.payload == []
  {
    NewMessage(Reset, Empty, r.msg.messageId)
  }

  /** sendPong: write the pong in the request's context and return what the
      writer returns. */
  function SendPong(r: Request, writeResult: Error): (o: Outcome)
    ensures o.effects == [Wrote(r.ctx, Pong(r))]
    ensures o.err == writeResult
  {
    Outcome(writeResult, [Wrote(r.ctx, Pong(r))])
  }

  datatype Signal = Signal(handled: bool, effects: seq<Effect>)

  /** handleSignals: an empty Confirmable message with no options and no
      payload is a CoAP ping; it is answered with a pong and reported as
      handled. The writer's error is dropped. Anything else is left alone. */
  function HandleSignals(r: Request, writeResult: Error): (s: Signal)
    ensures s.handled <==>
      && r.msg.code == Empty
      && r.msg.mtype == Confirmable
      && r.msg.optionCount == 0
      && |r.msg.payload| == 0
    ensures s.handled ==> s.effects == [Wrote(r.ctx, Pong(r))]
    ensures !s.handled ==> s.effects == []
  {
    if r.msg.code == Empty then
      if r.msg.mtype == Confirmable && r.msg.optionCount == 0 && |r.msg.payload| == 0 then
        Signal(true, SendPong(r, writeResult).effects)
      else
        Signal(false, [])
    else
      Signal(false, [])
  }

  /** What the exchange returns: the peer's reply, or an error. */
  datatype Exchange = Replied(resp: Message) | ExchangeFailed(error: CoapError)

  datatype Ping = Ping(request: Message, err: Error, effects: seq<Effect>)

  /** PingWithContext with message ID `id`: exchange an empty Confirmable
      request; an exchange error is returned as it is, a Reset reply is
      success and any other reply is ErrInvalidResponse. */
  function PingWithContext(ctx: ContextId, id: uint16, exchange: Exchange): (p: Ping)
    ensures p.request.mtype == Confirmable && p.request.code == Empty
    ensures p.request.messageId == id && p.request.optionCount == 0 && p.request.payload == []
    ensures p.effects == [Exchanged(ctx, p.request)]
    ensures exchange.ExchangeFailed? ==> p.err == Some(exchange.error)
    ensures exchange.Replied? ==> (p.err.None? <==> exchange.resp.mtype == Reset)
    ensures exchange.Replied? && exchange.resp.mtype != Reset ==> p.err == Some(InvalidResponse)
  {
    var req := NewMessage(Confirmable, Empty, id);
    var effects := [Exchanged(ctx, req)];
    match exchange
    case ExchangeFailed(e) => Ping(req, Some(e), effects)
    case Replied(resp) =>
      if resp.mtype == Reset then Ping(req, None, effects)
      else Ping(req, Some(InvalidResponse), effects)
  }

  /** Two DTLS sessions talk to each other: the ping one sends is a signal the
      other handles, the pong it writes back makes the ping succeed, and that
      pong is not itself taken for a ping. */
  lemma PingAnsweredByPong(ctx: ContextId, peerCtx: ContextId, id: uint16, writeResult: Error)
    ensures var req := PingWithContext(ctx, id, ExchangeFailed(InvalidResponse)).request;
      && HandleSignals(Request(req, peerCtx), writeResult).handled
      && HandleSignals(Request(req, peerCtx), writeResult).effects == [Wrote(peerCtx, Pong(Request(req, peerCtx)))]
      && PingWithContext(ctx, id, Replied(Pong(Request(req, peerCtx)))).err.None?
      && !HandleSignals(Request(Pong(Request(req, peerCtx)), ctx), writeResult).handled
  {
  }

  // ---------------------------------------------------------------------
  // Closing (sessiondtls.go:88-105)

  /** closeWithError(err), with `closeResult` what connection.Close returns:
      with a connection, report the session's end with `err`, close the
      connection and return its error, or `err` when it closed cleanly;
      without one, return `err` and do nothing. */
  function CloseWithError(s: Session, err: Error, closeResult: Error): (o: Outcome)
    ensures s.connection.None? ==> o.effects == [] && o.err == err
    ensures s.connection.Some? ==>
      o.effects == [NotifiedSessionEnd(err), ClosedConnection(s.connection.value)]
    ensures s.connection.Some? && closeResult.Some? ==> o.err == closeResult
    ensures s.connection.Some? && closeResult.None? ==> o.err == err
  {
    match s.connection
    case None => Outcome(err, [])
    case Some(c) =>
      var e := if closeResult.None? then err else closeResult;
      Outcome(e, [NotifiedSessionEnd(err), ClosedConnection(c)])
  }

  /** Close: closeWithError(nil). It returns nil unless the connection's
      Close fails, and then it returns that failure. */
  function Close(s: Session, closeResult: Error): (o: Outcome)
    ensures o.err.None? <==> s.connection.None? || closeResult.None?
    ensures o.err.Some? ==> o.err == closeResult
    ensures s.connection.Some? ==>
      o.effects == [NotifiedSessionEnd(None), ClosedConnection(s.connection.value)]
    ensures s.connection.None? ==> o.effects == []
  {
    CloseWithError(s, None, closeResult)
  }
}
