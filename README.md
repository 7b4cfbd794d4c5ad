# CoAP transport core of fluxm2m, in Dafny

fluxm2m is an LwM2M adapter. It receives CoAP requests and answers them on
behalf of a service. This project models two layers of it.

The lower layer is the connection code from the vendored go-coap library:

- the stream connection (`net/conn.go`), with its context-bounded write,
  read and read-full loops;
- the datagram connection (`net/connUDP.go`), with its IPv4/IPv6
  classification, its unicast and multicast write loops and its read loop;
- the TLS listener (`net/tlslistener.go`), with its compare-and-swap `closed`
  flag and its accept loop;
- the DTLS session rules (`sessiondtls.go`): block-wise settings, the CoAP
  ping and pong, and closing.

The upper layer is the two CoAP handlers of the adapter (`api/transport.go`
and `lwm2m/api/transport.go`). Each handler turns one request into one
response code and zero or one service calls.

## How the model is built

Each socket call is given its answer in advance. The answers come from a
script, `env`, with one step per loop iteration: whether the deadline could
be set, and what the read, write or accept returned. A context is done from
some script position on, so a cancellation takes effect at the top of an
iteration and, once it has, stays in effect.

For every Go loop there is a function over the script. It returns the
status, the sequence of socket calls made (each with its result) and the
position where the loop stopped. The `while` loop in the class method is
proved equal to that function. The lemmas state what the loop promises:
how it can end, what each call is handed, and what reaches the peer.

Other pieces are modelled differently:

- The DTLS session rules and the handlers' decisions are pure functions.
- A handler's side effects are returned as traces: the effects the session
  asks for, and the service calls a handler makes.
- The package-level `logger` and `service` variables of the two handler
  packages are fields of a `Package` class.

Modules:

- `NetBase` holds the shared values: bytes, contexts, scripted results and
  the connection errors (one constructor per distinct `return` site).
- `Coap` holds the CoAP codes and message types.
- `StreamConn`, `DatagramConn`, `TlsListener` and `SessionDtls` model the
  four go-coap files.
- `Adapter` holds what the two handlers share: requests, responses, the
  sentinel errors and the error-to-code mapping.
- `AdapterApi` and `Lwm2mApi` model the two handlers.

## Model

| member | source | states |
|---|---|---|
| StreamConn.WriteLoop | vendor/github.com/go-ocf/go-coap/net/conn.go:48-73 | The write loop only moves forward. The count handed over never decreases, and the script position stays within the script. |
| StreamConn.WriteShape | vendor/github.com/go-ocf/go-coap/net/conn.go:52-70 | Every iteration sets a write deadline of now+heartBeat before writing. A Write follows only a deadline that was set; a failed deadline or a fatal Write is the last call. There are at most two calls per step consumed. |
| StreamConn.WriteOutcomes | vendor/github.com/go-ocf/go-coap/net/conn.go:52-72 | The write returns nil exactly when the count handed over reaches the length of the data. It fails with the deadline error exactly when the last call is a failed deadline, and with the write error exactly when the last call is a fatal Write. Any other error is the context's own error, with the context done. |
| StreamConn.WriteStopsAtCancel | vendor/github.com/go-ocf/go-coap/net/conn.go:53-57 | No step at or after the cancellation point is consumed. The loop is left pending only when the script ran out before the context was done. |
| StreamConn.WriteChunksFollow | vendor/github.com/go-ocf/go-coap/net/conn.go:62-70 | Each Write is handed exactly the part not yet written. A temporary error hands the same bytes again; a write of n bytes moves on by n. |
| StreamConn.WriteDelivers | vendor/github.com/go-ocf/go-coap/net/conn.go:48-73 | Take a socket that never reports more bytes than it was given and never reports a partial count with a temporary error. For it, a nil result means the stream received exactly the data, in order. |
| StreamConn.PartialRetryDuplicatesBytes | vendor/github.com/go-ocf/go-coap/net/conn.go:62-70 | A run of the loop as written, for any four bytes b0..b3. A temporary error that took 2 of them, then a full write, returns nil with an honest socket. The stream then carries b0,b1,b0,b1,b2,b3, which is not the data. |
| StreamConn.CorrectedWriteLoop | vendor/github.com/go-ocf/go-coap/net/conn.go:62-70 | The write loop with a temporary error's partial count added to `written`. The script position stays within the script. |
| StreamConn.CorrectedWriteDelivers | vendor/github.com/go-ocf/go-coap/net/conn.go:48-73 | For the corrected loop, any socket that never over-reports gives this guarantee: a nil result means the stream received exactly the data, in order. |
| StreamConn.ReadLoop | vendor/github.com/go-ocf/go-coap/net/conn.go:89-113 | A successful read consumed at least one step, and the position stays within the script. |
| StreamConn.ReadShape | vendor/github.com/go-ocf/go-coap/net/conn.go:98-110 | Every read is preceded by a read deadline of now+heartBeat. Every read targets the whole destination, and only a temporary error is followed by another attempt. |
| StreamConn.ReadOutcomes | vendor/github.com/go-ocf/go-coap/net/conn.go:89-113 | A read succeeds exactly when the last call is a successful Read, and it returns that Read's count. Every other outcome returns -1. Each error names its cause: the context, a failed deadline, or a fatal Read; the iffs hold for the last two. |
| StreamConn.ReadStopsAtCancel | vendor/github.com/go-ocf/go-coap/net/conn.go:91-97 | A cancellation stops the read before any step at or after it. A pending read means the script ran out. |
| StreamConn.ReadFullLoop | vendor/github.com/go-ocf/go-coap/net/conn.go:76-86 | The read-full loop keeps its script position within the script. |
| StreamConn.ReadFullCounts | vendor/github.com/go-ocf/go-coap/net/conn.go:78-84 | The final offset is the starting offset plus every count the reads returned. |
| StreamConn.ReadFullCovers | vendor/github.com/go-ocf/go-coap/net/conn.go:76-86 | Read-full returns nil exactly when the counts read fill the buffer. |
| StreamConn.ReadFullTargets | vendor/github.com/go-ocf/go-coap/net/conn.go:78-83 | Each read targets buffer[offset:], where offset is the sum of the counts before it. |
| StreamConn.ReadFullStopsAtError | vendor/github.com/go-ocf/go-coap/net/conn.go:79-82 | Read-full fails only with a wrapped read error, on a buffer not yet full. The error is that of a read that failed, and that read is the last thing done. |
| StreamConn.Conn.constructor | vendor/github.com/go-ocf/go-coap/net/conn.go:23-30 | NewConn keeps the heartbeat and uses a 2048-byte read buffer. |
| StreamConn.Conn.WriteWithContext | vendor/github.com/go-ocf/go-coap/net/conn.go:48-73 | The loop's status and calls are those of the write-loop specification. Empty data returns nil with no socket call. |
| StreamConn.Conn.ReadWithContext | vendor/github.com/go-ocf/go-coap/net/conn.go:89-113 | The count, status, calls and resume position are those of the read-loop specification. |
| StreamConn.FullStatus | vendor/github.com/go-ocf/go-coap/net/conn.go:80-82 | A failed read is reported as "cannot read full" with the read's error inside. A pending read stays pending, and only a pending read gives pending. |
| StreamConn.Conn.ReadFullWithContext | vendor/github.com/go-ocf/go-coap/net/conn.go:76-86 | The status and calls are those of the read-full specification. An empty buffer returns nil with no socket call. |
| DatagramConn.To4 | vendor/github.com/go-ocf/go-coap/net/connUDP.go:100 | A 4-byte form exists exactly for 4-byte and IPv4-mapped addresses, and it is their last four bytes. |
| DatagramConn.To16 | vendor/github.com/go-ocf/go-coap/net/connUDP.go:100 | A 16-byte form exists exactly for 4- and 16-byte addresses, and it ends with the address. |
| DatagramConn.To4OfTo16 | vendor/github.com/go-ocf/go-coap/net/connUDP.go:100 | Widening an IPv4 address gives an IPv4-mapped address, and narrowing that gives the address back. |
| DatagramConn.To16OfTo4 | vendor/github.com/go-ocf/go-coap/net/connUDP.go:100 | An address with a 4-byte form widens to the same 16 bytes as that form. |
| DatagramConn.IsIPv6 | vendor/github.com/go-ocf/go-coap/net/connUDP.go:99-104 | isIPv6 holds exactly for 16-byte addresses outside ::ffff:0:0/96. |
| DatagramConn.V4FormsAreNotIPv6 | vendor/github.com/go-ocf/go-coap/net/connUDP.go:99-104 | An IPv4 address is not IPv6, whether plain or mapped. |
| DatagramConn.IsMulticast | vendor/github.com/go-ocf/go-coap/net/connUDP.go:186 | An address is multicast exactly when it is IPv4 (plain or mapped) in 224.0.0.0/4, or IPv6 in ff00::/8. |
| DatagramConn.PacketConnFor | vendor/github.com/go-ocf/go-coap/net/connUDP.go:110-114 | NewConnUDP picks the IPv6 packet connection exactly when the local address is IPv6. |
| DatagramConn.WriteLoop | vendor/github.com/go-ocf/go-coap/net/connUDP.go:190-213 | The unicast loop keeps its script position within the script. |
| DatagramConn.WriteSucceeds | vendor/github.com/go-ocf/go-coap/net/connUDP.go:193-211 | The unicast write returns nil exactly when the counts sent, added to where it started, reach the length of the buffer. |
| DatagramConn.WriteOutcomes | vendor/github.com/go-ocf/go-coap/net/connUDP.go:193-211 | A unicast write fails with the deadline error exactly when the last call is a failed deadline. It fails with the write error exactly when the last call is a fatal write. Any other error is the done context's own error. |
| DatagramConn.WriteDelivers | vendor/github.com/go-ocf/go-coap/net/connUDP.go:193-211 | With a socket that never over-reports, a nil result means the peer was sent exactly the buffer, in order. |
| DatagramConn.WriteAddressed | vendor/github.com/go-ocf/go-coap/net/connUDP.go:199-203 | Every unicast write goes to the given peer, and the loop makes no multicast call. |
| DatagramConn.WriteStopsAtCancel | vendor/github.com/go-ocf/go-coap/net/connUDP.go:194-198 | A cancellation ends the unicast loop before any further step. A pending loop means the script ran out. |
| DatagramConn.InterfaceLoop | vendor/github.com/go-ocf/go-coap/net/connUDP.go:151-176 | The loop on one interface keeps its script position within the script. |
| DatagramConn.MulticastLoop | vendor/github.com/go-ocf/go-coap/net/connUDP.go:150-177 | The loop over the interfaces keeps its script position within the script. |
| DatagramConn.InterfaceErrors | vendor/github.com/go-ocf/go-coap/net/connUDP.go:152-176 | On one interface the only errors are the done context's own error, and a failed write deadline that is then the last call. |
| DatagramConn.MulticastErrors | vendor/github.com/go-ocf/go-coap/net/connUDP.go:150-178 | Over all interfaces, the only errors are the same two. |
| DatagramConn.MulticastOutcomes | vendor/github.com/go-ocf/go-coap/net/connUDP.go:135-179 | Each up-front check has its own error, and each holds exactly under its condition: a nil peer context, an IPv6 destination on an IPv4 connection, and no interface list. After those checks, the only errors are those of the loops. |
| DatagramConn.InterfaceCarries | vendor/github.com/go-ocf/go-coap/net/connUDP.go:163-168 | Every packet sent on an interface is the whole buffer, sent to the destination. Each carries the configured hop limit and a deadline of now+heartBeat. |
| DatagramConn.InterfaceCalls | vendor/github.com/go-ocf/go-coap/net/connUDP.go:159-174 | Every call on an interface names that interface. A failed selection or a fatal WriteTo is the last call on it. |
| DatagramConn.MulticastCalls | vendor/github.com/go-ocf/go-coap/net/connUDP.go:150-177 | On any run, including one cut short by an error, the selections never go back to an interface the loop has left. Every call carries the connection's settings. |
| DatagramConn.InterfaceTurn | vendor/github.com/go-ocf/go-coap/net/connUDP.go:151-176 | When one interface's loop moves on with bytes still to send, it leaves after one whole turn. The turn starts by selecting that interface, and every call names it. It ends at a failed selection, at a fatal WriteTo, or at a WriteTo that did not fail temporarily, and neither failure occurs earlier in the turn. The counts of the successful WriteTos before the last fall short of the bytes left. The turn reaches them exactly when it ends at a successful WriteTo, so that WriteTo completed the buffer. |
| DatagramConn.MulticastVisitsAll | vendor/github.com/go-ocf/go-coap/net/connUDP.go:150-178 | A nil loop on a non-empty buffer splits into exactly one turn per remaining interface, in list order. So every interface is selected, and a failed selection or fatal WriteTo skips to the next interface. A turn that ends at a successful WriteTo sent the whole buffer on that interface. |
| DatagramConn.MulticastInOrder | vendor/github.com/go-ocf/go-coap/net/connUDP.go:135-179 | A multicast write never goes back to an interface. Each packet is the whole buffer, sent to the destination, with the configured hop limit and deadline. |
| DatagramConn.MulticastTriesEvery | vendor/github.com/go-ocf/go-coap/net/connUDP.go:135-179 | A nil multicast write of a non-empty buffer gives every interface of the list one turn, in list order. Each turn either fails or sends the whole buffer. |
| DatagramConn.MulticastEmptyBuffer | vendor/github.com/go-ocf/go-coap/net/connUDP.go:150-152 | An empty buffer returns nil with no call, without looking at the context. |
| DatagramConn.MulticastNilWhenEveryInterfaceFails | vendor/github.com/go-ocf/go-coap/net/connUDP.go:150-178 | Suppose every interface either refuses selection or fails its WriteTo for good, in any mix. The result is still nil, every interface is selected exactly once in list order, and no packet is sent. |
| DatagramConn.WriteMulticast | vendor/github.com/go-ocf/go-coap/net/connUDP.go:135-179 | The multicast write specification: no socket call is made unless the peer context is set, the destination suits the connection, and the interface list was obtained. The script position stays within the script. |
| DatagramConn.MulticastNoSession | vendor/github.com/go-ocf/go-coap/net/connUDP.go:135-179 | A multicast write makes no unicast call. |
| DatagramConn.WriteUdp | vendor/github.com/go-ocf/go-coap/net/connUDP.go:182-214 | The dispatching write specification: a nil peer context makes no socket call. A multicast destination uses only the multicast script, any other only the unicast script. |
| DatagramConn.WriteDispatch | vendor/github.com/go-ocf/go-coap/net/connUDP.go:182-214 | A nil peer context is refused before any call. A multicast destination is exactly the multicast write, with no unicast call. Any other destination makes only unicast calls, to that peer. |
| DatagramConn.ReadLoop | vendor/github.com/go-ocf/go-coap/net/connUDP.go:217-241 | The read loop keeps its script position within the script. |
| DatagramConn.ReadOutcomes | vendor/github.com/go-ocf/go-coap/net/connUDP.go:217-241 | Every error path returns -1 and no peer. Success is exactly a successful last read, and it returns that datagram's length and sender. There is an iff for the deadline error and for the read error. The read error carries `ctx.Err()` as it stands after the read. |
| DatagramConn.ReadRetried | vendor/github.com/go-ocf/go-coap/net/connUDP.go:228-236 | Only a temporary read error is followed by another attempt, and every read is given the whole buffer. |
| DatagramConn.FatalReadLosesCause | vendor/github.com/go-ocf/go-coap/net/connUDP.go:232-237 | As written, a read that fails for good on a context that is not done reports `ctx.Err()`, which is nil. The error then carries no cause. |
| DatagramConn.CorrectedReadLoop | vendor/github.com/go-ocf/go-coap/net/connUDP.go:217-241 | The read loop with the fatal read reported by its own error. The script position stays within the script. |
| DatagramConn.CorrectedReadNamesFailure | vendor/github.com/go-ocf/go-coap/net/connUDP.go:217-241 | The corrected loop reports the read failure exactly when the last call is a read that failed for good. In every other respect it matches the loop as written. |
| DatagramConn.ConnUDP.constructor | vendor/github.com/go-ocf/go-coap/net/connUDP.go:107-118 | NewConnUDP picks the packet connection from the local address and keeps the heartbeat and the hop limit. |
| DatagramConn.ConnUDP.WriteMulticastWithContext | vendor/github.com/go-ocf/go-coap/net/connUDP.go:135-179 | The status and calls are those of `DatagramConn.WriteMulticast`. |
| DatagramConn.ConnUDP.WriteOnInterface | vendor/github.com/go-ocf/go-coap/net/connUDP.go:151-176 | The inner loop's status, calls and resume position are those of the per-interface specification. |
| DatagramConn.ConnUDP.WriteWithContext | vendor/github.com/go-ocf/go-coap/net/connUDP.go:182-214 | The status and calls are those of `DatagramConn.WriteUdp`. |
| DatagramConn.ConnUDP.WriteUnicast | vendor/github.com/go-ocf/go-coap/net/connUDP.go:190-213 | The unicast loop's status and calls are those of the unicast specification. |
| DatagramConn.ConnUDP.ReadWithContext | vendor/github.com/go-ocf/go-coap/net/connUDP.go:217-241 | The count, peer, status and calls are those of the read specification. |
| TlsListener.CloseStep | vendor/github.com/go-ocf/go-coap/net/tlslistener.go:72-77 | After Close the listener is closed. The first Close closes the wrapped listener once and returns its result. A later Close changes nothing and returns nil. |
| TlsListener.CloseAll | vendor/github.com/go-ocf/go-coap/net/tlslistener.go:72-77 | A run of Close calls gives one result per call. |
| TlsListener.CloseIdempotent | vendor/github.com/go-ocf/go-coap/net/tlslistener.go:73-75 | Closing a second time returns nil and changes nothing. |
| TlsListener.ClosesAtMostOnce | vendor/github.com/go-ocf/go-coap/net/tlslistener.go:72-77 | However many Close calls there are, the wrapped listener is closed at most once. From an open listener, the first call returns the wrapped result and every later call returns nil. From a closed listener, every call returns nil. |
| TlsListener.After | vendor/github.com/go-ocf/go-coap/net/tlslistener.go:72-77 | A concurrent Close between iterations keeps the state valid and never reopens the listener. |
| TlsListener.AcceptLoop | vendor/github.com/go-ocf/go-coap/net/tlslistener.go:36-59 | The accept loop keeps the state valid and never reopens the listener. |
| TlsListener.AcceptChecksFirst | vendor/github.com/go-ocf/go-coap/net/tlslistener.go:38-45 | A closed listener returns ErrServerClosed before looking at the context or the socket. An open listener with a done context returns the context's error before any socket call. |
| TlsListener.AcceptOutcomes | vendor/github.com/go-ocf/go-coap/net/tlslistener.go:36-58 | There is a connection exactly when the result is nil, and it is the one the last successful Accept returned. There are iffs for the deadline and accept errors. Every error is ErrServerClosed, the done context's error, or an accept failure. ErrServerClosed implies the listener is closed. |
| TlsListener.AcceptShape | vendor/github.com/go-ocf/go-coap/net/tlslistener.go:46-54 | Every deadline is now+heartBeat, and every Accept directly follows a successful deadline. Only a temporary Accept error is followed by another attempt. |
| TlsListener.AcceptRechecksClosed | vendor/github.com/go-ocf/go-coap/net/tlslistener.go:37-54 | A Close that takes effect during a temporary failure ends the next iteration with ErrServerClosed, before any further socket call. |
| TlsListener.AcceptNeverCancelled | vendor/github.com/go-ocf/go-coap/net/tlslistener.go:67-69 | Accept, which uses a context that is never done, never reports a context error. |
| TlsListener.TLSListener.constructor | vendor/github.com/go-ocf/go-coap/net/tlslistener.go:28-32 | A new listener is open and keeps the heartbeat. |
| TlsListener.TLSListener.Close | vendor/github.com/go-ocf/go-coap/net/tlslistener.go:72-77 | The new state and the result are those of the compare-and-swap Close step. |
| TlsListener.TLSListener.AcceptWithContext | vendor/github.com/go-ocf/go-coap/net/tlslistener.go:36-59 | The connection, status, calls and new state are those of the accept-loop specification. |
| TlsListener.TLSListener.Accept | vendor/github.com/go-ocf/go-coap/net/tlslistener.go:67-69 | Accept is the accept-loop specification with the background context. |
| SessionDtls.EffectiveBlockWise | vendor/github.com/go-ocf/go-coap/sessiondtls.go:20-24 | Block-wise transfer is on unless the server sets it, and then it is the server's setting. |
| SessionDtls.EffectiveSzx | vendor/github.com/go-ocf/go-coap/sessiondtls.go:21-27 | The block size is 1024 bytes unless the server sets one, and then it is the server's. |
| SessionDtls.NewSessionDTLS | vendor/github.com/go-ocf/go-coap/sessiondtls.go:19-45 | Construction fails with ErrInvalidBlockWiseSzx exactly when block-wise transfer is on with BERT. Otherwise the session holds the connection, the server, the settings in force and empty maps. |
| SessionDtls.DefaultSettings | vendor/github.com/go-ocf/go-coap/sessiondtls.go:20-27 | With nothing set, the session has block-wise transfer on and 1024-byte blocks. |
| SessionDtls.BertAcceptedWhenDisabled | vendor/github.com/go-ocf/go-coap/sessiondtls.go:29-31 | A server that turns block-wise transfer off gets a session whatever SZX it names. |
| SessionDtls.EnabledSessionIsNotBert | vendor/github.com/go-ocf/go-coap/sessiondtls.go:29-39 | A session with block-wise transfer on never holds BERT. |
| SessionDtls.BlockWiseIsValid | vendor/github.com/go-ocf/go-coap/sessiondtls.go:62-64 | An SZX is valid exactly when it is at most 1024 bytes, so BERT is never valid. |
| SessionDtls.IsTCP | vendor/github.com/go-ocf/go-coap/sessiondtls.go:113-115 | A DTLS session is never TCP. |
| SessionDtls.NewMessage | vendor/github.com/go-ocf/go-coap/sessiondtls.go:107-110 | The message has the given type, code and ID, and no token, options or payload. |
| SessionDtls.Pong | vendor/github.com/go-ocf/go-coap/sessiondtls.go:132-136 | The pong is an empty Reset that carries the request's message ID. |
| SessionDtls.SendPong | vendor/github.com/go-ocf/go-coap/sessiondtls.go:131-138 | sendPong writes exactly that pong in the request's context and returns the writer's error. |
| SessionDtls.HandleSignals | vendor/github.com/go-ocf/go-coap/sessiondtls.go:140-150 | A request is handled exactly when it is an empty Confirmable with no options and no payload. A handled request is answered with the pong; anything else has no effect. |
| SessionDtls.PingWithContext | vendor/github.com/go-ocf/go-coap/sessiondtls.go:67-86 | The ping exchanges an empty Confirmable with the given ID. An exchange error is returned unchanged. A Reset reply is success, and any other reply is ErrInvalidResponse. |
| SessionDtls.PingAnsweredByPong | vendor/github.com/go-ocf/go-coap/sessiondtls.go:67-86 | A session's ping is a signal the peer handles. The peer's pong makes the ping succeed, and the pong is not taken for a ping. |
| SessionDtls.CloseWithError | vendor/github.com/go-ocf/go-coap/sessiondtls.go:88-100 | Without a connection it returns the error and does nothing. With one it reports the session's end, then closes the connection. It returns the close error if there was one, and the given error otherwise. |
| SessionDtls.Close | vendor/github.com/go-ocf/go-coap/sessiondtls.go:103-105 | Close returns nil exactly when there is no connection or the connection closed cleanly, and otherwise the close error. |
| Adapter.Reply | api/transport.go:39-44 | The response carries the given code and echoes the request's token and context, with no options. |
| Adapter.ErrorCode | api/transport.go:75-83 | Unauthorized exactly when the error contains ErrUnauthorized. InternalServerError exactly when it contains only ErrUnsubscribe. Otherwise the code stays Content. |
| AdapterApi.Handle | api/transport.go:38-84 | The response echoes token and context and always has a response code. There is an iff for each of BadOption, NotFound, Unauthorized, InternalServerError and Content. Subscribe is called exactly for a GET with Observe 0, Unsubscribe with the token exactly for another readable Observe, and Publish exactly for a POST. Nothing is called exactly on BadOption or NotFound. |
| AdapterApi.Package.constructor | api/transport.go:19-22 | Before MakeCoAPHandler, the logger and the service are unset. |
| AdapterApi.Package.MakeCoAPHandler | api/transport.go:25-30 | MakeCoAPHandler records the service and the logger, after which the handler may run. |
| AdapterApi.Package.Handler | api/transport.go:38-84 | The handler sends exactly one response, the specified one, and makes exactly the specified service calls. |
| Lwm2mApi.Handle | lwm2m/api/transport.go:55-95 | The response echoes token and context and always has a response code. BadOption, NotFound, Unauthorized, InternalServerError and Content each hold exactly under their conditions. Publish is the only call, made exactly for a POST. |
| Lwm2mApi.HandlersAgreeOffObserve | lwm2m/api/transport.go:72-79 | The two handlers agree on every request except a GET with a readable Observe option. On that request this one answers Content and calls nothing, and the other makes one call. |
| Lwm2mApi.Package.constructor | lwm2m/api/transport.go:42-47 | Before MakeCoAPHandler, the logger and the service are unset. |
| Lwm2mApi.Package.MakeCoAPHandler | lwm2m/api/transport.go:42-47 | MakeCoAPHandler records the service and the logger, after which the handler may run. |
| Lwm2mApi.Package.Handler | lwm2m/api/transport.go:55-95 | The handler sends exactly one response, the specified one, and makes exactly the specified service calls. |

## Left out

- Pending status: the Go loops block until something happens, and the model's script is finite. `Pending` stands for "still looping when the script ran out". It is not a value the Go code returns.
- Byte contents of reads: a read's count is modelled, not the bytes it stores. The buffered reader on top of the stream socket (conn.go:27) is treated as the socket itself.
- Error texts: errors are constructors; the `fmt.Errorf` messages and their wrapped causes are not modelled. Two exceptions: read-full's error keeps the read error it wraps, and the datagram read's fatal error keeps the `ctx.Err()` it wraps, which is nil unless the context is done.
- Unreachable branches: the branches at conn.go:96 and connUDP.go:224 are not modelled. A done context always has a non-nil `ctx.Err()`, so those branches are never taken.
- Mutexes and atomics: `c.lock` and the atomic operations on `closed` are treated as sequential. Another goroutine's Close during an accept is modelled by the step's `closedMeanwhile` flag.
- Loop extraction: `DatagramConn.ConnUDP.WriteOnInterface` and `DatagramConn.ConnUDP.WriteUnicast` are loops taken out of the Go methods into methods of their own. They pass the same state.
- DatagramConn.WriteDelivers: a unicast datagram send is all-or-nothing, so the model's temporary error carries no byte count. connUDP.go:203-206 would drop such a count with `continue`, as the stream write does. The lemma therefore needs only an honest socket, with no hypothesis that a temporary error took nothing.
- Multicast partial counts: a WriteTo that reports a temporary error does not add a partial count. Each WriteTo is handed the whole buffer, as in the source.
- Delegating methods: LocalAddr, RemoteAddr, Close, SetMulticastLoopback and JoinGroup of the connections, and the packet-conn adapters of connUDP.go:26-97. They only forward to the standard library.
- Standard library: `net.IP.To4`, `To16` and `IsMulticast` are modelled after Go's definitions. `net.Interfaces()` is a parameter. The definition of ConnUDPContext is not part of this model; it is taken as the peer address.
- NewTLSListener's tcp bind and TLS wrapping (tlslistener.go:22-27): that is I/O. The constructor models the listener that results.
- DTLS session, outside the core rules: blockWiseEnabled, LocalAddr and RemoteAddr (plain getters), and WriteMsgWithContext and ExchangeWithContext (sessiondtls.go:117-129), which delegate to the connection and to the exchange machinery elsewhere in go-coap. The exchange's outcome, the writer's result and the connection's Close result are parameters.
- NotifySessionEndFunc and the client wrapper it receives are recorded as an effect only.
- SessionDtls.PingWithContext: GenerateMessageID is a parameter `id`, because it draws from a global counter.
- Observe(): how the Observe option is decoded is abstracted. The model keeps only its value, or `None` for the error it reports.
- service.Unsubscribe's token: `Token.String()` is modelled as the token bytes.
- errors.Contains: modelled as membership in the set of sentinels an error wraps.
- sendResp: its write error is only logged and changes nothing. Sending is recorded as the response sent.
- Logging, metrics (lwm2m/api/metrics.go, lwm2m/api/logging.go), MakeHTTPHandler and cmd/main.go: these are wiring and observability. They do not decide any response.
- AdapterApi.Package.Handler and Lwm2mApi.Package.Handler require `Ready()`. In the source the handler can only be obtained from MakeCoAPHandler, which sets both variables first.
- Multicast result when every interface fails: a failed SetMulticastInterface or a non-temporary WriteTo only breaks to the next interface (connUDP.go:159-161, 173), and the method returns nil after the loop (connUDP.go:178). No per-interface error is reported. `DatagramConn.MulticastNilWhenEveryInterfaceFails` states this.

## Findings

| source | as written | input that shows it | evidently intended | confidence | as-written member | corrected member |
|---|---|---|---|---|---|---|
| vendor/github.com/go-ocf/go-coap/net/conn.go:62-70 | A temporary Write error is retried with `data[written:]`, and the count `n` returned with it is ignored. Bytes the socket already took are sent again. | Any 4 bytes b0..b3. The first Write takes 2 and reports a timeout; the second takes all 4. The call returns nil and the stream carries b0,b1,b0,b1,b2,b3. | Add the partial count to `written` before retrying, so the stream carries the data once. | not executed | StreamConn.PartialRetryDuplicatesBytes | StreamConn.CorrectedWriteDelivers |
| vendor/github.com/go-ocf/go-coap/net/connUDP.go:237 | A fatal read error is reported by wrapping `ctx.Err()` instead of the read error `err`. | A ReadFromSessionUDP that fails with a non-temporary error while the context is not done. `ctx.Err()` is then nil, so the message carries no cause. | Wrap `err`, the read's own error. | not executed | DatagramConn.FatalReadLosesCause | DatagramConn.CorrectedReadNamesFailure |

`StreamConn.Conn.WriteWithContext` keeps the loop as written, because it
models the code. The corrected loop is a function of its own, and its
delivery property is proved.
