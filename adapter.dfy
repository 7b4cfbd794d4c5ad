/** What the two CoAP handlers of the adapter share: the request and
    response records of the go-coap v2 mux as the handlers use them, the
    lwm2m service's operations, and its exported errors (service.go:12-15). */
module Adapter {
  import opened NetBase
  import opened Coap

  type ContextId = nat
  type ServiceId = nat
  type LoggerId = nat

  /** A request's options as the handlers read them: only what Observe()
      returns, the option's value or None for the error it reports when the
      option is absent or is not a uint32. */
  datatype Options = Options(observe: Option<uint32>)

  /** An inbound request; `options` is None for a nil option list. */
  datatype Request = Request(code: Code, token: seq<byte>, context: ContextId, options: Option<Options>)

  /** The response a handler sends. */
  datatype Response = Response(code: Code, token: seq<byte>, context: ContextId, optionCount: nat)

  /** The sentinel errors the lwm2m service exports. */
  datatype Sentinel = ErrUnauthorized | ErrUnsubscribe

  /** What a service method returns: nil, or an error wrapping some of the
      sentinels. */
  datatype ServiceError = NoError | Failure(wraps: set<Sentinel>)

  /** errors.Contains(err, sentinel). */
  predicate Contains(err: ServiceError, s: Sentinel)
  {
    err.Failure? && s in err.wraps
  }

  datatype ServiceOp = Subscribe | Unsubscribe(token: seq<byte>) | Publish

  /** A call made on a service. */
  datatype ServiceCall = ServiceCall(service: ServiceId, op: ServiceOp)

  /** What handling one request does: the response and the service calls. */
  datatype Handled = Handled(response: Response, calls: seq<ServiceCall>)

  /** The response every handler starts from: 2.05 Content, echoing the
      request's token and context, with no options. */
  function Reply(m: Request, code: Code): (resp: Response)
    ensures resp.code == code && resp.token == m.token && resp.context == m.context
    ensures resp.optionCount == 0
  {
    Response(code, m.token, m.context, 0)
  }

  /** The code a service error turns a Content response into: Unauthorized
      when it contains ErrUnauthorized, else InternalServerError when it
      contains ErrUnsubscribe, else Content. */
  function ErrorCode(err: ServiceError): (c: Code)
    ensures c == Unauthorized <==> Contains(err, ErrUnauthorized)
    ensures c == InternalServerError <==> !Contains(err, ErrUnauthorized) && Contains(err, ErrUnsubscribe)
    ensures c == Content <==> !Contains(err, ErrUnauthorized) && !Contains(err, ErrUnsubscribe)
  {
    if Contains(err, ErrUnauthorized) then Unauthorized
    else if Contains(err, ErrUnsubscribe) then InternalServerError
    else Content
  }
}
