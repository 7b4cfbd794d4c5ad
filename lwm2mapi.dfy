/** The CoAP handler of lwm2m/api/transport.go: like the one of
    api/transport.go except that a GET only reads the Observe option and
    calls no service method. */
module Lwm2mApi {
  import opened NetBase
  import opened Coap
  import opened Adapter
  import AdapterApi

  /** handler, with `result` what Publish returns. */
  function Handle(svc: ServiceId, m: Request, result: ServiceError): (h: Handled)
    ensures h.response.token == m.token && h.response.context == m.context
    ensures h.response.optionCount == 0
    ensures IsResponseCode(h.response.code)
    ensures h.response.code == BadOption <==>
      m.options.None? || (m.code == GET && m.options.value.observe.None?)
    ensures h.response.code == NotFound <==>
      m.options.Some? && m.code != GET && m.code != POST
    ensures h.response.code == Unauthorized <==>
      m.options.Some? && m.code == POST && Contains(result, ErrUnauthorized)
    ensures h.response.code == InternalServerError <==>
      m.options.Some? && m.code == POST && !Contains(result, ErrUnauthorized) && Contains(result, ErrUnsubscribe)
    ensures h.response.code == Content <==>
      || (m.options.Some? && m.code == GET && m.options.value.observe.Some?)
      || (m.options.Some? && m.code == POST && !Contains(result, ErrUnauthorized) && !Contains(result, ErrUnsubscribe))
    ensures h.calls == [ServiceCall(svc, Publish)] <==> m.options.Some? && m.code == POST
    ensures h.calls == [] <==> !(m.options.Some? && m.code == POST)
  {
    match m.options
    case None => Handled(Reply(m, BadOption), [])
    case Some(opts) =>
      if m.code == GET then
        if opts.observe.None? then Handled(Reply(m, BadOption), [])
        else Handled(Reply(m, Content), [])
      else if m.code == POST then Handled(Reply(m, ErrorCode(result)), [ServiceCall(svc, Publish)])
      else Handled(Reply(m, NotFound), [])
  }

  /** The two handlers differ only on a GET whose Observe option can be
      read: this one answers Content and calls nothing, the other one calls
      Subscribe or Unsubscribe. */
  lemma HandlersAgreeOffObserve(svc: ServiceId, m: Request, result: ServiceError)
    ensures !(m.options.Some? && m.code == GET && m.options.value.observe.Some?) ==>
      Handle(svc, m, result) == AdapterApi.Handle(svc, m, result)
    ensures m.options.Some? && m.code == GET && m.options.value.observe.Some? ==>
      && Handle(svc, m, result).response.code == Content
      && Handle(svc, m, result).calls == []
      && |AdapterApi.Handle(svc, m, result).calls| == 1
  {
  }

  /** The package-level state of lwm2m/api/transport.go. */
  class Package {
    var logger: Option<LoggerId>
    var service: Option<ServiceId>

    constructor ()
      ensures logger == None && service == None
    {
      logger := None;
      service := None;
    }

    /** The handler may run: MakeCoAPHandler, the only way to obtain it, has
        set the service and the logger. */
    predicate Ready()
      reads this
    {
      service.Some? && logger.Some?
    }

    /** MakeCoAPHandler: record the service and the logger; the handler it
        returns is Handler below. */
    method MakeCoAPHandler(svc: ServiceId, l: LoggerId)
      modifies this
      ensures service == Some(svc) && logger == Some(l) && Ready()
    {
      logger := Some(l);
      service := Some(svc);
    }

    /** handler: the response starts as Content and is overwritten along
        the branches; the deferred sendResp sends it on every path. */
    method Handler(m: Request, result: ServiceError) returns (sent: seq<Response>, calls: seq<ServiceCall>)
      requires Ready()
      ensures var h := Handle(service.value, m, result); sent == [h.response] && calls == h.calls
    {
      var resp := Reply(m, Content);
      var err := NoError;
      calls := [];
      if m.options.None? {
        resp := resp.(code := BadOption);
      } else if m.code == GET {
        if m.options.value.observe.None? {
          resp := resp.(code := BadOption);
        }
      } else if m.code == POST {
        calls := [ServiceCall(service.value, Publish)];
        err := result;
      } else {
        resp := resp.(code := NotFound);
      }
      if err.Failure? {
        if Contains(err, ErrUnauthorized) {
          resp := resp.(code := Unauthorized);
        } else if Contains(err, ErrUnsubscribe) {
          resp := resp.(code := InternalServerError);
        }
      }
      sent := [resp];
    }
  }
}
