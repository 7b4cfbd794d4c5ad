/** The CoAP handler of api/transport.go: one response per request, whose
    code follows from the options, the method, the Observe option and the
    error of the service method it calls. */
module AdapterApi {
  import opened NetBase
  import opened Coap
  import opened Adapter

  /** The request reaches a service method whose error decides the code:
      Subscribe for a GET with Observe 0, Publish for a POST. */
  predicate ErrorChecked(m: Request)
  {
    && m.options.Some?
    && ((m.code == GET && m.options.value.observe == Some(0)) || m.code == POST)
  }

  /** handler, with `result` what the service method it calls returns. */
  function Handle(svc: ServiceId, m: Request, result: ServiceError): (h: Handled)
    ensures h.response.token == m.token && h.response.context == m.context
    ensures h.response.optionCount == 0
    ensures IsResponseCode(h.response.code)
    ensures h.response.code == BadOption <==>
      m.options.None? || (m.code == GET && m.options.value.observe.None?)
    ensures h.response.code == NotFound <==>
      m.options.Some? && m.code != GET && m.code != POST
    ensures h.response.code == Unauthorized <==>
      ErrorChecked(m) && Contains(result, ErrUnauthorized)
    ensures h.response.code == InternalServerError <==>
      ErrorChecked(m) && !Contains(result, ErrUnauthorized) && Contains(result, ErrUnsubscribe)
    ensures h.response.code == Content <==>
      || (m.options.Some? && m.code == GET && m.options.value.observe.Some? && m.options.value.observe.value != 0)
      || (ErrorChecked(m) && !Contains(result, ErrUnauthorized) && !Contains(result, ErrUnsubscribe))
    ensures h.calls == [ServiceCall(svc, Subscribe)] <==>
      m.options.Some? && m.code == GET && m.options.value.observe == Some(0)
    ensures h.calls == [ServiceCall(svc, Unsubscribe(m.token))] <==>
      m.options.Some? && m.code == GET && m.options.value.observe.Some? && m.options.value.observe.value != 0
    ensures h.calls == [ServiceCall(svc, Publish)] <==> m.options.Some? && m.code == POST
    ensures h.calls == [] <==> h.response.code == BadOption || h.response.code == NotFound
  {
    match m.options
    case None => Handled(Reply(m, BadOption), [])
    case Some(opts) =>
      if m.code == GET then
        match opts.observe
        case None => Handled(Reply(m, BadOption), [])
        case Some(obs) =>
          if obs == 0 then Handled(Reply(m, ErrorCode(result)), [ServiceCall(svc, Subscribe)])
          else Handled(Reply(m, Content), [ServiceCall(svc, Unsubscribe(m.token))])
      else if m.code == POST then Handled(Reply(m, ErrorCode(result)), [ServiceCall(svc, Publish)])
      else Handled(Reply(m, NotFound), [])
  }

  /** The package-level state of api/transport.go. */
  class Package {
    var logger: Option<LoggerId>
    var service: Option<ServiceId>

    constructor ()
      ensures logger == None && service == None
    {
      logger := None;
      service := None;
    }

    /** The handler may run: MakeCoAPHandler, the only way to obtain it, has
        set the service and the logger. */
    predicate Ready()
      reads this
    {
      service.Some? && logger.Some?
    }

    /** MakeCoAPHandler: record the service and the logger; the handler it
        returns is Handler below. */
    method MakeCoAPHandler(svc: ServiceId, l: LoggerId)
      modifies this
      ensures service == Some(svc) && logger == Some(l) && Ready()
    {
      logger := Some(l);
      service := Some(svc);
    }

    /** handler: the response starts as Content and is overwritten along
        the branches; the deferred sendResp sends it on every path. */
    method Handler(m: Request, result: ServiceError) returns (sent: seq<Response>, calls: seq<ServiceCall>)
      requires Ready()
      ensures var h := Handle(service.value, m, result); sent == [h.response] && calls == h.calls
    {
      var resp := Reply(m, Content);
      var err := NoError;
      calls := [];
      if m.options.None? {
        resp := resp.(code := BadOption);
      } else if m.code == GET {
        var obs := m.options.value.observe;
        if obs.None? {
          resp := resp.(code := BadOption);
        } else if obs.value == 0 {
          calls := [ServiceCall(service.value, Subscribe)];
          err := result;
        } else {
          // the error Unsubscribe returns is dropped
          calls := [ServiceCall(service.value, Unsubscribe(m.token))];
        }
      } else if m.code == POST {
        calls := [ServiceCall(service.value, Publish)];
        err := result;
      } else {
        resp := resp.(code := NotFound);
      }
      if err.Failure? {
        if Contains(err, ErrUnauthorized) {
          resp := resp.(code := Unauthorized);
        } else if Contains(err, ErrUnsubscribe) {
          resp := resp.(code := InternalServerError);
        }
      }
      sent := [resp];
    }
  }
}
