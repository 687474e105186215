/** The server's authentication gate, applied before every unary and every
    streaming call: a call without an API key is unauthenticated, a call
    whose key the validator rejects is denied, and any other call reaches
    its handler untouched. The validator is any verdict on a key, such as
    the key store's (`KeyStore.Accepts`). */
module Interceptor {
  import opened Wrappers
  import opened Auth
  import KeyStore

  /** The two gRPC status codes the gate produces. */
  datatype Code = Unauthenticated | PermissionDenied

  datatype Status = Status(code: Code, message: string)

  /** What an intercepted call returns: the gate's error status, or, when
      the call passed, whatever its handler returned. */
  datatype Answer<T> = Rejected(status: Status) | Handled(result: T)

  const MissingKey: Status := Status(Unauthenticated, "missing API key")
  const InvalidKey: Status := Status(PermissionDenied, "invalid API key")

  /** The gate's verdict on a call context: the status rejecting it, or
      none when the call may proceed. */
  function Gate(validator: string -> bool, ctx: Context): (s: Option<Status>)
    ensures ExtractAPIKey(ctx).Err? ==> s == Some(MissingKey)
    ensures ExtractAPIKey(ctx).Ok? ==>
      (s == Some(InvalidKey) <==> !validator(ExtractAPIKey(ctx).value))
    ensures s.None? <==> ExtractAPIKey(ctx).Ok? && validator(ExtractAPIKey(ctx).value)
  {
    match ExtractAPIKey(ctx)
    case Err(_) => Some(MissingKey)
    case Ok(apiKey) => if validator(apiKey) then None else Some(InvalidKey)
  }

  /** `UnaryServerInterceptor`: the gate, then the handler with the
      unchanged context and request. */
  function Unary<Req, T>(validator: string -> bool, ctx: Context, req: Req, handler: (Context, Req) -> T): (a: Answer<T>)
    ensures a.Rejected? <==> Gate(validator, ctx).Some?
    ensures a.Rejected? ==> a.status == Gate(validator, ctx).value
    ensures a.Handled? ==> a.result == handler(ctx, req)
  {
    match Gate(validator, ctx)
    case Some(status) => Rejected(status)
    case None => Handled(handler(ctx, req))
  }

  /** The server side of a stream: its context. */
  datatype ServerStream = ServerStream(ctx: Context)

  /** `StreamServerInterceptor`: the gate on the stream's context, then the
      handler with the unchanged server and stream. */
  function Stream<Srv, T>(validator: string -> bool, srv: Srv, ss: ServerStream, handler: (Srv, ServerStream) -> T): (a: Answer<T>)
    ensures a.Rejected? <==> Gate(validator, ss.ctx).Some?
    ensures a.Rejected? ==> a.status == Gate(validator, ss.ctx).value
    ensures a.Handled? ==> a.result == handler(srv, ss)
  {
    match Gate(validator, ss.ctx)
    case Some(status) => Rejected(status)
    case None => Handled(handler(srv, ss))
  }

  /** A call without a key is rejected as unauthenticated whatever the
      validator would say: the validator is not consulted. */
  lemma MissingKeyIgnoresValidator<Req, T>(v1: string -> bool, v2: string -> bool, ctx: Context, req: Req, handler: (Context, Req) -> T)
    requires ExtractAPIKey(ctx).Err?
    ensures Unary(v1, ctx, req, handler) == Unary(v2, ctx, req, handler) == Rejected(MissingKey)
  {
  }

  /** The stream gate makes the same decision as the unary gate, in the
      same order, for a call with the same context. */
  lemma StreamAgreesWithUnary<Req, Srv, T>(validator: string -> bool, ss: ServerStream, req: Req, srv: Srv,
                                          unary: (Context, Req) -> T, stream: (Srv, ServerStream) -> T)
    ensures Unary(validator, ss.ctx, req, unary).Rejected? == Stream(validator, srv, ss, stream).Rejected?
    ensures Unary(validator, ss.ctx, req, unary).Rejected? ==>
      Unary(validator, ss.ctx, req, unary) == Stream(validator, srv, ss, stream)
  {
  }

  /** With the key store as validator, an empty store denies every call
      that carries a key, the empty key included. */
  lemma EmptyStoreDenies<Req, T>(keys: map<string, KeyStore.KeyInfo>, ctx: Context, req: Req, handler: (Context, Req) -> T)
    requires |keys| == 0
    requires ExtractAPIKey(ctx).Ok?
    ensures Unary(c => KeyStore.Accepts(keys, c), ctx, req, handler) == Rejected(InvalidKey)
  {
    KeyStore.EmptyRejectsAll(keys, ExtractAPIKey(ctx).value);
  }

  /** End to end: a client call that injected `apiKey` reaches the handler
      exactly when the store holds that key. */
  lemma InjectedKeyPasses<Req, T>(keys: map<string, KeyStore.KeyInfo>, sent: Context, apiKey: string, req: Req, handler: (Context, Req) -> T)
    ensures var ctx := Received(InjectAPIKey(sent, apiKey));
      Unary(c => KeyStore.Accepts(keys, c), ctx, req, handler).Handled? <==> apiKey in keys
  {
    ExtractOfInjected(sent, apiKey);
  }
}
