/** The API key's passage through gRPC metadata: the client puts it in the
    outgoing metadata of its call, the server reads it from the incoming
    metadata of the call it receives. */
module Auth {
  import opened Wrappers

  /** The metadata header that carries the API key. */
  const APIKeyHeader: string := "x-api-key"

  /** gRPC metadata: each header's list of values. */
  type Metadata = map<string, seq<string>>

  /** What a call context holds that the key's passage depends on: the
      metadata received with an incoming call, and the metadata to be sent
      with an outgoing one. Either may be missing. */
  datatype Context = Context(incoming: Option<Metadata>, outgoing: Option<Metadata>)

  /** `MD.Get`: a header's values, none when it is absent. */
  function Get(md: Metadata, header: string): (values: seq<string>)
    ensures header !in md ==> values == []
  {
    if header in md then md[header] else []
  }

  /** `ExtractAPIKey`: the first value of the key header of the incoming
      metadata. A context without incoming metadata and metadata without a
      value for the header are the two errors; the empty string is a value
      like any other. */
  function ExtractAPIKey(ctx: Context): (r: Outcome<string>)
    ensures ctx.incoming.None? ==> r == Err("no metadata in context")
    ensures ctx.incoming.Some? && Get(ctx.incoming.value, APIKeyHeader) == [] ==>
      r == Err("no API key in metadata")
    ensures r.Ok? <==> ctx.incoming.Some? && Get(ctx.incoming.value, APIKeyHeader) != []
    ensures r.Ok? ==> r.value in Get(ctx.incoming.value, APIKeyHeader)
    ensures r.Ok? ==> r.value == Get(ctx.incoming.value, APIKeyHeader)[0]
  {
    match ctx.incoming
    case None => Err("no metadata in context")
    case Some(md) =>
      var values := Get(md, APIKeyHeader);
      if |values| == 0 then Err("no API key in metadata")
      else Ok(values[0])
  }

  /** The outgoing metadata of a context, empty when it has none. */
  function Outgoing(ctx: Context): (md: Metadata)
    ensures ctx.outgoing.Some? ==> md == ctx.outgoing.value
  {
    match ctx.outgoing
    case None => map[]
    case Some(md) => md
  }

  /** `InjectAPIKey`: a context whose outgoing metadata is a copy of the
      caller's (or fresh metadata) in which the key header holds exactly
      `[apiKey]`, whatever it held before; every other header and the
      incoming side are kept. The caller's context is a value and is not
      changed. */
  function InjectAPIKey(ctx: Context, apiKey: string): (r: Context)
    ensures r.incoming == ctx.incoming
    ensures r.outgoing.Some?
    ensures Get(r.outgoing.value, APIKeyHeader) == [apiKey]
    ensures forall h | h != APIKeyHeader :: Get(r.outgoing.value, h) == Get(Outgoing(ctx), h)
    ensures r.outgoing.value.Keys == Outgoing(ctx).Keys + {APIKeyHeader}
  {
    var md := Outgoing(ctx);
    Context(ctx.incoming, Some(md[APIKeyHeader := [apiKey]]))
  }

  /** The context a server sees for a call: the metadata the client sent
      arrives as incoming metadata. */
  function Received(sent: Context): (ctx: Context)
    ensures ctx.incoming == sent.outgoing && ctx.outgoing.None?
  {
    Context(sent.outgoing, None)
  }

  /** Round trip: the server extracts exactly the key the client injected,
      the empty key included, whatever other metadata travelled with it. */
  lemma ExtractOfInjected(ctx: Context, apiKey: string)
    ensures ExtractAPIKey(Received(InjectAPIKey(ctx, apiKey))) == Ok(apiKey)
  {
    var sent := InjectAPIKey(ctx, apiKey);
    assert Get(sent.outgoing.value, APIKeyHeader) == [apiKey];
  }

  /** Injecting twice keeps only the later key. */
  lemma InjectReplaces(ctx: Context, first: string, second: string)
    ensures InjectAPIKey(InjectAPIKey(ctx, first), second) == InjectAPIKey(ctx, second)
  {
    var md := Outgoing(ctx);
    assert md[APIKeyHeader := [first]][APIKeyHeader := [second]] == md[APIKeyHeader := [second]];
  }
}
