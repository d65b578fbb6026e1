/**
 * The proxy router (app/routers/proxy.py): the POST-only routes it registers, and
 * `route_and_proxy`, which reads the model table, finds the model the request
 * names, picks its upstream and hands the request to the proxy.
 */
module ProxyRouter {
  import opened Wrappers
  import opened Utf8
  import opened Config
  import opened Errors
  import Settings
  import Sniff
  import ProxyHttp
  import Upstreams
  import Public

  /** The routes `route_and_proxy` serves. */
  const ProxyPaths: seq<string> := [
    "/v1/chat/completions", "/v1/completions", "/v1/embeddings", "/v1/responses",
    "/v1/audio/transcriptions", "/v1/audio/translations",
    "/tokenize", "/detokenize", "/pooling", "/classify", "/score",
    "/rerank", "/v1/rerank", "/v2/rerank"
  ]

  /** Whether a request reaches `route_and_proxy`: only a POST to one of the paths. */
  predicate Registered(path: string, verb: string) {
    path in ProxyPaths && verb == "POST"
  }

  /** What `route_and_proxy` reads from the request. */
  datatype Incoming = Incoming(
    path: string,
    query: string,              // the raw query string, forwarded as is
    queryModel: Option<string>, // the `model` query parameter
    contentType: Option<string>,
    headers: ProxyHttp.Headers,
    body: seq<Bytes>)

  /** The router's answer: refused with an error, or handed to the proxy for `model` and its upstream. */
  datatype Routed =
    | Refused(error: ApiError)
    | Forwarded(model: string, upstream: Upstream, outcome: ProxyHttp.ProxyOutcome)

  function SniffFailure(message: string): ApiError {
    ApiError(400, message, InvalidRequest, Some("model_not_found"))
  }

  function UnknownModel(model: string): ApiError {
    ApiError(400, "Unknown model: " + model, InvalidRequest, Some("unknown_model"))
  }

  /** Reference: the model the request names, as `sniff_model_and_stream` determines it: the query
      parameter when it is non-empty, otherwise the scan of the body within the sniff limit. */
  function Named(req: Incoming, limit: int): Result<Sniff.Sniffed, string> {
    if Sniff.Truthy(req.queryModel) then Success(Sniff.Sniffed(req.queryModel.value, req.body))
    else Sniff.SniffReference(Sniff.ReaderFor(Text.Lower(req.contentType.GetOr(""))), limit, req.body)
  }

  /** `route_and_proxy(request)`, for a request the router registered. The table read is
      `table`; the sniff limit comes from `API_SNIFF_BYTES`; the upstream side of the proxy
      (capability cache, discovery answer, upstream reply) is passed in. */
  method RouteAndProxy(table: ConfigRead, req: Incoming, sniffRaw: Option<string>,
                       cache: Upstreams.CapsCache, now: real, discovery: Upstreams.DiscoveryReply,
                       reply: ProxyHttp.UpstreamReply)
    returns (r: Routed)
    ensures table.Failure? ==> r == Refused(Public.ConfigFailure(table.error))
    ensures table.Success? && Named(req, Settings.SniffLimit(sniffRaw)).Failure? ==>
      r == Refused(SniffFailure(Sniff.ModelNotFound))
    ensures table.Success? && Named(req, Settings.SniffLimit(sniffRaw)).Success? ==>
      var m := Named(req, Settings.SniffLimit(sniffRaw)).value.model;
      && (r.Forwarded? <==> HasModel(table.value, m))
      && (!HasModel(table.value, m) ==> r == Refused(UnknownModel(m)))
    ensures r.Forwarded? ==> table.Success? && r.upstream in table.value && r.upstream.model == r.model
    ensures r.Forwarded? ==> r.model == Named(req, Settings.SniffLimit(sniffRaw)).value.model
    ensures r.Forwarded? && r.outcome.sent.Some? ==>
      && r.outcome.sent.value.verb == "POST"
      && r.outcome.sent.value.body.Some?
      && Sniff.Flatten(r.outcome.sent.value.body.value) == Sniff.Flatten(req.body)
    ensures r.Forwarded? ==> r.outcome.caps == Upstreams.CapsGet(cache, r.upstream, now, discovery)
    ensures r.Forwarded? ==>
      r.outcome == ProxyHttp.ProxyHttp("POST", req.path, req.query, req.headers, r.upstream,
                                       Named(req, Settings.SniffLimit(sniffRaw)).value.body, cache, now, discovery, reply)
  {
    if table.Failure? {
      return Refused(Public.ConfigFailure(table.error));
    }
    var cfg := table.value;
    var sniffed := Sniff.SniffModelAndStream(req.queryModel, req.contentType, Settings.SniffLimit(sniffRaw), req.body);
    if sniffed.Failure? {
      return Refused(SniffFailure(sniffed.error));
    }
    var model := sniffed.value.model;
    var upstream := Lookup(cfg, model);
    if upstream.None? {
      return Refused(UnknownModel(model));
    }
    var outcome := ProxyHttp.ProxyHttp("POST", req.path, req.query, req.headers, upstream.value, sniffed.value.body,
                                       cache, now, discovery, reply);
    return Forwarded(model, upstream.value, outcome);
  }

  /** A non-empty `model` query parameter decides the model whatever the body holds; an empty one
      counts as absent. */
  lemma QueryModelWins(req: Incoming, limit: int)
    ensures req.queryModel.Some? && req.queryModel.value != "" ==> Named(req, limit) == Success(Sniff.Sniffed(req.queryModel.value, req.body))
    ensures req.queryModel == Some("") ==> Named(req, limit) == Named(req.(queryModel := None), limit)
  {
  }

  /** Only POST is routed, and only to the listed paths; a chat completion is among them, an
      image generation is not. */
  lemma RoutingTable()
    ensures forall p, v :: Registered(p, v) ==> v == "POST"
    ensures Registered("/v1/chat/completions", "POST") && !Registered("/v1/chat/completions", "GET")
    ensures !Registered("/v1/images/generations", "POST")
    ensures |ProxyPaths| == 14
  {
    assert ProxyPaths[0] == "/v1/chat/completions";
    assert "/v1/images/generations" !in ProxyPaths by {
      forall i | 0 <= i < |ProxyPaths| ensures ProxyPaths[i] != "/v1/images/generations" {
        assert ProxyPaths[i][|ProxyPaths[i]| - 1] != 's' || |ProxyPaths[i]| != 22 || ProxyPaths[i][4] != 'i';
      }
    }
  }
}
