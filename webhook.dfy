/** The `index()` view: answers a GET, and for a POST checks the sender's address, the
    event type, the configuration, the payload, the entry for the pushed branch and
    the signature, in that order, before starting the entry's actions. */
module Webhook {
  import opened Wrappers
  import opened Text
  import opened Digest
  import opened AllowList
  import opened Actions
  import opened Lookup

  /** Methods that reach the view. Flask answers other methods itself; HEAD is routed
      to the view along with GET. */
  datatype Method = Get | Post | Head

  /** The fields of the JSON body that the handler reads; None where a field is absent. */
  datatype Payload = Payload(name: Option<string>, owner: Option<string>, ref: Option<string>)

  /** A request, with everything the view fetches from outside passed in:
      `hookBlocks` is the network list (the override address or the service's
      metadata), `repos` the parsed repos.json (None when reading or parsing failed)
      and `payload` the parsed body (None when the body is not JSON). */
  datatype Request = Request(
    verb: Method,
    remoteAddr: Address,
    hookBlocks: seq<Network>,
    event: Option<string>,
    repos: Option<map<string, RepoConfig>>,
    payload: Option<Payload>,
    body: seq<bv8>,
    signature: Option<string>)

  /** HMAC-SHA1 hex digest of a body under a key; left uninterpreted. */
  type Hmac = (string, seq<bv8>) -> string

  /** Why the view raises instead of answering (an HTTP 500). */
  datatype Fault =
    | NoReturnValue         // neither GET nor POST: the view returns None
    | MissingPayloadField   // payload['repository']['name'], ['owner']['name'] or ['ref'] absent
    | UnboundRepo           // `ref` outside refs/heads/: `repo` read before assignment
    | MissingSignature      // key configured, no X-Hub-Signature: None.split
    | MalformedSignature    // header without '=': index 1 of the split is out of range

  /** `'OK'`; `{"msg": "Hi!"}`; `{"msg": "wrong event type"}`; `abort(403)`; an exception. */
  datatype Outcome = Ok | Hi | WrongEvent | Forbidden | Crash(fault: Fault)

  /** The answer together with the processes started while producing it. */
  datatype Response = Response(outcome: Outcome, trace: seq<Invocation>)

  /** `header.split('=')[1]`: the text between the first and the second `=`. */
  function SignatureField(header: string): (sig: Option<string>)
    ensures sig.Some? <==> '=' in header
    ensures sig.Some? ==> '=' !in sig.value
    ensures sig.Some? ==> exists i :: 0 <= i < |header| && header[i] == '=' && '=' !in header[..i]
                                      && sig.value == TakeUntil(header[i + 1..], '=')
  {
    match FirstIndex(header, '=')
    case None => None
    case Some(i) => Some(TakeUntil(header[i + 1..], '='))
  }

  /** The header the service sends, `algorithm=hexdigest`, yields the digest. */
  lemma SignatureFieldRoundTrip(algorithm: string, digest: string)
    requires '=' !in algorithm && '=' !in digest
    ensures SignatureField(algorithm + "=" + digest) == Some(digest)
  {
    var h := algorithm + "=" + digest;
    assert h[..|algorithm|] == algorithm;
    assert h[|algorithm|] == '=';
    assert h[|algorithm| + 1..] == digest;
    TakeUntilWhole(digest, '=');
  }

  /** `if key:` — a key is configured and is not the empty string. */
  predicate HasKey(c: RepoConfig)
  {
    c.key.Some? && c.key.value != ""
  }

  /** The processes started for an entry: none unless `action` is a non-empty list. */
  function ActionsOf(c: RepoConfig): (t: seq<Invocation>)
    ensures |t| == if c.action.Some? then |c.action.value| else 0
    ensures forall i :: 0 <= i < |t| ==> t[i] == Invocation(c.action.value[i], c.path)
  {
    if c.action.Some? then Trace(c.action.value, c.path) else []
  }

  /** Lines 111-161, once repos.json and the body have both been parsed. */
  function Dispatch(repos: map<string, RepoConfig>, p: Payload, body: seq<bv8>,
                    signature: Option<string>, hmac: Hmac): (r: Response)
    ensures r.outcome.Ok? || r.outcome.Forbidden? || r.outcome.Crash?
    ensures !r.outcome.Ok? ==> r.trace == []
    ensures r.outcome.Ok? ==> p.ref.Some? && HeadsPrefix <= p.ref.value
  {
    if p.name.None? || p.owner.None? || p.ref.None? then Response(Crash(MissingPayloadField), [])
    else match Resolve(repos, p.owner.value, p.name.value, p.ref.value)
      case Unbound => Response(Crash(UnboundRepo), [])
      case NotFound => Response(Forbidden, [])
      case Found(c) =>
        if !HasKey(c) then Response(Ok, ActionsOf(c))
        else if signature.None? then Response(Crash(MissingSignature), [])
        else match SignatureField(signature.value)
          case None => Response(Crash(MalformedSignature), [])
          case Some(sig) =>
            if Matches(hmac(c.key.value, body), sig) then Response(Ok, ActionsOf(c))
            else Response(Forbidden, [])
  }

  /** The whole view, as a decision on the request. */
  function Handle(req: Request, hmac: Hmac): (resp: Response)
    ensures resp.outcome != Ok ==> resp.trace == []
    ensures resp.trace != [] ==>
              req.verb == Post && Allowed(req.remoteAddr, req.hookBlocks) && req.event == Some("push")
  {
    match req.verb
    case Get => Response(Ok, [])
    case Head => Response(Crash(NoReturnValue), [])
    case Post =>
      if !Allowed(req.remoteAddr, req.hookBlocks) then Response(Forbidden, [])
      else if req.event == Some("ping") then Response(Hi, [])
      else if req.event != Some("push") then Response(WrongEvent, [])
      else if req.repos.None? then Response(Forbidden, [])
      else if req.payload.None? then Response(Forbidden, [])
      else Dispatch(req.repos.value, req.payload.value, req.body, req.signature, hmac)
  }

  /** The view as the code runs it: the block scan, the digest comparison and the
      action loop are the loops above. */
  method Index(req: Request, hmac: Hmac) returns (resp: Response)
    ensures resp == Handle(req, hmac)
  {
    if req.verb == Get {
      return Response(Ok, []);
    } else if req.verb != Post {
      return Response(Crash(NoReturnValue), []);
    }
    var allowed := IsAllowed(req.remoteAddr, req.hookBlocks);
    if !allowed {
      return Response(Forbidden, []);
    }
    if req.event == Some("ping") {
      return Response(Hi, []);
    }
    if req.event != Some("push") {
      return Response(WrongEvent, []);
    }
    if req.repos.None? || req.payload.None? {
      return Response(Forbidden, []);
    }
    var repos, p := req.repos.value, req.payload.value;
    if p.name.None? || p.owner.None? || p.ref.None? {
      return Response(Crash(MissingPayloadField), []);
    }
    var found := Resolve(repos, p.owner.value, p.name.value, p.ref.value);
    if found.Unbound? {
      return Response(Crash(UnboundRepo), []);
    } else if found.NotFound? {
      return Response(Forbidden, []);
    }
    var c := found.config;
    if HasKey(c) {
      if req.signature.None? {
        return Response(Crash(MissingSignature), []);
      }
      var sig := SignatureField(req.signature.value);
      if sig.None? {
        return Response(Crash(MalformedSignature), []);
      }
      ghost var visited;
      var equal;
      equal, visited := CompareDigest(hmac(c.key.value, req.body), sig.value);
      if !equal {
        return Response(Forbidden, []);
      }
    }
    var trace: seq<Invocation> := [];
    if c.action.Some? {
      trace := RunAll(c.action.value, c.path);
    }
    resp := Response(Ok, trace);
  }
}
