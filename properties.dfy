/** What the view guarantees, stated over the decision function `Handle`. */
module Properties {
  import opened Wrappers
  import opened Digest
  import opened AllowList
  import opened Actions
  import opened Lookup
  import opened Webhook

  /** A POST that has passed the block scan and carries a push event. */
  predicate PushAdmitted(req: Request)
  {
    req.verb == Post && Allowed(req.remoteAddr, req.hookBlocks) && req.event == Some("push")
  }

  /** A GET is answered `'OK'` and nothing runs. */
  lemma GetAnswersOk(req: Request, hmac: Hmac)
    requires req.verb == Get
    ensures Handle(req, hmac) == Response(Ok, [])
  {
  }

  /** A POST from outside every block is refused, whatever else it carries: the scan
      comes before the event, the configuration, the payload and the signature. */
  lemma ForeignSenderRefused(req: Request, hmac: Hmac, event: Option<string>,
                             repos: Option<map<string, RepoConfig>>, payload: Option<Payload>,
                             body: seq<bv8>, signature: Option<string>, hmac': Hmac)
    requires req.verb == Post && !Allowed(req.remoteAddr, req.hookBlocks)
    ensures Handle(req, hmac) == Response(Forbidden, [])
    ensures Handle(req.(event := event, repos := repos, payload := payload, body := body,
                        signature := signature), hmac') == Response(Forbidden, [])
  {
  }

  /** With no blocks every POST is refused. */
  lemma EmptyBlockListRefuses(req: Request, hmac: Hmac)
    requires req.verb == Post && req.hookBlocks == []
    ensures Handle(req, hmac) == Response(Forbidden, [])
  {
  }

  /** An admitted ping is answered `{"msg": "Hi!"}` without reading the configuration,
      the payload or the signature. */
  lemma PingAnswersHi(req: Request, hmac: Hmac, repos: Option<map<string, RepoConfig>>,
                      payload: Option<Payload>, body: seq<bv8>, signature: Option<string>)
    requires req.verb == Post && Allowed(req.remoteAddr, req.hookBlocks) && req.event == Some("ping")
    ensures Handle(req.(repos := repos, payload := payload, body := body, signature := signature), hmac)
            == Response(Hi, [])
  {
  }

  /** Any other event besides push (a missing header included) is answered
      `{"msg": "wrong event type"}`, again without reading anything else. */
  lemma OtherEventIgnored(req: Request, hmac: Hmac, repos: Option<map<string, RepoConfig>>,
                          payload: Option<Payload>, body: seq<bv8>, signature: Option<string>)
    requires req.verb == Post && Allowed(req.remoteAddr, req.hookBlocks)
    requires req.event != Some("ping") && req.event != Some("push")
    ensures Handle(req.(repos := repos, payload := payload, body := body, signature := signature), hmac)
            == Response(WrongEvent, [])
  {
  }

  /** An unreadable repos.json refuses the push, whatever the body is: the file is
      loaded before the body is parsed. */
  lemma ConfigFailureRefuses(req: Request, hmac: Hmac, payload: Option<Payload>)
    requires PushAdmitted(req) && req.repos.None?
    ensures Handle(req.(payload := payload), hmac) == Response(Forbidden, [])
  {
  }

  /** A body that is not JSON refuses the push. */
  lemma PayloadFailureRefuses(req: Request, hmac: Hmac)
    requires PushAdmitted(req) && req.repos.Some? && req.payload.None?
    ensures Handle(req, hmac) == Response(Forbidden, [])
  {
  }

  /** A push whose ref is not a branch makes the view raise, since `repo` is read
      before it is ever assigned; it is not a 403. */
  lemma NonBranchRefFaults(req: Request, hmac: Hmac)
    requires PushAdmitted(req) && req.repos.Some? && req.payload.Some?
    requires var p := req.payload.value; p.name.Some? && p.owner.Some? && p.ref.Some?
    requires !(HeadsPrefix <= req.payload.value.ref.value)
    ensures Handle(req, hmac) == Response(Crash(UnboundRepo), [])
  {
  }

  /** A push to a branch ref with no non-empty entry under either key is refused and
      nothing runs. */
  lemma NoEntryRefuses(req: Request, hmac: Hmac)
    requires PushAdmitted(req) && req.repos.Some? && req.payload.Some?
    requires var p := req.payload.value; p.name.Some? && p.owner.Some? && p.ref.Some?
    requires HeadsPrefix <= req.payload.value.ref.value
    requires var repos, p := req.repos.value, req.payload.value;
      !Truthy(GetEntry(repos, BranchKey(p.owner.value, p.name.value, ParseBranch(p.ref.value).value))) &&
      !Truthy(GetEntry(repos, RepoKey(p.owner.value, p.name.value)))
    ensures Handle(req, hmac) == Response(Forbidden, [])
  {
  }

  /** A HEAD request reaches the view, which returns nothing: an exception. */
  lemma HeadHasNoResponse(req: Request, hmac: Hmac)
    requires req.verb == Head
    ensures Handle(req, hmac) == Response(Crash(NoReturnValue), [])
  {
  }

  /** An admitted push whose body lacks the repository name, the owner name or the
      ref makes the view raise before any lookup. */
  lemma MissingFieldFaults(req: Request, hmac: Hmac)
    requires PushAdmitted(req) && req.repos.Some? && req.payload.Some?
    requires var p := req.payload.value; p.name.None? || p.owner.None? || p.ref.None?
    ensures Handle(req, hmac) == Response(Crash(MissingPayloadField), [])
  {
  }

  /** A keyed entry and no `X-Hub-Signature` header: `None.split` raises; this is
      not a 403. */
  lemma KeyedEntryWithoutHeaderFaults(req: Request, hmac: Hmac, c: RepoConfig)
    requires PushAdmitted(req) && req.repos.Some? && req.payload.Some?
    requires var p := req.payload.value; p.name.Some? && p.owner.Some? && p.ref.Some?
    requires var p := req.payload.value;
      Resolve(req.repos.value, p.owner.value, p.name.value, p.ref.value) == Found(c)
    requires HasKey(c) && req.signature.None?
    ensures Handle(req, hmac) == Response(Crash(MissingSignature), [])
  {
  }

  /** A keyed entry and a header without `=`: `split('=')[1]` is out of range. */
  lemma KeyedEntryMalformedHeaderFaults(req: Request, hmac: Hmac, c: RepoConfig, header: string)
    requires PushAdmitted(req) && req.repos.Some? && req.payload.Some?
    requires var p := req.payload.value; p.name.Some? && p.owner.Some? && p.ref.Some?
    requires var p := req.payload.value;
      Resolve(req.repos.value, p.owner.value, p.name.value, p.ref.value) == Found(c)
    requires HasKey(c) && req.signature == Some(header) && '=' !in header
    ensures Handle(req, hmac) == Response(Crash(MalformedSignature), [])
  {
  }

  /** For an entry with a key, the actions run exactly when the digest of the body
      under the key equals the signature taken from the header; otherwise the push
      is refused and nothing runs. */
  lemma KeyedEntryChecksSignature(req: Request, hmac: Hmac, c: RepoConfig, header: string)
    requires PushAdmitted(req) && req.repos.Some? && req.payload.Some?
    requires var p := req.payload.value; p.name.Some? && p.owner.Some? && p.ref.Some?
    requires var p := req.payload.value;
      Resolve(req.repos.value, p.owner.value, p.name.value, p.ref.value) == Found(c)
    requires HasKey(c) && req.signature == Some(header) && '=' in header
    ensures var sig := SignatureField(header).value;
      Handle(req, hmac) ==
        if hmac(c.key.value, req.body) == sig then Response(Ok, ActionsOf(c)) else Response(Forbidden, [])
  {
    MatchesIsEquality(hmac(c.key.value, req.body), SignatureField(header).value);
  }

  /** The service's own header `sha1=<digest of the body>` lets a keyed push through. */
  lemma GenuineSignatureAccepted(req: Request, hmac: Hmac, c: RepoConfig)
    requires PushAdmitted(req) && req.repos.Some? && req.payload.Some?
    requires var p := req.payload.value; p.name.Some? && p.owner.Some? && p.ref.Some?
    requires var p := req.payload.value;
      Resolve(req.repos.value, p.owner.value, p.name.value, p.ref.value) == Found(c)
    requires HasKey(c) && '=' !in hmac(c.key.value, req.body)
    requires req.signature == Some("sha1=" + hmac(c.key.value, req.body))
    ensures Handle(req, hmac) == Response(Ok, ActionsOf(c))
  {
    SignatureFieldRoundTrip("sha1", hmac(c.key.value, req.body));
    KeyedEntryChecksSignature(req, hmac, c, req.signature.value);
  }

  /** For an entry without a key (or with an empty one) nothing is verified: the
      actions run whatever the signature header says, or if there is none. */
  lemma UnkeyedEntryTrusted(req: Request, hmac: Hmac, c: RepoConfig, signature: Option<string>)
    requires PushAdmitted(req) && req.repos.Some? && req.payload.Some?
    requires var p := req.payload.value; p.name.Some? && p.owner.Some? && p.ref.Some?
    requires var p := req.payload.value;
      Resolve(req.repos.value, p.owner.value, p.name.value, p.ref.value) == Found(c)
    requires !HasKey(c)
    ensures Handle(req.(signature := signature), hmac) == Response(Ok, ActionsOf(c))
  {
  }

  /** A process is started only for an admitted push with a parsed configuration and
      payload, a branch ref, a non-empty entry, and — when that entry has a key — a
      signature equal to the digest of the body; what runs is that entry's actions. */
  lemma ActionsNeedEveryCheck(req: Request, hmac: Hmac)
    requires Handle(req, hmac).trace != []
    ensures PushAdmitted(req) && req.repos.Some? && req.payload.Some?
    ensures var p := req.payload.value;
      p.name.Some? && p.owner.Some? && p.ref.Some? && HeadsPrefix <= p.ref.value
    ensures var p := req.payload.value;
      var r := Resolve(req.repos.value, p.owner.value, p.name.value, p.ref.value);
      r.Found? && !IsEmpty(r.config) && Handle(req, hmac) == Response(Ok, ActionsOf(r.config)) &&
      (HasKey(r.config) ==>
         req.signature.Some? && SignatureField(req.signature.value).Some? &&
         hmac(r.config.key.value, req.body) == SignatureField(req.signature.value).value)
  {
    var p := req.payload.value;
    var r := Resolve(req.repos.value, p.owner.value, p.name.value, p.ref.value);
    if HasKey(r.config) {
      MatchesIsEquality(hmac(r.config.key.value, req.body), SignatureField(req.signature.value).value);
    }
  }
}
