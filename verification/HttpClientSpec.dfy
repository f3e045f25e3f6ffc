/** The retries, redirects and proxy authentications of an HTTP client without a cache,
    and how many streams they can ask for. */
module HttpClientSpec {
  import opened HttpText
  import opened HttpParsing
  import AuthAttributes

  const MAX_REDIRECTS: nat := 5
  const INTERNAL_SERVER_ERROR: nat := 500
  const SEE_OTHER: nat := 303
  const PROXY_AUTHENTICATION_REQUIRED: nat := 407

  datatype RedirectAction = Default | Always | Never

  datatype Verb = Get | Head | OtherVerb

  datatype Mode = Connecting | Sending | Receiving

  datatype Config = Config(retries: nat, redirectAction: RedirectAction, proxyHttps: bool, username: string)

  /** The response so far: its status, whether it has a Location header, and the values of
      its Proxy-Authenticate headers. */
  datatype Response = Response(scode: nat, location: bool, challenges: seq<string>)

  const CLEARED := Response(INTERNAL_SERVER_ERROR, false, [])

  datatype Context = NoContext | Using(authMethod: string)

  datatype Phase = Resting | Resolving | Talking | Done(err: HttpError)

  /** The counters of a client, and `requests`, which counts the streams it has asked its
      pool for. Questions to the rest of the world are numbered by `clock`. */
  datatype Client = Client(
    attempt: nat, redirects: nat, context: Context,
    verb: Verb, hasDocument: bool, response: Response,
    phase: Phase, requests: nat, clock: nat)

  /** How the world answers a question: does the server still have to be looked up; does
      the pool give a stream; does the request document rewind. */
  datatype Answer = Answer(unresolved: bool, connected: bool, rewound: bool)

  type World = nat -> Answer

  predicate Sane(cfg: Config, c: Client) {
    c.attempt <= cfg.retries && c.redirects <= MAX_REDIRECTS
  }

  predicate Retryable(err: HttpError) {
    err == Disconnected || err == ConnectFailed || err == SocketError
  }

  predicate ShouldRedirect(cfg: Config, c: Client) {
    && cfg.redirectAction != Never
    && c.response.scode / 100 == 3
    && c.response.location
    && c.redirects < MAX_REDIRECTS
    && (cfg.redirectAction == Always || c.response.scode == SEE_OTHER || c.verb == Head || c.verb == Get)
  }

  function Rewind(w: World, c: Client): (r: (Client, bool)) {
    if !c.hasDocument then (c, true) else (c.(clock := c.clock + 1), w(c.clock).rewound)
  }

  datatype AuthResult = Ignore | Respond | Credentials

  /** The name of the scheme of a challenge; if it has none, that of the last one stays. */
  function AuthMethod(challenge: string, previous: string): string {
    var attributes := AuthAttributes.Parse(challenge);
    if attributes == [] then previous else attributes[0].name
  }

  /** What `HttpAuthenticate` does with the context. */
  function Authenticate(cfg: Config, context: Context, authMethod: string): (r: (Context, AuthResult))
    ensures r.1 == Respond <==> context == NoContext && r.0 == Using(authMethod)
    ensures r.1 != Respond ==> r.0 == context
  {
    if context.Using? && context.authMethod != authMethod then (context, Ignore)
    else if !EqualsIgnoreCase(authMethod, "basic") && !EqualsIgnoreCase(authMethod, "digest") then (context, Ignore)
    else if context.Using? || cfg.username == "" then (context, Credentials)
    else (Using(authMethod), Respond)
  }

  /** How much a client has left, level by level: redirects, authentication, retries. */
  function Unused(c: Context): nat {
    if c.NoContext? then 1 else 0
  }

  function Connect(cfg: Config, w: World, c: Client): (c': Client)
    requires Sane(cfg, c)
    ensures Sane(cfg, c')
    decreases MAX_REDIRECTS - c.redirects, Unused(c.context), cfg.retries - c.attempt, 2, 0
  {
    var answer := w(c.clock);
    var asked := c.(clock := c.clock + 1);
    if answer.unresolved then asked.(phase := Resolving)
    else if !answer.connected then
      OnHttpComplete(cfg, w, asked.(requests := c.requests + 1), Connecting, ConnectFailed)
    else asked.(requests := c.requests + 1, phase := Talking)
  }

  function OnHttpComplete(cfg: Config, w: World, c: Client, mode: Mode, err: HttpError): (c': Client)
    requires Sane(cfg, c)
    ensures Sane(cfg, c')
    decreases MAX_REDIRECTS - c.redirects, Unused(c.context), cfg.retries - c.attempt, 1, 0
  {
    if Retryable(err) && c.response.scode == INTERNAL_SERVER_ERROR && c.attempt < cfg.retries then
      var (c1, ok) := Rewind(w, c.(attempt := c.attempt + 1));
      if ok then Connect(cfg, w, c1) else c1.(phase := Done(StreamFailure))
    else if err != NoError then c.(phase := Done(err))
    else if mode == Connecting || mode == Sending || c.response.scode / 100 == 1 then c.(phase := Talking)
    else if ShouldRedirect(cfg, c) then
      var (c1, ok) :=
        if c.response.scode == SEE_OTHER then (c.(verb := Get, hasDocument := false), true) else Rewind(w, c);
      if ok then
        Connect(cfg, w, c1.(redirects := c.redirects + 1, context := NoContext, response := CLEARED, attempt := 0))
      else c1.(phase := Done(StreamFailure))
    else if c.response.scode == PROXY_AUTHENTICATION_REQUIRED && cfg.proxyHttps then
      AnswerChallenges(cfg, w, c, c.response.challenges, "", NoError)
    else c.(phase := Done(NoError))
  }

  /** The loop over the challenges of a proxy. A response whose document does not rewind
      is not sent, but the loop goes on. */
  function AnswerChallenges(cfg: Config, w: World, c: Client, challenges: seq<string>, authMethod: string,
                            err: HttpError): (c': Client)
    requires Sane(cfg, c)
    ensures Sane(cfg, c')
    decreases MAX_REDIRECTS - c.redirects, Unused(c.context), cfg.retries - c.attempt, 0, |challenges|
  {
    if challenges == [] then c.(phase := Done(err))
    else
      var authMethod' := AuthMethod(challenges[0], authMethod);
      match Authenticate(cfg, c.context, authMethod')
      case (_, Ignore) => AnswerChallenges(cfg, w, c, challenges[1..], authMethod', err)
      case (_, Credentials) => c.(phase := Done(err))
      case (context', Respond) =>
        var (c1, ok) := Rewind(w, c.(context := context'));
        if ok then Connect(cfg, w, c1.(response := CLEARED, attempt := 0))
        else AnswerChallenges(cfg, w, c1, challenges[1..], authMethod', StreamFailure)
  }

  function Start(cfg: Config, w: World, c: Client): (c': Client)
    requires c.redirects <= MAX_REDIRECTS
    ensures Sane(cfg, c')
  {
    Connect(cfg, w, c.(attempt := 0))
  }

  function OnResolveResult(cfg: Config, w: World, c: Client, failed: bool): (c': Client)
    requires Sane(cfg, c)
    ensures Sane(cfg, c')
  {
    if failed then OnHttpComplete(cfg, w, c, Connecting, ConnectFailed) else Connect(cfg, w, c)
  }
}
