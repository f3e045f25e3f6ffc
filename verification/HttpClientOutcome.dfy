/** What comes of each event at an HTTP client, case by case. */
module HttpClientOutcomes {
  import opened HttpText
  import opened HttpParsing
  import opened HttpClientSpec
  import AuthAttributes

  /** Asking for a stream until there is one, the server has to be looked up, or there is
      no retry left, or none that can be made. Each attempt asks once, and nothing else
      about the request changes. */
  predicate Tried(cfg: Config, w: World, c: Client, c': Client) {
    && c' == c.(attempt := c'.attempt, clock := c'.clock, requests := c'.requests, phase := c'.phase)
    && c.attempt <= c'.attempt <= cfg.retries && c.clock < c'.clock
    && (w(c.clock).unresolved ==> c' == c.(clock := c.clock + 1, phase := Resolving))
    && (!w(c.clock).unresolved && w(c.clock).connected ==>
          c' == c.(clock := c.clock + 1, requests := c.requests + 1, phase := Talking))
    && (c.response.scode != INTERNAL_SERVER_ERROR ==> c'.attempt == c.attempt)
    && Ended(cfg, c, c', w(c'.clock - 1))
  }

  /** How it ended, given the last answer of the world. */
  predicate Ended(cfg: Config, c: Client, c': Client, last: Answer) {
    match c'.phase
    case Resolving => last.unresolved && c'.requests == c.requests + (c'.attempt - c.attempt)
    case Talking =>
      !last.unresolved && last.connected && c'.requests == c.requests + (c'.attempt - c.attempt) + 1
    case Done(ConnectFailed) =>
      && !last.unresolved && !last.connected && c'.requests == c.requests + (c'.attempt - c.attempt) + 1
      && (c.response.scode == INTERNAL_SERVER_ERROR ==> c'.attempt == cfg.retries)
    case Done(StreamFailure) =>
      c.hasDocument && !last.rewound && c.attempt < c'.attempt && c'.requests == c.requests + (c'.attempt - c.attempt)
    case _ => false
  }

  lemma {:induction false} ConnectTries(cfg: Config, w: World, c: Client)
    requires Sane(cfg, c)
    ensures Tried(cfg, w, c, Connect(cfg, w, c))
    decreases cfg.retries - c.attempt
  {
    if !w(c.clock).unresolved && !w(c.clock).connected {
      var c1 := c.(clock := c.clock + 1, requests := c.requests + 1);
      if c.response.scode == INTERNAL_SERVER_ERROR && c.attempt < cfg.retries {
        var (c2, ok) := Rewind(w, c1.(attempt := c.attempt + 1));
        if ok {
          ConnectTries(cfg, w, c2);
        }
      }
    }
  }

  function Repeated(w: World, c: Client): Client {
    c.(clock := c.clock + if c.hasDocument then 1 else 0)
  }

  /** The request cannot be made once more. */
  predicate Stuck(w: World, c: Client) {
    c.hasDocument && !w(c.clock).rewound
  }

  // ---------- Challenges ----------

  predicate Answerable(scheme: string) {
    EqualsIgnoreCase(scheme, "basic") || EqualsIgnoreCase(scheme, "digest")
  }

  /** The scheme of a challenge, or of the last one before it that names any. */
  function SchemeOf(challenges: seq<string>, k: nat, previous: string): string
    requires k < |challenges|
  {
    var attributes := AuthAttributes.Parse(challenges[k]);
    if attributes != [] then attributes[0].name
    else if k == 0 then previous
    else SchemeOf(challenges, k - 1, previous)
  }

  lemma {:induction false} SchemeOfRest(challenges: seq<string>, k: nat, previous: string)
    requires 0 < k < |challenges|
    ensures SchemeOf(challenges, k, previous)
      == SchemeOf(challenges[1..], k - 1, SchemeOf(challenges, 0, previous))
  {
    if k > 1 && AuthAttributes.Parse(challenges[k]) == [] {
      SchemeOfRest(challenges, k - 1, previous);
    }
  }

  predicate NoneAnswerable(challenges: seq<string>, previous: string) {
    forall k :: 0 <= k < |challenges| ==> !Answerable(SchemeOf(challenges, k, previous))
  }

  ghost predicate FirstAnswerable(challenges: seq<string>, k: nat, previous: string) {
    && k < |challenges| && Answerable(SchemeOf(challenges, k, previous))
    && forall j :: 0 <= j < k ==> !Answerable(SchemeOf(challenges, j, previous))
  }

  /** A proxy's challenges have an effect only on a client that has a user name and has not
      answered any yet: the first of a known scheme is answered, by making the request once
      more, with its retries restored. */
  ghost predicate Challenged(cfg: Config, w: World, c: Client, challenges: seq<string>, previous: string, c': Client) {
    && (c.context.Using? || cfg.username == "" || NoneAnswerable(challenges, previous) ==>
          c' == c.(phase := Done(NoError)))
    && forall k: nat ::
         c.context.NoContext? && cfg.username != "" && FirstAnswerable(challenges, k, previous) ==>
           var c1 := c.(context := Using(SchemeOf(challenges, k, previous)));
           if Stuck(w, c) then c' == Repeated(w, c1).(phase := Done(StreamFailure))
           else Tried(cfg, w, Repeated(w, c1).(response := CLEARED, attempt := 0), c')
  }

  /** When a challenge is answered, ignored, or found to ask for credentials there are none of. */
  lemma AuthenticateIff(cfg: Config, context: Context, scheme: string)
    ensures var (context', r) := Authenticate(cfg, context, scheme);
      && (r == Respond <==> Answerable(scheme) && context.NoContext? && cfg.username != "")
      && (r == Credentials <==>
            Answerable(scheme) && if context.Using? then context.authMethod == scheme else cfg.username == "")
      && context' == if r == Respond then Using(scheme) else context
  {
    hide EqualsIgnoreCase;
  }

  /** An answer has been given: the other challenges change nothing. */
  lemma {:induction false} NothingMoreAnswered(cfg: Config, w: World, c: Client, challenges: seq<string>,
                                               previous: string, err: HttpError)
    requires Sane(cfg, c) && (c.context.Using? || cfg.username == "" || NoneAnswerable(challenges, previous))
    ensures AnswerChallenges(cfg, w, c, challenges, previous, err) == c.(phase := Done(err))
    decreases |challenges|
  {
    if challenges != [] {
      var scheme := AuthMethod(challenges[0], previous);
      assert scheme == SchemeOf(challenges, 0, previous);
      AuthenticateIff(cfg, c.context, scheme);
      if Authenticate(cfg, c.context, scheme).1 == Ignore {
        forall k | 0 <= k < |challenges| - 1
          ensures SchemeOf(challenges[1..], k, scheme) == SchemeOf(challenges, k + 1, previous)
        {
          SchemeOfRest(challenges, k + 1, previous);
        }
        NothingMoreAnswered(cfg, w, c, challenges[1..], scheme, err);
      }
    }
    hide EqualsIgnoreCase, AuthAttributes.Parse;
  }

  lemma {:induction false} ChallengesAnswered(cfg: Config, w: World, c: Client, challenges: seq<string>,
                                              k: nat, previous: string)
    requires Sane(cfg, c) && c.context.NoContext? && cfg.username != "" && FirstAnswerable(challenges, k, previous)
    ensures var c1 := c.(context := Using(SchemeOf(challenges, k, previous)));
      var c' := AnswerChallenges(cfg, w, c, challenges, previous, NoError);
      if Stuck(w, c) then c' == Repeated(w, c1).(phase := Done(StreamFailure))
      else Tried(cfg, w, Repeated(w, c1).(response := CLEARED, attempt := 0), c')
    decreases |challenges|
  {
    hide EqualsIgnoreCase, AuthAttributes.Parse, Connect, Authenticate, Tried, Answerable;
    var scheme := AuthMethod(challenges[0], previous);
    assert scheme == SchemeOf(challenges, 0, previous);
    AuthenticateIff(cfg, c.context, scheme);
    if k == 0 {
      var (c1, ok) := Rewind(w, c.(context := Using(scheme)));
      if ok {
        ConnectTries(cfg, w, c1.(response := CLEARED, attempt := 0));
      } else {
        NothingMoreAnswered(cfg, w, c1, challenges[1..], scheme, StreamFailure);
      }
    } else {
      SchemeOfRest(challenges, k, previous);
      forall j | 0 <= j < k - 1 ensures !Answerable(SchemeOf(challenges[1..], j, scheme)) {
        SchemeOfRest(challenges, j + 1, previous);
      }
      assert FirstAnswerable(challenges[1..], k - 1, scheme);
      ChallengesAnswered(cfg, w, c, challenges[1..], k - 1, scheme);
    }
  }

  lemma ChallengesMeet(cfg: Config, w: World, c: Client, challenges: seq<string>, previous: string)
    requires Sane(cfg, c)
    ensures Challenged(cfg, w, c, challenges, previous, AnswerChallenges(cfg, w, c, challenges, previous, NoError))
  {
    hide AnswerChallenges, NoneAnswerable, Tried, SchemeOf;
    if c.context.Using? || cfg.username == "" || NoneAnswerable(challenges, previous) {
      NothingMoreAnswered(cfg, w, c, challenges, previous, NoError);
    }
    forall k: nat | c.context.NoContext? && cfg.username != "" && FirstAnswerable(challenges, k, previous)
      ensures var c1 := c.(context := Using(SchemeOf(challenges, k, previous)));
        var c' := AnswerChallenges(cfg, w, c, challenges, previous, NoError);
        if Stuck(w, c) then c' == Repeated(w, c1).(phase := Done(StreamFailure))
        else Tried(cfg, w, Repeated(w, c1).(response := CLEARED, attempt := 0), c')
    {
      ChallengesAnswered(cfg, w, c, challenges, k, previous);
    }
  }

  lemma {:induction false} SomeAnswerable(challenges: seq<string>, n: nat, previous: string)
    requires n <= |challenges|
    requires exists k :: 0 <= k < n && Answerable(SchemeOf(challenges, k, previous))
    ensures exists k: nat :: FirstAnswerable(challenges, k, previous)
    decreases n
  {
    if exists k :: 0 <= k < n - 1 && Answerable(SchemeOf(challenges, k, previous)) {
      SomeAnswerable(challenges, n - 1, previous);
    } else {
      assert FirstAnswerable(challenges, n - 1, previous);
    }
  }

  /** So a 407 through a proxy ends the exchange without an error and without another
      request exactly when the client cannot answer it: it has done so before, has no user
      name, or knows none of the schemes. */
  lemma UnansweredIff(cfg: Config, w: World, c: Client)
    requires Sane(cfg, c) && c.response.scode == 407 && cfg.proxyHttps
    ensures OnHttpComplete(cfg, w, c, Receiving, NoError) == c.(phase := Done(NoError))
      <==> c.context.Using? || cfg.username == "" || NoneAnswerable(c.response.challenges, "")
  {
    hide OnHttpComplete, Answerable, SchemeOf, Ended;
    CompletesAs(cfg, w, c, Receiving, NoError);
    var challenges := c.response.challenges;
    if c.context.NoContext? && cfg.username != "" && !NoneAnswerable(challenges, "") {
      SomeAnswerable(challenges, |challenges|, "");
    }
  }

  // ---------- Completions ----------

  predicate Redirected(cfg: Config, c: Client) {
    && 300 <= c.response.scode < 400 && c.response.location && c.redirects < 5
    && match cfg.redirectAction
       case Never => false
       case Always => true
       case Default => c.response.scode == 303 || c.verb != OtherVerb
  }

  /** The request once it has been redirected: a new one, with all its retries, that has
      not been challenged; and after 303 a plain one. */
  function Redirect(w: World, c: Client): Client {
    var c1 := if c.response.scode == 303 then c.(verb := Get, hasDocument := false) else Repeated(w, c);
    c1.(redirects := c.redirects + 1, context := NoContext, response := Response(500, false, []), attempt := 0)
  }

  predicate MayRetry(cfg: Config, c: Client, err: HttpError) {
    (err == Disconnected || err == ConnectFailed || err == SocketError) && c.response.scode == 500
    && c.attempt < cfg.retries
  }

  /** What comes of the end of an exchange: a retry, an error, the next part of the same
      exchange, a redirection, an answer to a proxy, or success. */
  ghost predicate EndsAs(cfg: Config, w: World, c: Client, mode: Mode, err: HttpError, c': Client) {
    if MayRetry(cfg, c, err) then
      var c1 := Repeated(w, c.(attempt := c.attempt + 1));
      if Stuck(w, c) then c' == c1.(phase := Done(StreamFailure)) else Tried(cfg, w, c1, c')
    else if err != NoError then c' == c.(phase := Done(err))
    else if mode != Receiving || 100 <= c.response.scode < 200 then c' == c.(phase := Talking)
    else if Redirected(cfg, c) then
      if c.response.scode != 303 && Stuck(w, c) then c' == Repeated(w, c).(phase := Done(StreamFailure))
      else Tried(cfg, w, Redirect(w, c), c')
    else if c.response.scode == 407 && cfg.proxyHttps then Challenged(cfg, w, c, c.response.challenges, "", c')
    else c' == c.(phase := Done(NoError))
  }

  lemma CompletesAs(cfg: Config, w: World, c: Client, mode: Mode, err: HttpError)
    requires Sane(cfg, c)
    ensures EndsAs(cfg, w, c, mode, err, OnHttpComplete(cfg, w, c, mode, err))
  {
    hide Connect, AnswerChallenges, Tried, Challenged;
    if MayRetry(cfg, c, err) {
      if !Stuck(w, c) {
        ConnectTries(cfg, w, Repeated(w, c.(attempt := c.attempt + 1)));
      }
    } else if err == NoError && mode == Receiving && c.response.scode / 100 != 1 {
      if Redirected(cfg, c) {
        if c.response.scode == 303 || !Stuck(w, c) {
          ConnectTries(cfg, w, Redirect(w, c));
        }
      } else if c.response.scode == 407 {
        ChallengesMeet(cfg, w, c, c.response.challenges, "");
      }
    }
  }
}
