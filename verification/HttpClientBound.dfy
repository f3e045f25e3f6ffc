/** How many streams a client asks for, between one `start` and its completion. */
module HttpClientBound {
  import opened HttpParsing
  import opened HttpClientSpec
  import AuthAttributes

  /** How many more streams may be asked for once there is one. */
  ghost function Rank(cfg: Config, redirects: nat, context: Context, attempt: nat): int {
    ((MAX_REDIRECTS - redirects) * 2 + Unused(context)) * (cfg.retries + 1) + (cfg.retries - attempt)
  }

  /** What the client has asked for, may still ask for, and is about to ask for. */
  ghost function Budget(cfg: Config, c: Client): int {
    c.requests + Rank(cfg, c.redirects, c.context, c.attempt) + if c.phase.Resolving? then 1 else 0
  }

  lemma Distributes(a: int, b: int, n: int)
    ensures (a + b) * n == a * n + b * n
  {
  }

  lemma AuthenticationCosts(cfg: Config, redirects: nat, attempt: nat, authMethod: string)
    ensures Rank(cfg, redirects, Using(authMethod), attempt)
      == Rank(cfg, redirects, NoContext, attempt) - cfg.retries - 1
  {
    Distributes((MAX_REDIRECTS - redirects) * 2, 1, cfg.retries + 1);
  }

  lemma RedirectCosts(cfg: Config, redirects: nat, context: Context, attempt: nat)
    ensures Rank(cfg, redirects + 1, NoContext, attempt) <= Rank(cfg, redirects, context, attempt) - cfg.retries - 1
    ensures context.Using? ==>
      Rank(cfg, redirects + 1, NoContext, attempt) == Rank(cfg, redirects, context, attempt) - cfg.retries - 1
  {
    Distributes((MAX_REDIRECTS - redirects) * 2 - 1, 1 + Unused(context), cfg.retries + 1);
  }

  lemma AttemptCosts(cfg: Config, redirects: nat, context: Context, attempt: nat, attempt': nat)
    ensures Rank(cfg, redirects, context, attempt') == Rank(cfg, redirects, context, attempt) + attempt - attempt'
  {
  }

  lemma RankNonnegative(cfg: Config, c: Client)
    requires Sane(cfg, c)
    ensures Rank(cfg, c.redirects, c.context, c.attempt) >= 0
  {
  }

  /** Asking for a stream costs one; everything a completion sets off is paid for by what
      was left. */
  lemma {:induction false} ConnectWithinBudget(cfg: Config, w: World, c: Client)
    requires Sane(cfg, c)
    ensures Budget(cfg, Connect(cfg, w, c)) <= c.requests + Rank(cfg, c.redirects, c.context, c.attempt) + 1
    decreases MAX_REDIRECTS - c.redirects, Unused(c.context), cfg.retries - c.attempt, 2, 0
  {
    hide Rank, OnHttpComplete;
    if !w(c.clock).unresolved && !w(c.clock).connected {
      CompleteWithinBudget(cfg, w, c.(clock := c.clock + 1, requests := c.requests + 1), Connecting, ConnectFailed);
    }
  }

  lemma {:induction false} CompleteWithinBudget(cfg: Config, w: World, c: Client, mode: Mode, err: HttpError)
    requires Sane(cfg, c)
    ensures Budget(cfg, OnHttpComplete(cfg, w, c, mode, err))
      <= c.requests + Rank(cfg, c.redirects, c.context, c.attempt)
    decreases MAX_REDIRECTS - c.redirects, Unused(c.context), cfg.retries - c.attempt, 1, 0
  {
    hide Rank, Connect, AnswerChallenges, ShouldRedirect;
    if Retryable(err) && c.response.scode == INTERNAL_SERVER_ERROR && c.attempt < cfg.retries {
      AttemptCosts(cfg, c.redirects, c.context, c.attempt, c.attempt + 1);
      ConnectWithinBudget(cfg, w, Rewind(w, c.(attempt := c.attempt + 1)).0);
    } else if err == NoError && mode == Receiving && c.response.scode / 100 != 1 {
      if ShouldRedirect(cfg, c) {
        RedirectLeft(cfg, c);
        RedirectCosts(cfg, c.redirects, c.context, c.attempt);
        AttemptCosts(cfg, c.redirects + 1, NoContext, c.attempt, 0);
        var c1 := if c.response.scode == SEE_OTHER then c.(verb := Get, hasDocument := false) else Rewind(w, c).0;
        ConnectWithinBudget(cfg, w,
          c1.(redirects := c.redirects + 1, context := NoContext, response := CLEARED, attempt := 0));
      } else {
        ChallengesWithinBudget(cfg, w, c, c.response.challenges, "", NoError);
      }
    }
  }

  lemma RedirectLeft(cfg: Config, c: Client)
    requires ShouldRedirect(cfg, c)
    ensures c.redirects < MAX_REDIRECTS
  {
  }

  lemma {:induction false} ChallengesWithinBudget(cfg: Config, w: World, c: Client, challenges: seq<string>,
                                                  authMethod: string, err: HttpError)
    requires Sane(cfg, c)
    ensures Budget(cfg, AnswerChallenges(cfg, w, c, challenges, authMethod, err))
      <= c.requests + Rank(cfg, c.redirects, c.context, c.attempt)
    decreases MAX_REDIRECTS - c.redirects, Unused(c.context), cfg.retries - c.attempt, 0, |challenges|
  {
    hide Rank, Connect, AuthMethod;
    if challenges != [] {
      var authMethod' := AuthMethod(challenges[0], authMethod);
      match Authenticate(cfg, c.context, authMethod')
      case (_, Ignore) => ChallengesWithinBudget(cfg, w, c, challenges[1..], authMethod', err);
      case (_, Credentials) =>
      case (context', Respond) =>
        var (c1, ok) := Rewind(w, c.(context := context'));
        AuthenticationCosts(cfg, c.redirects, c.attempt, authMethod');
        if ok {
          AttemptCosts(cfg, c.redirects, context', c.attempt, 0);
          ConnectWithinBudget(cfg, w, c1.(response := CLEARED, attempt := 0));
        } else {
          ChallengesWithinBudget(cfg, w, c1, challenges[1..], authMethod', StreamFailure);
        }
    }
  }

  // ---------- Runs ----------

  /** What can happen to a client: a lookup ends, or the exchange it is in completes. */
  datatype Event =
    | Resolved(failed: bool)
    | Completed(mode: Mode, err: HttpError, response: Response)

  predicate Possible(c: Client, e: Event) {
    if e.Resolved? then c.phase == Resolving else c.phase == Talking
  }

  ghost function Happen(cfg: Config, w: World, c: Client, e: Event): (c': Client)
    requires Sane(cfg, c)
    ensures Sane(cfg, c')
  {
    match e
    case Resolved(failed) => OnResolveResult(cfg, w, c, failed)
    case Completed(mode, err, response) => OnHttpComplete(cfg, w, c.(response := response), mode, err)
  }

  lemma EventWithinBudget(cfg: Config, w: World, c: Client, e: Event)
    requires Sane(cfg, c) && Possible(c, e)
    ensures Budget(cfg, Happen(cfg, w, c, e)) <= Budget(cfg, c)
  {
    hide Rank, Connect, OnHttpComplete;
    match e
    case Resolved(failed) =>
      ConnectWithinBudget(cfg, w, c);
      CompleteWithinBudget(cfg, w, c, Connecting, ConnectFailed);
    case Completed(mode, err, response) =>
      CompleteWithinBudget(cfg, w, c.(response := response), mode, err);
  }

  ghost predicate IsRun(cfg: Config, w: World, c: Client, events: seq<Event>)
    requires Sane(cfg, c)
    decreases |events|
  {
    events == [] || (Possible(c, events[0]) && IsRun(cfg, w, Happen(cfg, w, c, events[0]), events[1..]))
  }

  ghost function RunOf(cfg: Config, w: World, c: Client, events: seq<Event>): (c': Client)
    requires Sane(cfg, c)
    ensures Sane(cfg, c')
    decreases |events|
  {
    if events == [] then c else RunOf(cfg, w, Happen(cfg, w, c, events[0]), events[1..])
  }

  /** A client that has been reset, at rest. */
  predicate IsReset(c: Client) {
    c.redirects == 0 && c.context == NoContext && c.requests == 0 && c.phase == Resting
  }

  lemma {:induction false} RunWithinBudget(cfg: Config, w: World, c: Client, events: seq<Event>)
    requires Sane(cfg, c) && IsRun(cfg, w, c, events)
    ensures Budget(cfg, RunOf(cfg, w, c, events)) <= Budget(cfg, c)
    decreases |events|
  {
    hide Happen, Budget, Possible;
    if events != [] {
      EventWithinBudget(cfg, w, c, events[0]);
      RunWithinBudget(cfg, w, Happen(cfg, w, c, events[0]), events[1..]);
    }
  }

  /** Whatever the servers, the proxies and the pool do, a request that starts from a
      reset client asks for at most `2 * (MAX_REDIRECTS + 1) * (retries + 1)` streams. */
  lemma RequestsBounded(cfg: Config, w: World, c: Client, events: seq<Event>)
    requires IsReset(c) && IsRun(cfg, w, Start(cfg, w, c), events)
    ensures RunOf(cfg, w, Start(cfg, w, c), events).requests <= 2 * (MAX_REDIRECTS + 1) * (cfg.retries + 1)
  {
    var c' := RunOf(cfg, w, Start(cfg, w, c), events);
    ConnectWithinBudget(cfg, w, c.(attempt := 0));
    RunWithinBudget(cfg, w, Start(cfg, w, c), events);
    RankNonnegative(cfg, c');
    assert Rank(cfg, 0, NoContext, 0) + 1 == 2 * (MAX_REDIRECTS + 1) * (cfg.retries + 1);
    hide Rank, RunOf;
  }

  // ---------- The bound is met ----------

  /** The worst that can come next: a failure while retries are left, then a challenge,
      then a redirect. */
  ghost function Worst(cfg: Config, c: Client): Event {
    if c.attempt < cfg.retries then Completed(Receiving, Disconnected, CLEARED)
    else if c.context == NoContext then
      Completed(Receiving, NoError, Response(PROXY_AUTHENTICATION_REQUIRED, false, ["Basic"]))
    else Completed(Receiving, NoError, Response(302, true, []))
  }

  ghost predicate Obliging(w: World) {
    forall k: nat :: w(k) == Answer(false, true, true)
  }

  lemma BasicChallenge()
    ensures AuthMethod("Basic", "") == "Basic"
  {
    assert AuthAttributes.Name("Basic") == "Basic" by {
      assert "Basic" + "" == "Basic";
      AuthAttributes.NameTaken("Basic", "");
    }
  }

  ghost predicate Eager(cfg: Config, w: World, c: Client) {
    && Sane(cfg, c) && Obliging(w) && c.phase == Talking && c.verb == Get && !c.hasDocument
    && cfg.proxyHttps && cfg.username != "" && cfg.redirectAction != Never
  }

  lemma FailureIsRetried(cfg: Config, w: World, c: Client)
    requires Eager(cfg, w, c) && c.attempt < cfg.retries
    ensures Happen(cfg, w, c, Worst(cfg, c))
      == c.(response := CLEARED, attempt := c.attempt + 1, requests := c.requests + 1, clock := c.clock + 1)
  {
    hide AnswerChallenges;
    var c1 := c.(response := CLEARED);
    assert OnHttpComplete(cfg, w, c1, Receiving, Disconnected) == Connect(cfg, w, c1.(attempt := c.attempt + 1));
  }

  lemma ChallengeIsAnswered(cfg: Config, w: World, c: Client)
    requires Eager(cfg, w, c) && c.attempt == cfg.retries && c.context == NoContext
    ensures Happen(cfg, w, c, Worst(cfg, c))
      == c.(response := CLEARED, attempt := 0, context := Using("Basic"),
            requests := c.requests + 1, clock := c.clock + 1)
  {
    BasicChallenge();
    hide AuthMethod;
    var c1 := c.(response := Response(PROXY_AUTHENTICATION_REQUIRED, false, ["Basic"]));
    assert Authenticate(cfg, NoContext, "Basic") == (Using("Basic"), Respond);
    hide Authenticate;
    assert AnswerChallenges(cfg, w, c1, ["Basic"], "", NoError)
      == Connect(cfg, w, c1.(context := Using("Basic"), response := CLEARED, attempt := 0));
    hide AnswerChallenges;
  }

  lemma RedirectIsFollowed(cfg: Config, w: World, c: Client)
    requires Eager(cfg, w, c) && c.attempt == cfg.retries && c.context.Using? && c.redirects < MAX_REDIRECTS
    ensures Happen(cfg, w, c, Worst(cfg, c))
      == c.(response := CLEARED, attempt := 0, context := NoContext, redirects := c.redirects + 1,
            requests := c.requests + 1, clock := c.clock + 1)
  {
    hide AnswerChallenges;
    var c1 := c.(response := Response(302, true, []));
    assert ShouldRedirect(cfg, c1);
    assert OnHttpComplete(cfg, w, c1, Receiving, NoError)
      == Connect(cfg, w, c1.(redirects := c.redirects + 1, context := NoContext, response := CLEARED, attempt := 0));
  }

  lemma WorstCostsOne(cfg: Config, w: World, c: Client)
    requires Eager(cfg, w, c) && Rank(cfg, c.redirects, c.context, c.attempt) > 0
    ensures var c' := Happen(cfg, w, c, Worst(cfg, c));
      && Eager(cfg, w, c') && c'.requests == c.requests + 1
      && Rank(cfg, c'.redirects, c'.context, c'.attempt) == Rank(cfg, c.redirects, c.context, c.attempt) - 1
  {
    hide Happen, Worst;
    if c.attempt < cfg.retries {
      FailureIsRetried(cfg, w, c);
      AttemptCosts(cfg, c.redirects, c.context, c.attempt, c.attempt + 1);
    } else if c.context == NoContext {
      ChallengeIsAnswered(cfg, w, c);
      AttemptCosts(cfg, c.redirects, Using("Basic"), c.attempt, 0);
      AuthenticationCosts(cfg, c.redirects, c.attempt, "Basic");
    } else {
      assert c.redirects < MAX_REDIRECTS;
      RedirectIsFollowed(cfg, w, c);
      AttemptCosts(cfg, c.redirects + 1, NoContext, c.attempt, 0);
      RedirectCosts(cfg, c.redirects, c.context, c.attempt);
    }
    hide Rank;
  }

  lemma {:induction false} WorstRun(cfg: Config, w: World, c: Client) returns (events: seq<Event>)
    requires Eager(cfg, w, c)
    ensures IsRun(cfg, w, c, events)
    ensures RunOf(cfg, w, c, events).requests == c.requests + Rank(cfg, c.redirects, c.context, c.attempt)
    decreases Rank(cfg, c.redirects, c.context, c.attempt)
  {
    RankNonnegative(cfg, c);
    hide Rank, Happen, Worst;
    if Rank(cfg, c.redirects, c.context, c.attempt) == 0 {
      events := [];
    } else {
      WorstCostsOne(cfg, w, c);
      var e := Worst(cfg, c);
      var rest := WorstRun(cfg, w, Happen(cfg, w, c, e));
      events := [e] + rest;
      assert events[1..] == rest;
    }
  }

  /** The bound cannot be lowered: there is a run that asks for that many streams. */
  lemma BoundIsMet(retries: nat)
    ensures exists cfg: Config, w: World, c: Client, events: seq<Event> ::
      && cfg.retries == retries && IsReset(c)
      && IsRun(cfg, w, Start(cfg, w, c), events)
      && RunOf(cfg, w, Start(cfg, w, c), events).requests == 2 * (MAX_REDIRECTS + 1) * (retries + 1)
  {
    var cfg := Config(retries, Default, true, "user");
    var w: World := k => Answer(false, true, true);
    var c := Client(0, 0, NoContext, Get, false, CLEARED, Resting, 0, 0);
    var started := c.(phase := Talking, requests := 1, clock := 1);
    assert Start(cfg, w, c) == started;
    var events := WorstRun(cfg, w, started);
    assert Rank(cfg, 0, NoContext, 0) + 1 == 2 * (MAX_REDIRECTS + 1) * (retries + 1);
  }
}
