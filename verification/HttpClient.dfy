/** The client itself: it updates its counters and its authentication context in place. */
module HttpClients {
  import opened HttpParsing
  import opened HttpClientSpec
  import opened HttpClientBound
  import opened HttpClientOutcomes
  import Spec = HttpClientSpec
  import AuthAttributes

  class HttpClient {
    const cfg: Config
    const world: World
    var attempt: nat
    var redirects: nat
    var context: Context
    var verb: Verb
    var hasDocument: bool
    var response: Response
    var phase: Phase
    var requests: nat
    var clock: nat

    constructor (cfg: Config, world: World, verb: Verb, hasDocument: bool)
      ensures Abs() == Client(0, 0, NoContext, verb, hasDocument, CLEARED, Resting, 0, 0)
      ensures this.cfg == cfg && this.world == world
    {
      this.cfg, this.world, this.verb, this.hasDocument := cfg, world, verb, hasDocument;
      attempt, redirects, context, response, phase, requests, clock := 0, 0, NoContext, CLEARED, Resting, 0, 0;
    }

    function Abs(): Client
      reads this
    {
      Client(attempt, redirects, context, verb, hasDocument, response, phase, requests, clock)
    }

    method Start()
      requires redirects <= MAX_REDIRECTS
      modifies this
      ensures Abs() == Spec.Start(cfg, world, old(Abs()))
      ensures Tried(cfg, world, old(Abs()).(attempt := 0), Abs())
      ensures Budget(cfg, Abs()) <= old(requests) + Rank(cfg, old(redirects), old(context), 0) + 1
      ensures requests >= old(requests)
      decreases MAX_REDIRECTS - redirects, Unused(context), cfg.retries, 3, 0
    {
      attempt := 0;
      Connect();
    }

    method Connect()
      requires Sane(cfg, Abs())
      modifies this
      ensures Abs() == Spec.Connect(cfg, world, old(Abs()))
      ensures Tried(cfg, world, old(Abs()), Abs())
      // what it asks for, and what is left to be asked for, was left before, but for one
      ensures Budget(cfg, Abs()) <= old(requests + RanksLeft()) + 1
      ensures requests >= old(requests) && (phase != Resolving ==> requests > old(requests))
      decreases MAX_REDIRECTS - redirects, Unused(context), cfg.retries - attempt, 2, 0
    {
      hide Spec.OnHttpComplete, Rank, Budget, Tried, EndsAs, Retryable;
      ConnectWithinBudget(cfg, world, Abs());
      ConnectTries(cfg, world, Abs());
      var answer := world(clock);
      clock := clock + 1;
      if answer.unresolved {
        phase := Resolving;
        return;
      }
      requests := requests + 1;
      if !answer.connected {
        OnHttpComplete(Connecting, ConnectFailed);
      } else {
        phase := Talking;
      }
    }

    method OnResolveResult(failed: bool)
      requires Sane(cfg, Abs())
      modifies this
      ensures Abs() == Spec.OnResolveResult(cfg, world, old(Abs()), failed)
      ensures if failed then EndsAs(cfg, world, old(Abs()), Connecting, ConnectFailed, Abs())
              else Tried(cfg, world, old(Abs()), Abs())
    {
      hide EndsAs, Tried, Budget;
      if failed {
        OnHttpComplete(Connecting, ConnectFailed);
      } else {
        Connect();
      }
    }

    method RewindDocument() returns (ok: bool)
      modifies this`clock
      ensures (Abs(), ok) == Rewind(world, old(Abs()))
    {
      if !hasDocument {
        return true;
      }
      clock := clock + 1;
      return world(clock - 1).rewound;
    }

    /** How many more streams may be asked for once there is one. */
    ghost function RanksLeft(): int
      reads this
    {
      Rank(cfg, redirects, context, attempt)
    }

    method OnHttpComplete(mode: Mode, err: HttpError)
      requires Sane(cfg, Abs())
      modifies this
      ensures Abs() == Spec.OnHttpComplete(cfg, world, old(Abs()), mode, err)
      ensures EndsAs(cfg, world, old(Abs()), mode, err, Abs())
      // every stream it asks for is paid for out of what was left
      ensures Budget(cfg, Abs()) <= old(requests + RanksLeft()) && requests >= old(requests)
      ensures err != NoError && !Retryable(err) ==> phase == Done(err) && requests == old(requests)
      ensures err != NoError && old(response.scode) != INTERNAL_SERVER_ERROR ==>
        phase == Done(err) && requests == old(requests)
      decreases MAX_REDIRECTS - redirects, Unused(context), cfg.retries - attempt, 1, 0
    {
      hide Spec.Connect, Spec.AnswerChallenges, Rank, Budget, Tried, Challenged, EndsAs;
      CompleteWithinBudget(cfg, world, Abs(), mode, err);
      CompletesAs(cfg, world, Abs(), mode, err);
      if Retryable(err) && response.scode == INTERNAL_SERVER_ERROR && attempt < cfg.retries {
        attempt := attempt + 1;
        var ok := RewindDocument();
        if ok {
          Connect();
        } else {
          phase := Done(StreamFailure);
        }
        return;
      }
      if err != NoError {
        phase := Done(err);
        return;
      }
      if mode == Connecting || mode == Sending || response.scode / 100 == 1 {
        phase := Talking;
        return;
      }
      if ShouldRedirect(cfg, Abs()) {
        FollowRedirect();
        return;
      }
      if response.scode == PROXY_AUTHENTICATION_REQUIRED && cfg.proxyHttps {
        AnswerChallenges();
      } else {
        phase := Done(NoError);
      }
    }

    /** Starts again at the new location, if the request can be sent again. */
    method FollowRedirect()
      requires Sane(cfg, Abs()) && ShouldRedirect(cfg, Abs())
      modifies this
      ensures Abs() == Spec.OnHttpComplete(cfg, world, old(Abs()), Receiving, NoError)
      ensures requests >= old(requests)
      decreases MAX_REDIRECTS - redirects, Unused(context), cfg.retries - attempt, 0, 0
    {
      hide Spec.Connect, Spec.AnswerChallenges, Rank, Tried;
      var ok := true;
      if response.scode == SEE_OTHER {
        verb, hasDocument := Get, false;
      } else {
        ok := RewindDocument();
      }
      if ok {
        redirects := redirects + 1;
        context := NoContext;
        response := CLEARED;
        Start();
      } else {
        phase := Done(StreamFailure);
      }
    }

    /** The challenges in turn. */
    method AnswerChallenges()
      requires Sane(cfg, Abs())
      modifies this
      ensures Abs() == Spec.AnswerChallenges(cfg, world, old(Abs()), old(response.challenges), "", NoError)
      ensures Challenged(cfg, world, old(Abs()), old(response.challenges), "", Abs())
      ensures Budget(cfg, Abs()) <= old(requests + RanksLeft()) && requests >= old(requests)
      decreases MAX_REDIRECTS - redirects, Unused(context), cfg.retries - attempt, 0, 0
    {
      ChallengesWithinBudget(cfg, world, Abs(), response.challenges, "", NoError);
      ChallengesMeet(cfg, world, Abs(), response.challenges, "");
      hide Spec.Connect, Rank, Budget, Authenticate, AuthAttributes.Parse, Tried, Challenged;
      var challenges := response.challenges;
      var authMethod, err := "", NoError;
      ghost var goal := Spec.AnswerChallenges(cfg, world, Abs(), challenges, "", NoError);
      while challenges != []
        invariant Sane(cfg, Abs())
        invariant redirects == old(redirects) && attempt == old(attempt) && requests == old(requests)
        invariant context == old(context) || (old(context) == NoContext && context.Using?)
        invariant Spec.AnswerChallenges(cfg, world, Abs(), challenges, authMethod, err) == goal
        decreases |challenges|
      {
        var attributes := AuthAttributes.HttpParseAttributes(challenges[0]);
        if attributes != [] {
          authMethod := attributes[0].name;
        }
        var (context', result) := Authenticate(cfg, context, authMethod);
        context := context';
        match result {
          case Ignore =>
          case Credentials => break;
          case Respond =>
            var ok := RewindDocument();
            if ok {
              response := CLEARED;
              Start();
              return;
            }
            err := StreamFailure;
        }
        challenges := challenges[1..];
      }
      phase := Done(err);
    }
  }
}
