/** Resolving one name: two budgets, confirmation through a second proxy, and
    "taken wins", against an arbitrary environment. */
module Resolution {
  import opened Text
  import P = ProxyPool

  const TRANSPORT_RETRIES: nat := 4

  datatype Verdict = SaysAvailable | SaysTaken | SaysUnknown

  /** What came of one request: the connection failed, or the endpoint answered. */
  datatype Reply = Dropped | Answer(verdict: Verdict, retryable: bool)

  datatype Status = Available | Taken | Unknown | Error

  datatype Result = Result(status: Status, via: Option<string>, unconfirmed: bool)

  /** Everything outside the loop's control, by request number: the shared pool and
      clock when the proxy is picked (other workers may have done anything to the
      pool in between), the reply, and whether the run is cancelled at a try or
      during a pause. */
  datatype Env = Env(
    pools: nat -> P.Pool,
    clock: nat -> int,
    replies: nat -> Reply,
    cancelled: nat -> bool,
    interrupted: nat -> bool)

  datatype Attempt = Attempt(avoid: string, spec: Option<string>, reply: Reply, confirming: bool)

  function KeyOf(spec: Option<string>): string {
    match spec case None => "" case Some(k) => k
  }

  /** `attemptOnce` for request number `i`. */
  function AttemptOnce(env: Env, i: nat, avoid: string, confirming: bool): Attempt {
    Attempt(avoid, P.Pick(env.pools(i), avoid, env.clock(i)).0, env.replies(i), confirming)
  }

  function Budget(retries: int): nat {
    if retries < 2 then 2 else retries
  }

  // ------------------------------------------------------------- on request logs

  predicate Says(a: Attempt, v: Verdict) {
    a.reply.Answer? && a.reply.verdict == v
  }

  /** Tries that counted as asking about the name. */
  function Answers(log: seq<Attempt>): nat {
    if log == [] then 0
    else Answers(log[..|log| - 1]) + (if !log[|log| - 1].confirming && log[|log| - 1].reply.Answer? then 1 else 0)
  }

  /** Tries whose connection never completed. */
  function Drops(log: seq<Attempt>): nat {
    if log == [] then 0
    else Drops(log[..|log| - 1]) + (if !log[|log| - 1].confirming && log[|log| - 1].reply.Dropped? then 1 else 0)
  }

  /** The proxy of the last try, confirmations aside. */
  function LastTried(log: seq<Attempt>): Option<string> {
    if log == [] then None
    else if log[|log| - 1].confirming then LastTried(log[..|log| - 1])
    else log[|log| - 1].spec
  }

  lemma NothingAskedYet(env: Env)
    ensures Faithful(env, []) && Undecided([]) && !SomebodyAnswered([])
    ensures Answers([]) == 0 && Drops([]) == 0 && LastTried([]) == None
  {
  }

  lemma Extend(log: seq<Attempt>, a: Attempt)
    ensures Answers(log + [a]) == Answers(log) + (if !a.confirming && a.reply.Answer? then 1 else 0)
    ensures Drops(log + [a]) == Drops(log) + (if !a.confirming && a.reply.Dropped? then 1 else 0)
    ensures LastTried(log + [a]) == if a.confirming then LastTried(log) else a.spec
  {
    assert (log + [a])[..|log|] == log;
  }

  /** Every request went where the pool sent it, asked to avoid the last tried proxy. */
  ghost predicate Faithful(env: Env, log: seq<Attempt>) {
    forall i :: 0 <= i < |log| ==>
      log[i] == AttemptOnce(env, i, KeyOf(LastTried(log[..i])), log[i].confirming)
  }

  lemma FaithfulExtend(env: Env, log: seq<Attempt>, confirming: bool)
    requires Faithful(env, log)
    ensures Faithful(env, log + [AttemptOnce(env, |log|, KeyOf(LastTried(log)), confirming)])
  {
    var log' := log + [AttemptOnce(env, |log|, KeyOf(LastTried(log)), confirming)];
    assert forall i :: 0 <= i <= |log| ==> log'[..i] == log[..i];
    assert log[..|log|] == log;
  }

  /** Pools as the run can meet them, whose keys are never empty. */
  ghost predicate PoolsAreSound(env: Env) {
    forall i: nat :: P.PoolInv(env.pools(i)) && "" !in env.pools(i).items
  }

  ghost predicate NeverCancelled(env: Env) {
    forall i: nat :: !env.cancelled(i) && !env.interrupted(i)
  }

  // ------------------------------------------------------------- what is promised

  predicate LastSays(log: seq<Attempt>, v: Verdict) {
    log != [] && Says(log[|log| - 1], v)
  }

  /** The verdict is taken exactly when some answer said so, and that answer, once
      given, ended the questioning. */
  predicate TakenWins(res: Result, log: seq<Attempt>) {
    && (res.status == Taken <==> exists a <- log :: Says(a, SaysTaken))
    && (res.status == Taken ==> LastSays(log, SaysTaken) && res.via == log[|log| - 1].spec)
  }

  /** The verdict is available exactly when the last answer said so as a
      confirmation. Then the answer before it said so too, and the verdict is
      unflagged exactly when the two came through different proxies. */
  predicate AvailableIsConfirmed(res: Result, log: seq<Attempt>) {
    && (res.status == Available <==> LastSays(log, SaysAvailable) && log[|log| - 1].confirming)
    && (res.status == Available ==>
          && |log| >= 2 && Says(log[|log| - 2], SaysAvailable) && !log[|log| - 2].confirming
          && res.via == log[|log| - 2].spec
          && (res.unconfirmed <==> log[|log| - 1].spec == log[|log| - 2].spec))
    && (res.unconfirmed ==> res.status == Available)
  }

  /** Without confirmation one answer is enough. */
  predicate AvailableIsTrusted(res: Result, log: seq<Attempt>) {
    && (res.status == Available <==> LastSays(log, SaysAvailable))
    && (res.status == Available ==> res.via == log[|log| - 1].spec)
    && !res.unconfirmed
  }

  /** An error is reported exactly when nobody answered. */
  predicate ErrorMeansSilence(res: Result, log: seq<Attempt>) {
    res.status == Error <==> forall a <- log :: a.reply.Dropped?
  }

  predicate Promised(res: Result, log: seq<Attempt>, noConfirm: bool) {
    && TakenWins(res, log)
    && (if noConfirm then AvailableIsTrusted(res, log) else AvailableIsConfirmed(res, log))
    && ErrorMeansSilence(res, log)
    && (res.status in {Unknown, Error} ==> res.via == LastTried(log))
  }

  predicate NobodySaidTaken(log: seq<Attempt>) {
    forall a <- log :: !Says(a, SaysTaken)
  }

  /** No answer so far has decided anything. */
  predicate Undecided(log: seq<Attempt>) {
    NobodySaidTaken(log) && !LastSays(log, SaysAvailable)
  }

  lemma StaysUndecided(log: seq<Attempt>, a: Attempt)
    requires NobodySaidTaken(log) && !Says(a, SaysTaken)
    ensures NobodySaidTaken(log + [a])
    ensures !Says(a, SaysAvailable) ==> Undecided(log + [a])
  {
  }

  predicate SomebodyAnswered(log: seq<Attempt>) {
    exists a <- log :: a.reply.Answer?
  }

  lemma AnswersAdd(log: seq<Attempt>, a: Attempt)
    ensures SomebodyAnswered(log + [a]) <==> SomebodyAnswered(log) || a.reply.Answer?
  {
    if a.reply.Answer? {
      assert a in log + [a];
    }
    if b :| b in log && b.reply.Answer? {
      assert b in log + [a];
    }
  }

  lemma EndsTaken(log: seq<Attempt>, a: Attempt, noConfirm: bool)
    requires Says(a, SaysTaken)
    ensures Promised(Result(Taken, a.spec, false), log + [a], noConfirm)
  {
    assert a in log + [a];
  }

  lemma EndsTrusted(log: seq<Attempt>, a: Attempt)
    requires Undecided(log) && Says(a, SaysAvailable)
    ensures Promised(Result(Available, a.spec, false), log + [a], true)
  {
    assert a in log + [a];
  }

  lemma EndsConfirmed(log: seq<Attempt>, a: Attempt, c: Attempt)
    requires Undecided(log) && Says(a, SaysAvailable) && !a.confirming
    requires Says(c, SaysAvailable) && c.confirming
    ensures Promised(Result(Available, a.spec, a.spec == c.spec), log + [a] + [c], false)
  {
    var l := log + [a] + [c];
    assert c in l && l[|l| - 1] == c && l[|l| - 2] == a;
  }

  lemma EndsUndecided(log: seq<Attempt>, noConfirm: bool)
    requires Undecided(log)
    ensures SomebodyAnswered(log) ==> Promised(Result(Unknown, LastTried(log), false), log, noConfirm)
    ensures !SomebodyAnswered(log) ==> Promised(Result(Error, LastTried(log), false), log, noConfirm)
  {
  }

  // ------------------------------------------------------ when it asks, and stops

  /** An answer that says available and has not been confirmed. */
  predicate AwaitsConfirmation(log: seq<Attempt>, noConfirm: bool) {
    !noConfirm && LastSays(log, SaysAvailable) && !log[|log| - 1].confirming
  }

  /** A confirming request is made at once after such an answer, and nowhere else. */
  predicate ConfirmsAtOnce(log: seq<Attempt>, noConfirm: bool) {
    forall i :: 0 <= i < |log| ==> (log[i].confirming <==> AwaitsConfirmation(log[..i], noConfirm))
  }

  /** Tries so far, confirmations aside. */
  function Tries(log: seq<Attempt>): nat {
    Answers(log) + Drops(log)
  }

  /** The run was cancelled in the pause after a throttled answer. */
  predicate Halted(env: Env, log: seq<Attempt>, budget: nat) {
    && log != [] && !log[|log| - 1].confirming
    && Says(log[|log| - 1], SaysUnknown) && log[|log| - 1].reply.retryable
    && Answers(log) < budget && Tries(log) > 0 && env.interrupted(Tries(log) - 1)
  }

  /** Nothing more is to be asked: a verdict, a budget used up, or a cancelled run. */
  predicate Stops(env: Env, log: seq<Attempt>, budget: nat, noConfirm: bool) {
    && !AwaitsConfirmation(log, noConfirm)
    && (|| LastSays(log, SaysTaken) || LastSays(log, SaysAvailable)
        || Answers(log) >= budget || Tries(log) >= budget + TRANSPORT_RETRIES
        || env.cancelled(Tries(log)) || Halted(env, log, budget))
  }

  ghost predicate KeptGoing(env: Env, log: seq<Attempt>, budget: nat, noConfirm: bool) {
    forall p :: 0 <= p < |log| ==> !Stops(env, log[..p], budget, noConfirm)
  }

  /** A log as the loop leaves it: every request the one to be made next, and the last one
      where there was nothing more to ask. */
  ghost predicate Complete(env: Env, log: seq<Attempt>, budget: nat, noConfirm: bool) {
    && Faithful(env, log) && ConfirmsAtOnce(log, noConfirm)
    && KeptGoing(env, log, budget, noConfirm) && Stops(env, log, budget, noConfirm)
  }

  lemma KeepsGoing(env: Env, log: seq<Attempt>, a: Attempt, budget: nat, noConfirm: bool)
    requires KeptGoing(env, log, budget, noConfirm) && ConfirmsAtOnce(log, noConfirm)
    requires !Stops(env, log, budget, noConfirm)
    requires a.confirming <==> AwaitsConfirmation(log, noConfirm)
    ensures KeptGoing(env, log + [a], budget, noConfirm) && ConfirmsAtOnce(log + [a], noConfirm)
  {
    hide Stops;
    hide AwaitsConfirmation;
    var log' := log + [a];
    assert forall i :: 0 <= i < |log| ==> log'[..i] == log[..i];
    assert log'[..|log|] == log;
  }

  lemma NothingKeptGoing(env: Env, budget: nat, noConfirm: bool)
    ensures KeptGoing(env, [], budget, noConfirm) && ConfirmsAtOnce([], noConfirm)
  {
  }

  /** At the top of the loop there is more to ask. */
  lemma GoesOn(env: Env, log: seq<Attempt>, budget: nat, noConfirm: bool)
    requires Undecided(log) && !Halted(env, log, budget)
    requires Answers(log) < budget && Tries(log) < budget + TRANSPORT_RETRIES && !env.cancelled(Tries(log))
    ensures !Stops(env, log, budget, noConfirm) && !AwaitsConfirmation(log, noConfirm)
  {
  }

  /** So there is after an available that needs confirming. */
  lemma MustConfirm(env: Env, log: seq<Attempt>, a: Attempt, budget: nat)
    requires Says(a, SaysAvailable) && !a.confirming
    ensures !Stops(env, log + [a], budget, false) && AwaitsConfirmation(log + [a], false)
  {
  }

  lemma StopsOnVerdict(env: Env, log: seq<Attempt>, a: Attempt, budget: nat, noConfirm: bool)
    requires Says(a, SaysTaken) || (Says(a, SaysAvailable) && (noConfirm || a.confirming))
    ensures Stops(env, log + [a], budget, noConfirm)
  {
  }

  lemma StopsUndecided(env: Env, log: seq<Attempt>, budget: nat, noConfirm: bool)
    requires Undecided(log)
    requires || Answers(log) >= budget || Tries(log) >= budget + TRANSPORT_RETRIES
             || env.cancelled(Tries(log)) || Halted(env, log, budget)
    ensures Stops(env, log, budget, noConfirm)
  {
  }

  lemma NotHaltedYet(env: Env, budget: nat)
    ensures !Halted(env, [], budget)
  {
  }

  lemma HaltsOn(env: Env, log: seq<Attempt>, a: Attempt, budget: nat)
    ensures Halted(env, log + [a], budget) <==>
              && !a.confirming && Says(a, SaysUnknown) && a.reply.retryable
              && Answers(log + [a]) < budget && Tries(log + [a]) > 0 && env.interrupted(Tries(log + [a]) - 1)
  {
  }

  /** There is only one such log: nothing about what is asked, when it is confirmed and
      where it ends is left open. */
  lemma LogIsDetermined(env: Env, log: seq<Attempt>, log': seq<Attempt>, budget: nat, noConfirm: bool)
    requires Complete(env, log, budget, noConfirm) && Complete(env, log', budget, noConfirm)
    ensures log == log'
  {
    hide Stops;
    hide AwaitsConfirmation;
    hide AttemptOnce;
    var n := if |log| <= |log'| then |log| else |log'|;
    SameUpTo(env, log, log', noConfirm, n);
    assert log[..|log|] == log && log'[..|log'|] == log';
  }

  lemma {:induction false} SameUpTo(env: Env, log: seq<Attempt>, log': seq<Attempt>, noConfirm: bool, n: nat)
    requires Faithful(env, log) && ConfirmsAtOnce(log, noConfirm)
    requires Faithful(env, log') && ConfirmsAtOnce(log', noConfirm)
    requires n <= |log| && n <= |log'|
    ensures log[..n] == log'[..n]
  {
    hide AwaitsConfirmation;
    hide AttemptOnce;
    hide LastTried;
    if n > 0 {
      SameUpTo(env, log, log', noConfirm, n - 1);
      var i := n - 1;
      assert log[i].confirming == log'[i].confirming;
      assert log[i] == AttemptOnce(env, i, KeyOf(LastTried(log[..i])), log[i].confirming);
      assert log'[i] == AttemptOnce(env, i, KeyOf(LastTried(log'[..i])), log'[i].confirming);
      assert log[..n] == log[..i] + [log[i]] && log'[..n] == log'[..i] + [log'[i]];
    }
  }

  /** Nor is anything about the result. */
  lemma ResultIsDetermined(res: Result, res': Result, log: seq<Attempt>, noConfirm: bool)
    requires Promised(res, log, noConfirm) && Promised(res', log, noConfirm)
    ensures res == res'
  {
  }

  /** When every request is answered with available and nothing is cancelled, that is the
      verdict, from one answer or two. */
  lemma AllAvailableIsAvailable(env: Env, res: Result, log: seq<Attempt>, retries: int, noConfirm: bool)
    requires Complete(env, log, Budget(retries), noConfirm) && Promised(res, log, noConfirm)
    requires NeverCancelled(env)
    requires forall i: nat :: env.replies(i).Answer? && env.replies(i).verdict == SaysAvailable
    ensures res.status == Available && |log| == if noConfirm then 1 else 2
  {
    hide P.Pick;
    var budget := Budget(retries);
    assert log != [] by { NothingAskedYet(env); }
    assert Says(log[0], SaysAvailable);
    assert log[..0] == [] && !log[0].confirming;
    if |log| >= 2 {
      assert Says(log[1], SaysAvailable);
      assert log[..1] == [log[0]] && log[..2] == [log[0], log[1]];
      assert !Stops(env, log[..1], budget, noConfirm);
      assert log[1].confirming;
    }
  }

  // ------------------------------------------------------------------- the loop

  /** `checkWithRetries`. The log is the one complete log, and the result what was promised
      of it. At most 2 * max(2, retries) + 4 requests are made; a run that was not
      cancelled, came to no verdict and lost at most four connections asked about the name
      as often as it was meant to. */
  method CheckWithRetries(env: Env, retries: int, noConfirm: bool)
    returns (res: Result, log: seq<Attempt>)
    requires PoolsAreSound(env)
    ensures Complete(env, log, Budget(retries), noConfirm)
    ensures Promised(res, log, noConfirm)
    ensures |log| <= 2 * (if retries > 2 then retries else 2) + 4
    ensures NeverCancelled(env) && res.status in {Unknown, Error} && Drops(log) <= 4 ==>
              Answers(log) == if retries > 2 then retries else 2
  {
    hide P.Pick;
    hide P.PoolInv;
    hide Faithful;
    hide Promised;
    hide NobodySaidTaken;
    hide SomebodyAnswered;
    hide Answers;
    hide Drops;
    hide LastTried;
    hide PoolsAreSound;
    hide KeptGoing;
    hide ConfirmsAtOnce;
    hide AwaitsConfirmation;
    hide Stops;
    hide Halted;
    var attempts := Budget(retries);
    log := [];
    NothingAskedYet(env);
    NothingKeptGoing(env, attempts, noConfirm);
    assert !Halted(env, log, attempts) by { NotHaltedYet(env, attempts); }
    var requests := 0;
    var answers, tries := 0, 0;
    var avoid := "";
    var last: Option<string> := None;
    var sawResponse := false;
    while tries < attempts + TRANSPORT_RETRIES && answers < attempts
      invariant requests == |log| <= tries + answers
      invariant answers <= attempts && tries <= attempts + TRANSPORT_RETRIES
      invariant Faithful(env, log)
      invariant answers == Answers(log) && tries - answers == Drops(log)
      invariant last == LastTried(log) && avoid == KeyOf(last)
      invariant Undecided(log) && !Halted(env, log, attempts)
      invariant KeptGoing(env, log, attempts, noConfirm) && ConfirmsAtOnce(log, noConfirm)
      invariant sawResponse <==> SomebodyAnswered(log)
      decreases attempts + TRANSPORT_RETRIES - tries
    {
      if env.cancelled(tries) {
        break;
      }
      ghost var before := log;
      var out := AttemptOnce(env, requests, avoid, false);
      FaithfulExtend(env, log, false);
      GoesOn(env, log, attempts, noConfirm);
      KeepsGoing(env, log, out, attempts, noConfirm);
      Extend(log, out);
      AnswersAdd(log, out);
      HaltsOn(env, log, out, attempts);
      log := log + [out];
      requests := requests + 1;
      last := out.spec;
      avoid := KeyOf(out.spec);
      tries := tries + 1;
      if out.reply.Dropped? {
        StaysUndecided(before, out);
        continue;
      }
      answers := answers + 1;
      sawResponse := true;

      match out.reply.verdict {
        case SaysAvailable =>
          if noConfirm {
            EndsTrusted(before, out);
            StopsOnVerdict(env, before, out, attempts, noConfirm);
            return Result(Available, out.spec, false), log;
          }
          var confirm := AttemptOnce(env, requests, avoid, true);
          ghost var first := log;
          FaithfulExtend(env, log, true);
          MustConfirm(env, before, out, attempts);
          KeepsGoing(env, log, confirm, attempts, noConfirm);
          Extend(log, confirm);
          AnswersAdd(log, confirm);
          HaltsOn(env, log, confirm, attempts);
          StaysUndecided(before, out);
          PickFromSound(env, requests - 1, out.avoid);
          log := log + [confirm];
          requests := requests + 1;
          var sameProxy := avoid != "" && confirm.spec.Some? && confirm.spec.value == avoid;
          var noProxies := out.spec.None? && confirm.spec.None?;
          if Says(confirm, SaysAvailable) {
            EndsConfirmed(before, out, confirm);
            StopsOnVerdict(env, first, confirm, attempts, noConfirm);
            return Result(Available, out.spec, sameProxy || noProxies), log;
          }
          if Says(confirm, SaysTaken) {
            EndsTaken(first, confirm, noConfirm);
            StopsOnVerdict(env, first, confirm, attempts, noConfirm);
            return Result(Taken, confirm.spec, false), log;
          }
          StaysUndecided(first, confirm);
          continue;
        case SaysTaken =>
          EndsTaken(before, out, noConfirm);
          StopsOnVerdict(env, before, out, attempts, noConfirm);
          return Result(Taken, out.spec, false), log;
        case SaysUnknown =>
          StaysUndecided(before, out);
      }
      if out.reply.retryable && answers < attempts {
        if env.interrupted(tries - 1) {
          EndsUndecided(log, noConfirm);
          StopsUndecided(env, log, attempts, noConfirm);
          return Result(Unknown, out.spec, false), log;
        }
      }
    }
    EndsUndecided(log, noConfirm);
    StopsUndecided(env, log, attempts, noConfirm);
    if sawResponse {
      return Result(Unknown, last, false), log;
    }
    return Result(Error, last, false), log;
  }

  lemma PickFromSound(env: Env, i: nat, avoid: string)
    requires PoolsAreSound(env)
    ensures P.Pick(env.pools(i), avoid, env.clock(i)).0 != Some("")
  {
    P.PickIsSecondOpinion(env.pools(i), avoid, env.clock(i));
  }

  // ------------------------------------------------- composed with the proxy pool

  /** A confirmation goes through the proxy it was meant to avoid only when the pool,
      at that moment, was about to step over every other awake proxy for slowness
      (or had none). */
  lemma SameProxyMeansCornered(env: Env, log: seq<Attempt>, i: nat)
    requires PoolsAreSound(env) && Faithful(env, log) && i < |log|
    requires log[i].spec.Some? && log[i].spec.value == log[i].avoid
    ensures P.AllPassedOver(P.Refreshed(env.pools(i), env.clock(i)), log[i].avoid)
  {
    P.PickIsSecondOpinion(env.pools(i), log[i].avoid, env.clock(i));
    PickFromSound(env, i, log[i].avoid);
  }

  /** With more other awake proxies than half the pool, or one and none slow, an
      available verdict is a genuine second opinion. */
  lemma HealthyPoolConfirms(env: Env, log: seq<Attempt>, i: nat)
    requires PoolsAreSound(env) && Faithful(env, log) && i < |log| && log[i].avoid != ""
    requires env.pools(i).items != []
    requires var q := P.Refreshed(env.pools(i), env.clock(i)); var v := P.ViewOf(q, log[i].avoid);
             |P.Eligible(q.items, v)| > |q.items| / 2
             || (P.Eligible(q.items, v) != [] && forall k <- P.Eligible(q.items, v) :: !P.Slow(q.latency, v.cutoff, k))
    ensures log[i].spec.Some? && log[i].spec.value != log[i].avoid
    ensures log[i].spec.value !in P.Refreshed(env.pools(i), env.clock(i)).sleeping
  {
    P.EnoughProxiesGiveSecondOpinion(env.pools(i), log[i].avoid, env.clock(i));
    P.PickIsSecondOpinion(env.pools(i), log[i].avoid, env.clock(i));
  }

  // ------------------------------------------------------------------ the pause

  /** Milliseconds; the source's nanoseconds are these times a million. */
  const FIRST_PAUSE: nat := 80
  const LONGEST_PAUSE: nat := 800

  /** Doubling from the first pause, capped. */
  function Backoff(attempt: nat): (b: nat)
    ensures FIRST_PAUSE <= b <= LONGEST_PAUSE
  {
    if attempt == 0 then FIRST_PAUSE
    else if 2 * Backoff(attempt - 1) > LONGEST_PAUSE then LONGEST_PAUSE
    else 2 * Backoff(attempt - 1)
  }

  function Pow2(n: nat): nat {
    if n == 0 then 1 else 2 * Pow2(n - 1)
  }

  /** Eighty milliseconds, doubled for every attempt before, up to eight hundred. */
  lemma {:induction false} BackoffDoubles(attempt: nat)
    ensures Backoff(attempt) == if 80 * Pow2(attempt) > 800 then 800 else 80 * Pow2(attempt)
  {
    if attempt > 0 {
      BackoffDoubles(attempt - 1);
    }
  }

  /** `retryPause`: the doubling loop stops at the ceiling, so no attempt number
      however large can overflow it. The jitter is any number below the doubled pause. */
  method RetryPause(attempt: nat, jitter: nat -> nat) returns (d: nat)
    requires forall n: nat :: n > 0 ==> jitter(n) < n
    ensures var base := if 80 * Pow2(attempt) > 800 then 800 else 80 * Pow2(attempt);
            d == if base / 2 + jitter(base) > 800 then 800 else base / 2 + jitter(base)
    ensures Backoff(attempt) / 2 <= d <= LONGEST_PAUSE
    ensures 2 * d < 3 * Backoff(attempt)
  {
    var base, i := FIRST_PAUSE, 0;
    while i < attempt && base < LONGEST_PAUSE
      invariant 0 <= i <= attempt
      invariant base <= 2 * LONGEST_PAUSE
      invariant Backoff(i) == if base > LONGEST_PAUSE then LONGEST_PAUSE else base
      invariant base >= FIRST_PAUSE
    {
      base := base * 2;
      i := i + 1;
    }
    BackoffStays(i, attempt);
    BackoffDoubles(attempt);
    if base > LONGEST_PAUSE {
      base := LONGEST_PAUSE;
    }
    d := base / 2 + jitter(base);
    if d > LONGEST_PAUSE {
      d := LONGEST_PAUSE;
    }
  }

  /** Once at the ceiling, always at the ceiling. */
  lemma {:induction false} BackoffStays(i: nat, j: nat)
    requires i <= j
    ensures Backoff(i) == LONGEST_PAUSE ==> Backoff(j) == LONGEST_PAUSE
    ensures i == j ==> Backoff(i) == Backoff(j)
  {
    if i < j {
      BackoffStays(i, j - 1);
    }
  }
}
