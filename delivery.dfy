/** Delivery of a built message (`_send` in services/mail.py): the dry-run
    short cut and the retry loop with doubling back-off. The SMTP session is
    an injected transport that tells the outcome of each connection attempt. */
module Delivery {
  import opened MailErrors
  import opened MessageBuilder

  /** `SMTPConfig`; `timeout` is passed to the transport and plays no part here. */
  datatype Config = Config(
    host: string,
    port: int,
    user: string,
    password: string,
    fromEmail: string,
    timeout: real,
    retries: int,
    dryRun: bool)

  /** How one connection attempt ends: the server accepts the message, or an exception is raised. */
  datatype Outcome = Accepted | Raised(kind: ExceptionKind, detail: string)

  /** What is handed to the SMTP session: the message, its recipients, and
      whether `login` is called first. */
  datatype Submission = Submission(message: Message, recipients: seq<string>, login: bool)

  /** The outcome of the n-th connection attempt (counting from 0) for a submission. */
  type Transport = (Submission, nat) -> Outcome

  /** The result of one call, with the number of connections opened and the
      delays slept between them. */
  datatype Report = Report(result: Result<()>, connections: nat, sleeps: seq<nat>)

  /** The first back-off delay, 1.5 seconds, in tenths of a second. */
  const InitialDelay: nat := 15

  /** Login is attempted only when both user and password are non-empty. */
  function SubmissionOf(b: Built, cfg: Config): Submission
  {
    Submission(b.message, b.recipients, cfg.user != "" && cfg.password != "")
  }

  /** How many retries the loop allows: `attempt > retries` ends it, so a
      negative setting allows none. */
  function Budget(cfg: Config): (b: nat)
    ensures b >= cfg.retries
    ensures b > 0 ==> b == cfg.retries
  {
    if cfg.retries < 0 then 0 else cfg.retries
  }

  predicate TransientAt(t: Transport, sub: Submission, i: nat)
  {
    t(sub, i).Raised? && IsTransient(t(sub, i).kind)
  }

  function Pow2(n: nat): (p: nat)
    ensures p >= 1
  {
    if n == 0 then 1 else 2 * Pow2(n - 1)
  }

  /** The delays slept before each of the first `n` retries. */
  function Backoff(n: nat): (r: seq<nat>)
    ensures |r| == n
    ensures n > 0 ==> r[0] == InitialDelay
    ensures forall i :: 0 <= i < n - 1 ==> r[i + 1] == 2 * r[i]
  {
    if n == 0 then [] else Backoff(n - 1) + [InitialDelay * Pow2(n - 1)]
  }

  /** The index of the last connection attempt, starting from attempt `i`:
      the first one that does not fail transiently, or the one that exhausts the budget. */
  function FinalAttempt(t: Transport, sub: Submission, i: nat, budget: nat): (k: nat)
    requires i <= budget
    ensures i <= k <= budget
    ensures forall j :: i <= j < k ==> TransientAt(t, sub, j)
    ensures k < budget ==> !TransientAt(t, sub, k)
    decreases budget - i
  {
    if i == budget || !TransientAt(t, sub, i) then i else FinalAttempt(t, sub, i + 1, budget)
  }

  /** What the caller sees of the last attempt's outcome. */
  function ResultOf(o: Outcome): Result<()>
  {
    match o
    case Accepted => Ok(())
    case Raised(kind, detail) => Err(TransportFailure(kind, detail))
  }

  /** `_send` as a function of the configuration and the transport. */
  function Deliver(cfg: Config, sub: Submission, t: Transport): (rep: Report)
    ensures !cfg.dryRun ==> 1 <= rep.connections <= Budget(cfg) + 1 && |rep.sleeps| == rep.connections - 1
    ensures rep.result.Err? ==> rep.result.error.TransportFailure?
  {
    if cfg.dryRun then Report(Ok(()), 0, [])
    else
      var k := FinalAttempt(t, sub, 0, Budget(cfg));
      Report(ResultOf(t(sub, k)), k + 1, Backoff(k))
  }

  /** `_send`: a dry run returns at once; otherwise connect, and on a transient
      failure count the attempt, give up once it exceeds `retries`, else sleep
      and double the delay. Any other failure ends the loop at once. */
  method Send(b: Built, cfg: Config, t: Transport) returns (r: Result<()>, ghost connections: nat, ghost sleeps: seq<nat>)
    ensures r == Deliver(cfg, SubmissionOf(b, cfg), t).result
    ensures Report(r, connections, sleeps) == Deliver(cfg, SubmissionOf(b, cfg), t)
  {
    connections, sleeps := 0, [];
    if cfg.dryRun {
      return Ok(()), connections, sleeps;
    }
    var sub := SubmissionOf(b, cfg);
    var attempt: nat := 0;
    var delay: nat := InitialDelay;
    while true
      invariant attempt <= Budget(cfg)
      invariant connections == attempt
      invariant delay == InitialDelay * Pow2(attempt)
      invariant sleeps == Backoff(attempt)
      invariant FinalAttempt(t, sub, 0, Budget(cfg)) == FinalAttempt(t, sub, attempt, Budget(cfg))
      decreases Budget(cfg) - attempt
    {
      var outcome := t(sub, attempt);
      connections := connections + 1;
      match outcome {
        case Accepted =>
          return Ok(()), connections, sleeps;
        case Raised(kind, detail) =>
          if !IsTransient(kind) {
            return Err(TransportFailure(kind, detail)), connections, sleeps;
          }
          attempt := attempt + 1;
          if attempt > cfg.retries {
            return Err(TransportFailure(kind, detail)), connections, sleeps;
          }
          sleeps := sleeps + [delay];
          delay := delay * 2;
      }
    }
  }

  // ---------------------------------------------------------------------------
  // Properties of delivery

  /** A dry run opens no connection, sleeps never and always succeeds. */
  lemma DryRunNeverConnects(cfg: Config, sub: Submission, t: Transport)
    requires cfg.dryRun
    ensures Deliver(cfg, sub, t) == Report(Ok(()), 0, [])
  {
  }

  /** The n-th delay is 1.5 seconds doubled n times, so the delays strictly increase. */
  lemma {:induction false} BackoffDoubles(n: nat)
    ensures forall i :: 0 <= i < n ==> Backoff(n)[i] == InitialDelay * Pow2(i)
    ensures forall i, j :: 0 <= i < j < n ==> Backoff(n)[i] < Backoff(n)[j]
  {
    if n > 0 {
      BackoffDoubles(n - 1);
      assert Backoff(n) == Backoff(n - 1) + [InitialDelay * Pow2(n - 1)];
      forall i, j | 0 <= i < j < n ensures Backoff(n)[i] < Backoff(n)[j] {
        Pow2Increasing(i, j);
      }
    }
  }

  lemma {:induction false} Pow2Increasing(i: nat, j: nat)
    requires i < j
    ensures Pow2(i) < Pow2(j)
    decreases j
  {
    if i + 1 < j {
      Pow2Increasing(i, j - 1);
    }
  }

  /** A transport that keeps failing transiently is tried exactly budget + 1
      times with budget sleeps, and the caller gets the last attempt's error. */
  lemma PersistentTransientFailure(cfg: Config, sub: Submission, t: Transport)
    requires !cfg.dryRun
    requires forall i :: 0 <= i <= Budget(cfg) ==> TransientAt(t, sub, i)
    ensures var rep, last := Deliver(cfg, sub, t), t(sub, Budget(cfg));
      rep.connections == Budget(cfg) + 1
      && rep.sleeps == Backoff(Budget(cfg))
      && last.Raised? && rep.result == Err(TransportFailure(last.kind, last.detail))
  {
    assert TransientAt(t, sub, Budget(cfg));
  }

  /** An attempt that fails with a non-transient error is the last: after k
      transient failures within the budget, exactly k + 1 connections are made,
      k sleeps happen and the error is reported unchanged. */
  lemma {:induction false} FatalErrorEndsDelivery(cfg: Config, sub: Submission, t: Transport, k: nat)
    requires !cfg.dryRun && k <= Budget(cfg)
    requires forall j :: 0 <= j < k ==> TransientAt(t, sub, j)
    requires t(sub, k).Raised? && !IsTransient(t(sub, k).kind)
    ensures var rep := Deliver(cfg, sub, t);
      rep.connections == k + 1 && rep.sleeps == Backoff(k)
      && rep.result == Err(TransportFailure(t(sub, k).kind, t(sub, k).detail))
  {
    FinalAttemptIsFirstStop(t, sub, 0, Budget(cfg), k);
  }

  /** The final attempt is the first attempt at or after `i` that is not transient, when there is one within the budget. */
  lemma {:induction false} FinalAttemptIsFirstStop(t: Transport, sub: Submission, i: nat, budget: nat, k: nat)
    requires i <= k <= budget
    requires forall j :: i <= j < k ==> TransientAt(t, sub, j)
    requires !TransientAt(t, sub, k)
    ensures FinalAttempt(t, sub, i, budget) == k
    decreases k - i
  {
    if i < k {
      FinalAttemptIsFirstStop(t, sub, i + 1, budget, k);
    }
  }

  /** A non-transient error on the first attempt: one connection, no sleep, no retry. */
  lemma FatalFirstAttempt(cfg: Config, sub: Submission, t: Transport)
    requires !cfg.dryRun && t(sub, 0).Raised? && !IsTransient(t(sub, 0).kind)
    ensures Deliver(cfg, sub, t) == Report(Err(TransportFailure(t(sub, 0).kind, t(sub, 0).detail)), 1, [])
  {
    FatalErrorEndsDelivery(cfg, sub, t, 0);
  }

  /** Delivery succeeds exactly when it is a dry run or some attempt within the
      budget is accepted after nothing but transient failures. */
  lemma DeliverySucceedsIff(cfg: Config, sub: Submission, t: Transport)
    ensures Deliver(cfg, sub, t).result.Ok? <==>
      cfg.dryRun || exists k :: 0 <= k <= Budget(cfg) && t(sub, k).Accepted? && forall j :: 0 <= j < k ==> TransientAt(t, sub, j)
  {
    if !cfg.dryRun {
      var last := FinalAttempt(t, sub, 0, Budget(cfg));
      if exists k :: 0 <= k <= Budget(cfg) && t(sub, k).Accepted? && forall j :: 0 <= j < k ==> TransientAt(t, sub, j) {
        var k :| 0 <= k <= Budget(cfg) && t(sub, k).Accepted? && forall j :: 0 <= j < k ==> TransientAt(t, sub, j);
        FinalAttemptIsFirstStop(t, sub, 0, Budget(cfg), k);
      }
    }
  }

  /** With `retries` zero or negative there is a single attempt and no sleep. */
  lemma NoRetryBudget(cfg: Config, sub: Submission, t: Transport)
    requires !cfg.dryRun && cfg.retries <= 0
    ensures Deliver(cfg, sub, t).connections == 1 && Deliver(cfg, sub, t).sleeps == []
  {
  }
}
