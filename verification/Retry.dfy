/** Capped doubling, as the wallet's retry loop iterates it and as the uploader computes it in one go. */
module Backoff {

  function Pow2(n: nat): (p: nat)
    ensures p >= 1
  {
    if n == 0 then 1 else 2 * Pow2(n - 1)
  }

  function Min(a: int, b: int): int {
    if a < b then a else b
  }

  /** `base` doubled `n` times, cut off at `cap` after every doubling. */
  function Doubled(base: nat, cap: nat, n: nat): nat {
    if n == 0 then base else Min(Doubled(base, cap, n - 1) * 2, cap)
  }

  lemma TwiceTheProduct(base: nat, p: nat)
    ensures base * (2 * p) == 2 * (base * p)
  {
  }

  /** Cutting off after every doubling is the same as doubling first and cutting off once. */
  lemma {:induction false} DoubledIsCappedPower(base: nat, cap: nat, n: nat)
    requires base <= cap
    ensures Doubled(base, cap, n) == Min(base * Pow2(n), cap)
  {
    if n > 0 {
      DoubledIsCappedPower(base, cap, n - 1);
      TwiceTheProduct(base, Pow2(n - 1));
    }
  }

  lemma {:induction false} DoubledBounds(base: nat, cap: nat, n: nat)
    requires base <= cap
    ensures base <= Doubled(base, cap, n) <= cap
  {
    if n > 0 {
      DoubledBounds(base, cap, n - 1);
    }
  }

  /** The delay before the retry that follows attempt number `attempt`, counted from one. */
  function DelayForAttempt(baseDelay: nat, maxDelay: nat, attempt: nat): nat
    requires attempt >= 1
  {
    var delay := baseDelay * Pow2(attempt - 1);
    if delay >= maxDelay then maxDelay else delay
  }

  lemma DelayForAttemptIsDoubled(baseDelay: nat, maxDelay: nat, attempt: nat)
    requires attempt >= 1 && baseDelay <= maxDelay
    ensures DelayForAttempt(baseDelay, maxDelay, attempt) == Doubled(baseDelay, maxDelay, attempt - 1)
    ensures baseDelay <= DelayForAttempt(baseDelay, maxDelay, attempt) <= maxDelay
  {
    DoubledIsCappedPower(baseDelay, maxDelay, attempt - 1);
    DoubledBounds(baseDelay, maxDelay, attempt - 1);
  }
}

/** The wallet client's budgeted retry loop. Durations are whole nanoseconds. */
module Retry {
  import opened Common
  import opened Backoff

  const SECOND: nat := 1_000_000_000
  const DEFAULT_BUDGET: nat := 60 * SECOND
  const INITIAL_BACKOFF: nat := SECOND
  const MAX_BACKOFF: nat := 8 * SECOND

  datatype Failure = NoFailure | ConnectionRefused | OtherFailure

  /** One answer of the server, or one failed send. `retryAfter` is the header, when it is an integer. */
  datatype Reply = Reply(status: int, retryAfter: Option<int>, failure: Failure)

  datatype Stop = NotRetryable | BudgetSpent | SleepFailed

  type Predicate = (int, Failure) -> bool

  function TransientAnswer(status: int, failure: Failure): bool {
    if failure != NoFailure then failure == ConnectionRefused
    else status == 429 || status == 502 || status == 503 || status == 504
  }

  function RequestNeverProcessed(status: int, failure: Failure): bool {
    if failure != NoFailure then failure == ConnectionRefused else status == 429
  }

  /** The wait the server asked for; anything but a positive number of seconds asks for none. */
  function AskedWait(reply: Reply): nat {
    if reply.retryAfter.Some? && reply.retryAfter.value > 0 then reply.retryAfter.value * SECOND else 0
  }

  function Budget(configured: int): int {
    if configured == 0 then DEFAULT_BUDGET else configured
  }

  // ---------------------------------------------------------------- the run, told by its replies alone

  /** The k-th delay (counted from zero) of a run that meets `send`. */
  function Delay(send: nat -> Reply, k: nat): nat {
    if AskedWait(send(k)) > 0 then AskedWait(send(k)) else Min(Pow2(k), 8) * SECOND
  }

  function Waited(send: nat -> Reply, k: nat): nat {
    if k == 0 then 0 else Waited(send, k - 1) + Delay(send, k - 1)
  }

  function ShouldRetry(retryable: Predicate, reply: Reply): bool {
    retryable(reply.status, reply.failure)
  }

  /** After its k-th send the run sleeps and sends again. */
  predicate GoesOn(budget: int, retryable: Predicate, send: nat -> Reply, sleeps: nat -> bool, k: nat) {
    ShouldRetry(retryable, send(k)) && Waited(send, k + 1) <= budget && sleeps(k)
  }

  function StopReason(budget: int, retryable: Predicate, send: nat -> Reply, k: nat): Stop {
    if !ShouldRetry(retryable, send(k)) then NotRetryable
    else if Waited(send, k + 1) > budget then BudgetSpent
    else SleepFailed
  }

  /** A whole run: the replies before the last were retried, and the last was not, for the reason given. */
  predicate RunOf(configured: int, retryable: Predicate, send: nat -> Reply, sleeps: nat -> bool,
                  sends: nat, stop: Stop) {
    && sends >= 1
    && (forall k: nat :: k < sends - 1 ==> GoesOn(Budget(configured), retryable, send, sleeps, k))
    && !GoesOn(Budget(configured), retryable, send, sleeps, sends - 1)
    && stop == StopReason(Budget(configured), retryable, send, sends - 1)
  }

  /** The loop's `backoff` after `k` retries, doubled and cut off each time, is the capped power of two. */
  lemma BackoffIsCappedPower(k: nat)
    ensures Doubled(INITIAL_BACKOFF, MAX_BACKOFF, k) == Min(Pow2(k), 8) * SECOND
  {
    DoubledIsCappedPower(INITIAL_BACKOFF, MAX_BACKOFF, k);
  }

  lemma DelayIsASecondOrMore(send: nat -> Reply, k: nat)
    ensures Delay(send, k) >= SECOND
  {
  }

  /** `sends`, the retained reply, whether the error returned is the sleep's, and every delay slept. */
  method Run(configured: int, retryable: Predicate, send: nat -> Reply, sleeps: nat -> bool)
    returns (got: Reply, sends: nat, stop: Stop, slept: seq<nat>)
    ensures RunOf(configured, retryable, send, sleeps, sends, stop)
    ensures got == send(sends - 1)
    ensures |slept| == sends - 1 && forall k :: 0 <= k < |slept| ==> slept[k] == Delay(send, k)
    ensures Waited(send, |slept|) <= if Budget(configured) < 0 then 0 else Budget(configured)
  {
    var budget := if configured == 0 then DEFAULT_BUDGET else configured;
    var waited: nat := 0;
    var backoff: nat := INITIAL_BACKOFF;
    slept := [];
    sends := 0;
    while true
      invariant sends == |slept|
      invariant waited == Waited(send, sends)
      invariant sends > 0 ==> waited <= budget
      invariant backoff == Min(Pow2(sends), 8) * SECOND
      invariant forall k :: 0 <= k < sends ==> slept[k] == Delay(send, k)
      invariant forall k: nat :: k < sends ==> GoesOn(budget, retryable, send, sleeps, k)
      decreases budget - waited
    {
      got := send(sends);
      sends := sends + 1;
      if !retryable(got.status, got.failure) {
        return got, sends, NotRetryable, slept;
      }
      var delay := backoff;
      if AskedWait(got) > 0 {
        delay := AskedWait(got);
      }
      assert delay == Delay(send, sends - 1);
      if waited + delay > budget {
        return got, sends, BudgetSpent, slept;
      }
      if !sleeps(sends - 1) {
        return got, sends, SleepFailed, slept;
      }
      waited := waited + delay;
      slept := slept + [delay];
      backoff := Min(backoff * 2, MAX_BACKOFF);
    }
  }

  // ---------------------------------------------------------------- what every run keeps

  /** The replies, the budget and the sleeps leave no choice: there is one run. */
  lemma RunIsUnique(configured: int, retryable: Predicate, send: nat -> Reply, sleeps: nat -> bool,
                    a: nat, p: Stop, b: nat, q: Stop)
    requires RunOf(configured, retryable, send, sleeps, a, p) && RunOf(configured, retryable, send, sleeps, b, q)
    ensures a == b && p == q
  {
  }

  /** The number of sends of a run that has already gone on `k` times. */
  function SendsFrom(configured: int, retryable: Predicate, send: nat -> Reply, sleeps: nat -> bool, k: nat): nat
    requires k > 0 ==> Waited(send, k) <= Budget(configured)
    decreases Budget(configured) - Waited(send, k)
  {
    if GoesOn(Budget(configured), retryable, send, sleeps, k)
    then SendsFrom(configured, retryable, send, sleeps, k + 1)
    else k + 1
  }

  function Sends(configured: int, retryable: Predicate, send: nat -> Reply, sleeps: nat -> bool): nat {
    SendsFrom(configured, retryable, send, sleeps, 0)
  }

  function StopOf(configured: int, retryable: Predicate, send: nat -> Reply, sleeps: nat -> bool, sends: nat): Stop
    requires sends >= 1
  {
    StopReason(Budget(configured), retryable, send, sends - 1)
  }

  lemma {:induction false} SendsFromRuns(configured: int, retryable: Predicate, send: nat -> Reply, sleeps: nat -> bool, k: nat)
    requires k > 0 ==> Waited(send, k) <= Budget(configured)
    requires forall j: nat :: j < k ==> GoesOn(Budget(configured), retryable, send, sleeps, j)
    ensures var n := SendsFrom(configured, retryable, send, sleeps, k);
            n >= 1 && RunOf(configured, retryable, send, sleeps, n, StopOf(configured, retryable, send, sleeps, n))
    decreases Budget(configured) - Waited(send, k)
  {
    if GoesOn(Budget(configured), retryable, send, sleeps, k) {
      SendsFromRuns(configured, retryable, send, sleeps, k + 1);
    }
  }

  /** Every run is the one the replies prescribe. */
  lemma RunIsPrescribed(configured: int, retryable: Predicate, send: nat -> Reply, sleeps: nat -> bool,
                        sends: nat, stop: Stop)
    ensures var n := Sends(configured, retryable, send, sleeps);
            n >= 1 &&
            (RunOf(configured, retryable, send, sleeps, sends, stop) <==>
              sends == n && stop == StopOf(configured, retryable, send, sleeps, n))
  {
    var n := Sends(configured, retryable, send, sleeps);
    SendsFromRuns(configured, retryable, send, sleeps, 0);
    if RunOf(configured, retryable, send, sleeps, sends, stop) {
      RunIsUnique(configured, retryable, send, sleeps, sends, stop, n, StopOf(configured, retryable, send, sleeps, n));
    }
  }

  /** The pause after the k-th send: what the server asked for in seconds, or else 1, 2, 4 and then always 8 seconds. */
  lemma PauseIs(send: nat -> Reply, k: nat)
    ensures var asked := send(k).retryAfter;
            Delay(send, k) ==
              if asked.Some? && asked.value > 0 then asked.value * 1_000_000_000
              else if k == 0 then 1_000_000_000
              else if k == 1 then 2_000_000_000
              else if k == 2 then 4_000_000_000
              else 8_000_000_000
  {
    assert Pow2(0) == 1 && Pow2(1) == 2 && Pow2(2) == 4 && Pow2(3) == 8;
    if k >= 3 {
      Pow2Grows(3, k);
    }
  }

  /** Why a run stops: each reason says what its last reply, its budget and its last pause were. */
  lemma StopsBecause(configured: int, retryable: Predicate, send: nat -> Reply, sleeps: nat -> bool,
                     sends: nat, stop: Stop)
    requires RunOf(configured, retryable, send, sleeps, sends, stop)
    ensures var budget := if configured == 0 then 60_000_000_000 else configured;
            var again := retryable(send(sends - 1).status, send(sends - 1).failure);
            && (sends == 1 || Waited(send, sends - 1) <= budget)
            && (stop == NotRetryable <==> !again)
            && (stop == BudgetSpent <==> again && Waited(send, sends) > budget)
            && (stop == SleepFailed <==> again && Waited(send, sends) <= budget && !sleeps(sends - 1))
  {
    if sends > 1 {
      assert GoesOn(Budget(configured), retryable, send, sleeps, sends - 2);
    }
  }

  lemma {:induction false} WaitedAtLeast(send: nat -> Reply, k: nat)
    ensures Waited(send, k) >= k * SECOND
  {
    if k > 0 {
      WaitedAtLeast(send, k - 1);
      DelayIsASecondOrMore(send, k - 1);
    }
  }

  /** A run sends at most once more than its budget has whole seconds: 61 times with the default. */
  lemma SendsAreBounded(configured: int, retryable: Predicate, send: nat -> Reply, sleeps: nat -> bool,
                        sends: nat, stop: Stop)
    requires RunOf(configured, retryable, send, sleeps, sends, stop)
    ensures sends == 1 || (sends - 1) * 1_000_000_000 <= if configured == 0 then 60_000_000_000 else configured
    ensures configured == 0 ==> sends <= 61
  {
    if sends > 1 {
      assert GoesOn(Budget(configured), retryable, send, sleeps, sends - 2);
      WaitedAtLeast(send, sends - 1);
    }
  }

  /** Without Retry-After the default budget allows ten sends: waits of 1+2+4+8+8+8+8+8+8 seconds fit, a tenth does not. */
  lemma TenSendsWithoutRetryAfter(retryable: Predicate, send: nat -> Reply, sleeps: nat -> bool, sends: nat, stop: Stop)
    requires RunOf(0, retryable, send, sleeps, sends, stop)
    requires forall k: nat :: send(k).retryAfter == None
    requires forall k: nat :: ShouldRetry(retryable, send(k)) && sleeps(k)
    ensures sends == 10 && stop == BudgetSpent
  {
    var nine, ten := FirstWaits(send);
    assert RunOf(0, retryable, send, sleeps, 10, BudgetSpent) by {
      forall k: nat | k < 9 ensures GoesOn(Budget(0), retryable, send, sleeps, k) {
        WaitedGrows(send, k + 1, 9);
      }
    }
    RunIsUnique(0, retryable, send, sleeps, sends, stop, 10, BudgetSpent);
  }

  lemma FirstWaits(send: nat -> Reply) returns (nine: nat, ten: nat)
    requires forall k: nat :: send(k).retryAfter == None
    ensures nine == Waited(send, 9) == 55 * SECOND
    ensures ten == Waited(send, 10) == 63 * SECOND
  {
    nine, ten := Waited(send, 9), Waited(send, 10);
    assert Pow2(3) == 8;
    assert Delay(send, 0) == SECOND && Delay(send, 1) == 2 * SECOND && Delay(send, 2) == 4 * SECOND;
    forall k: nat | k >= 3 ensures Delay(send, k) == 8 * SECOND {
      Pow2Grows(3, k);
    }
    assert Waited(send, 3) == 7 * SECOND;
    assert Waited(send, 6) == 31 * SECOND;
    assert Waited(send, 9) == 55 * SECOND;
  }

  lemma {:induction false} Pow2Grows(a: nat, b: nat)
    requires a <= b
    ensures Pow2(a) <= Pow2(b)
    decreases b
  {
    if a < b {
      Pow2Grows(a, b - 1);
    }
  }

  lemma {:induction false} WaitedGrows(send: nat -> Reply, a: nat, b: nat)
    requires a <= b
    ensures Waited(send, a) <= Waited(send, b)
    decreases b
  {
    if a < b {
      WaitedGrows(send, a, b - 1);
    }
  }

  // ---------------------------------------------------------------- at most one commit

  /** How many of the first `sends` requests took effect at the server. */
  function Commits(commits: nat -> bool, sends: nat): nat {
    if sends == 0 then 0 else Commits(commits, sends - 1) + if commits(sends - 1) then 1 else 0
  }

  /** The server's side of the bargain: a refused connection, or an answer 429, has had no effect. */
  ghost predicate Unprocessed(send: nat -> Reply, commits: nat -> bool) {
    && (forall k: nat :: send(k).failure == ConnectionRefused ==> !commits(k))
    && (forall k: nat :: send(k).failure == NoFailure && send(k).status == 429 ==> !commits(k))
  }

  /** A run that must not repeat an effect repeats only refused connections and answers 429. */
  lemma OnlyUnprocessedIsRetried(configured: int, send: nat -> Reply, sleeps: nat -> bool, sends: nat, stop: Stop)
    requires RunOf(configured, RequestNeverProcessed, send, sleeps, sends, stop)
    ensures forall k: nat :: k < sends - 1 ==>
              send(k).failure == ConnectionRefused || (send(k).failure == NoFailure && send(k).status == 429)
    ensures var last := send(sends - 1);
            stop == NotRetryable <==>
              last.failure == OtherFailure || (last.failure == NoFailure && last.status != 429)
  {
    forall k: nat | k < sends - 1 ensures RequestNeverProcessed(send(k).status, send(k).failure) {
      assert GoesOn(Budget(configured), RequestNeverProcessed, send, sleeps, k);
    }
  }

  /** A run that may repeat an effect also repeats the answers of a server or gateway that is not up. */
  lemma OnlyTransientIsRetried(configured: int, send: nat -> Reply, sleeps: nat -> bool, sends: nat, stop: Stop)
    requires RunOf(configured, TransientAnswer, send, sleeps, sends, stop)
    ensures forall k: nat :: k < sends - 1 ==>
              || send(k).failure == ConnectionRefused
              || (send(k).failure == NoFailure && send(k).status in {429, 502, 503, 504})
    ensures var last := send(sends - 1);
            stop == NotRetryable <==>
              last.failure == OtherFailure || (last.failure == NoFailure && last.status !in {429, 502, 503, 504})
  {
    forall k: nat | k < sends - 1 ensures TransientAnswer(send(k).status, send(k).failure) {
      assert GoesOn(Budget(configured), TransientAnswer, send, sleeps, k);
    }
  }

  lemma {:induction false} NoEarlyCommit(commits: nat -> bool, n: nat)
    requires forall k: nat :: k < n ==> !commits(k)
    ensures Commits(commits, n) == 0
  {
    if n > 0 {
      NoEarlyCommit(commits, n - 1);
    }
  }

  /** However often it retries, a run that retries only unprocessed requests commits at most its last one. */
  lemma AtMostOneCommit(configured: int, send: nat -> Reply, sleeps: nat -> bool,
                        commits: nat -> bool, sends: nat, stop: Stop)
    requires RunOf(configured, RequestNeverProcessed, send, sleeps, sends, stop) && Unprocessed(send, commits)
    ensures Commits(commits, sends) == if commits(sends - 1) then 1 else 0
  {
    OnlyUnprocessedIsRetried(configured, send, sleeps, sends, stop);
    NoEarlyCommit(commits, sends - 1);
  }

  /** Retrying the wider class of transient answers would not be safe: a 503 may hide a commit. */
  lemma TransientRetryCanCommitTwice() returns (send: nat -> Reply, commits: nat -> bool)
    ensures Unprocessed(send, commits) && Commits(commits, 2) == 2
    ensures RunOf(0, TransientAnswer, send, _ => true, 2, NotRetryable)
  {
    send := k => if k == 0 then Reply(503, None, NoFailure) else Reply(200, None, NoFailure);
    commits := k => true;
    assert Delay(send, 0) == SECOND && Waited(send, 1) == SECOND;
    assert GoesOn(Budget(0), TransientAnswer, send, _ => true, 0);
    assert Commits(commits, 1) == 1;
  }
}
