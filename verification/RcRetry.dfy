/** The retry loop around one rc call: a single time budget shared by every attempt. */
module RcRetry {

  /** `RETRY_BASE_DELAY`, in milliseconds, which is the unit of every duration here. */
  const BASE_DELAY: nat := 100

  /** What one attempt does if the budget lets it finish. */
  datatype Outcome = Body | TransportFault | PermanentFault
  datatype Attempt = Attempt(duration: nat, outcome: Outcome)

  datatype Answer = Got | Expired | GaveUp(fault: Outcome)

  /** How a call ended: its answer, when, after how many attempts, and whether a backoff wrapped. */
  datatype Call = Call(answer: Answer, elapsed: nat, attempts: nat, wrapped: bool)

  /** The whole of 32 doubling backoffs: `100ms * (2^32 - 1)`. */
  const LONGEST_SAFE_BUDGET: nat := 429_496_729_500

  lemma LongestSafeBudget()
    ensures LONGEST_SAFE_BUDGET == BASE_DELAY * (Pow2(32) - 1)
  {
    Pow2Adds(8, 8);
    Pow2Adds(16, 16);
    assert Pow2(8) == 256;
  }

  function Pow2(k: nat): (p: nat)
    ensures p >= 1
  {
    if k == 0 then 1 else 2 * Pow2(k - 1)
  }

  /** `2u32.pow(k)` in a release build: the true power, or zero once 32 bits are gone. */
  function Pow2U32(k: nat): nat { if k < 32 then Pow2(k) else 0 }

  /**
   * The loop as a function of what the attempts would do: `attempt` have been made, all of
   * them transport faults, and `now` of the budget is spent.
   */
  function Retry(timeout: nat, maxAttempts: nat, script: nat -> Attempt,
                 attempt: nat, now: nat, wrapped: bool): Call
    requires now <= timeout && attempt < maxAttempts
    decreases maxAttempts - attempt
  {
    var left := timeout - now;
    if left == 0 then Call(Expired, now, attempt, wrapped)
    else
      var a := script(attempt);
      var made := attempt + 1;
      if a.duration > left then Call(Expired, timeout, made, wrapped)
      else
        var then_ := now + a.duration;
        if a.outcome == Body then Call(Got, then_, made, wrapped)
        else if a.outcome != TransportFault || made >= maxAttempts then
          Call(GaveUp(a.outcome), then_, made, wrapped)
        else
          var backoff := BASE_DELAY * Pow2U32(made - 1);
          var lost := wrapped || made - 1 >= 32;
          if backoff >= timeout - then_ then Call(GaveUp(a.outcome), then_, made, lost)
          else Retry(timeout, maxAttempts, script, made, then_ + backoff, lost)
  }

  method CallRaw(timeout: nat, maxAttempts: nat, script: nat -> Attempt) returns (call: Call)
    requires maxAttempts >= 1
    ensures call == Retry(timeout, maxAttempts, script, 0, 0, false)
  {
    var attempt: nat, now: nat, wrapped := 0, 0, false;
    while true
      invariant now <= timeout && attempt < maxAttempts
      invariant Retry(timeout, maxAttempts, script, attempt, now, wrapped)
             == Retry(timeout, maxAttempts, script, 0, 0, false)
      decreases maxAttempts - attempt
    {
      var left := timeout - now;
      if left == 0 { return Call(Expired, now, attempt, wrapped); }
      var a := script(attempt);
      attempt := attempt + 1;
      if a.duration > left { return Call(Expired, timeout, attempt, wrapped); }
      now := now + a.duration;
      if a.outcome == Body { return Call(Got, now, attempt, wrapped); }
      if a.outcome != TransportFault || attempt >= maxAttempts {
        return Call(GaveUp(a.outcome), now, attempt, wrapped);
      }
      var backoff := BASE_DELAY * Pow2U32(attempt - 1);
      wrapped := wrapped || attempt - 1 >= 32;
      if backoff >= timeout - now { return Call(GaveUp(a.outcome), now, attempt, wrapped); }
      now := now + backoff;
    }
  }

  lemma {:induction false} Pow2Adds(a: nat, b: nat)
    ensures Pow2(a + b) == Pow2(a) * Pow2(b)
  {
    if b > 0 { Pow2Adds(a, b - 1); }
  }

  lemma {:induction false} Pow2Monotone(a: nat, b: nat)
    requires a <= b
    ensures Pow2(a) <= Pow2(b)
  {
    if a < b { Pow2Monotone(a, b - 1); }
  }

  /** What every suffix of the loop keeps. */
  lemma {:induction false} RetryDiscipline(timeout: nat, maxAttempts: nat, script: nat -> Attempt,
                                           attempt: nat, now: nat, wrapped: bool)
    requires now <= timeout && attempt < maxAttempts
    requires forall k :: 0 <= k < attempt ==> script(k).outcome == TransportFault
    ensures
      var c := Retry(timeout, maxAttempts, script, attempt, now, wrapped);
      && now <= c.elapsed <= timeout
      && attempt <= c.attempts <= maxAttempts
      && (forall k :: 0 <= k < c.attempts - 1 ==> script(k).outcome == TransportFault)
      && (c.answer == Expired ==> c.elapsed == timeout)
      && (c.answer == Got ==> c.attempts > 0 && script(c.attempts - 1).outcome == Body)
      && (c.answer.GaveUp? ==> c.attempts > 0 && c.answer.fault == script(c.attempts - 1).outcome
                               && c.answer.fault != Body)
      && (wrapped ==> c.wrapped)
    decreases maxAttempts - attempt
  {
    if now < timeout {
      var a := script(attempt);
      var then_ := now + a.duration;
      var backoff := BASE_DELAY * Pow2U32(attempt);
      if then_ <= timeout && a.outcome == TransportFault && attempt + 1 < maxAttempts
         && backoff < timeout - then_ {
        RetryDiscipline(timeout, maxAttempts, script, attempt + 1, then_ + backoff,
                        wrapped || attempt >= 32);
      }
    }
  }

  /** Without a wrap, the backoffs already slept bound how many attempts fit the budget. */
  lemma {:induction false} BackoffsBoundAttempts(timeout: nat, maxAttempts: nat, script: nat -> Attempt,
                                                 attempt: nat, now: nat)
    requires now < timeout && attempt < maxAttempts && attempt <= 32
    requires now >= BASE_DELAY * (Pow2(attempt) - 1)
    requires timeout <= LONGEST_SAFE_BUDGET
    ensures
      var c := Retry(timeout, maxAttempts, script, attempt, now, false);
      !c.wrapped && c.attempts >= 1 && BASE_DELAY * (Pow2(c.attempts - 1) - 1) < timeout
    decreases maxAttempts - attempt
  {
    if attempt == 32 {
      LongestSafeBudget();
      assert false;
    }
    var a := script(attempt);
    var then_ := now + a.duration;
    var backoff := BASE_DELAY * Pow2U32(attempt);
    if then_ <= timeout && a.outcome == TransportFault && attempt + 1 < maxAttempts
       && backoff < timeout - then_ {
      assert Pow2(attempt + 1) == 2 * Pow2(attempt);
      BackoffsBoundAttempts(timeout, maxAttempts, script, attempt + 1, then_ + backoff);
    }
  }

  /**
   * The whole-call budget, for any pattern of attempt durations and outcomes: the call ends
   * by its deadline, only transport faults are retried, and no more attempts are made than
   * asked for, nor more than the doubling backoffs leave room for.
   */
  lemma CallKeepsItsBudget(timeout: nat, maxAttempts: nat, script: nat -> Attempt)
    requires maxAttempts >= 1
    ensures
      var c := Retry(timeout, maxAttempts, script, 0, 0, false);
      && c.elapsed <= timeout
      && c.attempts <= maxAttempts
      && (forall k :: 0 <= k < c.attempts - 1 ==> script(k).outcome == TransportFault)
      && (c.answer == Expired ==> c.elapsed == timeout)
      && (c.answer == Got ==> c.attempts > 0 && script(c.attempts - 1).outcome == Body)
      && (c.answer.GaveUp? ==> c.attempts > 0 && c.answer.fault == script(c.attempts - 1).outcome)
      && (0 < timeout <= LONGEST_SAFE_BUDGET ==>
            c.attempts >= 1 && BASE_DELAY * (Pow2(c.attempts - 1) - 1) < timeout)
  {
    RetryDiscipline(timeout, maxAttempts, script, 0, 0, false);
    if 0 < timeout <= LONGEST_SAFE_BUDGET {
      BackoffsBoundAttempts(timeout, maxAttempts, script, 0, 0);
    }
  }

  /** When an attempt starts, if it is made: after all those before it and the backoff of each. */
  function StartOf(script: nat -> Attempt, k: nat): nat {
    if k == 0 then 0 else StartOf(script, k - 1) + script(k - 1).duration + BASE_DELAY * Pow2U32(k - 1)
  }

  function EndOf(script: nat -> Attempt, k: nat): nat { StartOf(script, k) + script(k).duration }

  /** An attempt that ends in a fault worth another go, with an attempt and the time for its backoff left. */
  predicate IsRetried(timeout: nat, maxAttempts: nat, script: nat -> Attempt, k: nat) {
    && EndOf(script, k) <= timeout && script(k).outcome == TransportFault
    && k + 1 < maxAttempts && StartOf(script, k + 1) < timeout
  }

  /** A call is over with this attempt, and answers with it. */
  predicate AnswersWith(timeout: nat, script: nat -> Attempt, k: nat, c: Call) {
    && c.attempts == k + 1
    && (if EndOf(script, k) > timeout then c.answer == Expired && c.elapsed == timeout
        else
          && c.elapsed == EndOf(script, k)
          && c.answer == if script(k).outcome == Body then Got else GaveUp(script(k).outcome))
  }

  lemma EndsUnlessRetried(timeout: nat, maxAttempts: nat, script: nat -> Attempt, attempt: nat, wrapped: bool)
    requires attempt < maxAttempts && StartOf(script, attempt) < timeout
    requires !IsRetried(timeout, maxAttempts, script, attempt)
    ensures AnswersWith(timeout, script, attempt,
                        Retry(timeout, maxAttempts, script, attempt, StartOf(script, attempt), wrapped))
  {}

  lemma GoesOnIfRetried(timeout: nat, maxAttempts: nat, script: nat -> Attempt, attempt: nat, wrapped: bool)
    requires attempt < maxAttempts && StartOf(script, attempt) < timeout
    requires IsRetried(timeout, maxAttempts, script, attempt)
    ensures Retry(timeout, maxAttempts, script, attempt, StartOf(script, attempt), wrapped)
         == Retry(timeout, maxAttempts, script, attempt + 1, StartOf(script, attempt + 1), wrapped || attempt >= 32)
  {}

  /** From this attempt on a call goes on for as long as attempts are retried, and answers with the next. */
  ghost predicate EndsFrom(timeout: nat, maxAttempts: nat, script: nat -> Attempt, attempt: nat, c: Call) {
    && c.attempts > attempt && AnswersWith(timeout, script, c.attempts - 1, c)
    && !IsRetried(timeout, maxAttempts, script, c.attempts - 1)
    && forall k :: attempt <= k < c.attempts - 1 ==> IsRetried(timeout, maxAttempts, script, k)
  }

  lemma OneMoreRetried(timeout: nat, maxAttempts: nat, script: nat -> Attempt, attempt: nat, c: Call)
    requires IsRetried(timeout, maxAttempts, script, attempt) && EndsFrom(timeout, maxAttempts, script, attempt + 1, c)
    ensures EndsFrom(timeout, maxAttempts, script, attempt, c)
  {}

  lemma {:induction false} RetriesUntil(timeout: nat, maxAttempts: nat, script: nat -> Attempt, attempt: nat,
                                        wrapped: bool, c: Call)
    requires attempt < maxAttempts && StartOf(script, attempt) < timeout
    requires c == Retry(timeout, maxAttempts, script, attempt, StartOf(script, attempt), wrapped)
    ensures EndsFrom(timeout, maxAttempts, script, attempt, c)
    decreases maxAttempts - attempt
  {
    if IsRetried(timeout, maxAttempts, script, attempt) {
      GoesOnIfRetried(timeout, maxAttempts, script, attempt, wrapped);
      RetriesUntil(timeout, maxAttempts, script, attempt + 1, wrapped || attempt >= 32, c);
      OneMoreRetried(timeout, maxAttempts, script, attempt, c);
    } else {
      EndsUnlessRetried(timeout, maxAttempts, script, attempt, wrapped);
    }
  }

  /**
   * Exactly how a call ends: with the first attempt that is not retried, by its own outcome if it
   * ends within the budget, and as timed out only if it does not. A fault whose backoff would not
   * fit is given as itself.
   */
  lemma CallEndsExactly(timeout: nat, maxAttempts: nat, script: nat -> Attempt)
    requires maxAttempts >= 1 && timeout > 0
    ensures EndsFrom(timeout, maxAttempts, script, 0, Retry(timeout, maxAttempts, script, 0, 0, false))
  {
    RetriesUntil(timeout, maxAttempts, script, 0, false, Retry(timeout, maxAttempts, script, 0, 0, false));
  }

  /** The worst pattern for the doubling: every attempt fails at once. */
  function RefusedAtOnce(): nat -> Attempt { (k: nat) => Attempt(0, TransportFault) }

  lemma {:induction false} RefusedAtOnceReaches(timeout: nat, maxAttempts: nat, attempt: nat, now: nat)
    requires timeout > LONGEST_SAFE_BUDGET && maxAttempts >= 34
    requires attempt <= 32 && now == BASE_DELAY * (Pow2(attempt) - 1) && now <= timeout
    ensures Retry(timeout, maxAttempts, RefusedAtOnce(), attempt, now, false).wrapped
    decreases 32 - attempt
  {
    if attempt < 32 {
      Pow2Monotone(attempt + 1, 32);
      LongestSafeBudget();
      assert Pow2(attempt + 1) == 2 * Pow2(attempt);
      RefusedAtOnceReaches(timeout, maxAttempts, attempt + 1, BASE_DELAY * (Pow2(attempt + 1) - 1));
    } else {
      LongestSafeBudget();
      RetryDiscipline(timeout, maxAttempts, RefusedAtOnce(), 33, now, true);
    }
  }

  lemma {:induction false} FewAttemptsNeverWrap(timeout: nat, maxAttempts: nat, script: nat -> Attempt,
                                                attempt: nat, now: nat)
    requires now <= timeout && attempt < maxAttempts <= 33
    ensures !Retry(timeout, maxAttempts, script, attempt, now, false).wrapped
    decreases maxAttempts - attempt
  {
    if now < timeout {
      var a := script(attempt);
      var then_ := now + a.duration;
      var backoff := BASE_DELAY * Pow2U32(attempt);
      if then_ <= timeout && a.outcome == TransportFault && attempt + 1 < maxAttempts
         && backoff < timeout - then_ {
        FewAttemptsNeverWrap(timeout, maxAttempts, script, attempt + 1, then_ + backoff);
      }
    }
  }

  /**
   * Exactly which limits let `2u32.pow` run out of bits. A budget just under
   * `100ms * 2^32` is already too long: after 32 backoffs `100ms * (2^32 - 1)` is spent and
   * the 33rd power is asked for.
   */
  lemma DoublingOverflowsExactly(timeout: nat, maxAttempts: nat)
    requires maxAttempts >= 1
    ensures (exists script :: Retry(timeout, maxAttempts, script, 0, 0, false).wrapped)
       <==> timeout > LONGEST_SAFE_BUDGET && maxAttempts >= 34
  {
    if timeout > LONGEST_SAFE_BUDGET && maxAttempts >= 34 {
      RefusedAtOnceReaches(timeout, maxAttempts, 0, 0);
    } else {
      forall script: nat -> Attempt
        ensures !Retry(timeout, maxAttempts, script, 0, 0, false).wrapped
      {
        if maxAttempts < 34 {
          FewAttemptsNeverWrap(timeout, maxAttempts, script, 0, 0);
        } else if timeout > 0 {
          BackoffsBoundAttempts(timeout, maxAttempts, script, 0, 0);
        }
      }
    }
  }
}
