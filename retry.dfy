/**
  Bounded retries around a fallible remote operation: `safe_find` and
  `safe_click` (linear backoff, a fixed set of caught exceptions), the
  header wait of the Clic+ detail page (any exception, constant delay) and
  `ClicDetailScraper._with_retries` (any exception, constant delay, logged).

  The remote operation is a function from the 1-based call number to what
  that call does; sleeps are recorded, in milliseconds, instead of taken.
*/
module Retry {
  import opened Wrappers

  /** The exceptions the remote session raises. */
  datatype ErrorKind =
    | NoSuchElement
    | StaleElement
    | ClickIntercepted
    | NoSuchWindow
    | Timeout
    | NotInteractable
    | OtherError

  /** Every kind: what `except Exception` catches. */
  const AllErrors: set<ErrorKind> :=
    {NoSuchElement, StaleElement, ClickIntercepted, NoSuchWindow, Timeout, NotInteractable, OtherError}

  lemma EveryErrorIsException(e: ErrorKind)
    ensures e in AllErrors
  {
  }

  /** What one call of the operation does. */
  datatype Outcome<V> = Done(value: V) | Threw(error: ErrorKind)

  datatype Backoff = Linear(stepMs: nat) | Constant(delayMs: nat)

  /** The sleep after failed attempt `attempt` (1-based). */
  function Delay(b: Backoff, attempt: nat): nat {
    match b
    case Linear(step) => step * attempt
    case Constant(d) => d
  }

  datatype Policy = Policy(catches: set<ErrorKind>, retries: nat, backoff: Backoff)

  /** `safe_find(..., retries=3, sleep_step=0.5)` catches NoSuchElementException and StaleElementReferenceException. */
  function SafeFindPolicy(retries: nat, stepMs: nat): Policy {
    Policy({NoSuchElement, StaleElement}, retries, Linear(stepMs))
  }

  const SafeFindDefault: Policy := SafeFindPolicy(3, 500)

  /** `safe_click(elem, retries=3, sleep_step=0.3)` catches stale, intercepted and no-such-window. */
  function SafeClickPolicy(retries: nat, stepMs: nat): Policy {
    Policy({StaleElement, ClickIntercepted, NoSuchWindow}, retries, Linear(stepMs))
  }

  const SafeClickDefault: Policy := SafeClickPolicy(3, 300)

  /** The Clic+ header wait: three tries, any exception, two seconds between tries. */
  const HeaderWaitPolicy: Policy := Policy(AllErrors, 3, Constant(2000))

  /** `_with_retries`: three tries, any exception, one second between tries. */
  const WithRetriesPolicy: Policy := Policy(AllErrors, 3, Constant(1000))

  /** How the retry loop ends: a value, a re-raised exception, or (with zero retries) Python's implicit `None`. */
  datatype Verdict<V> = Returned(value: V) | Raised(error: ErrorKind) | FellThrough

  /**
    The meaning of one run of a retry loop that made `calls` calls: every call
    but the last failed with a caught exception, the last one decides the
    verdict, the loop gives up only on an uncaught exception or after
    `retries` calls, and it slept `Delay(k)` after each failed call `k` that
    was not the last.
  */
  predicate Characterizes<V(==)>(p: Policy, op: nat -> Outcome<V>, v: Verdict<V>, calls: nat, sleeps: seq<nat>) {
    && calls <= p.retries
    && (calls == 0 <==> p.retries == 0)
    && (calls == 0 ==> v == FellThrough)
    && (forall k :: 1 <= k < calls ==> op(k).Threw? && op(k).error in p.catches)
    && (calls > 0 ==>
          match op(calls)
          case Done(x) => v == Returned(x)
          case Threw(e) => v == Raised(e) && (e !in p.catches || calls == p.retries))
    && |sleeps| == (if calls == 0 then 0 else calls - 1)
    && (forall k :: 0 <= k < |sleeps| ==> sleeps[k] == Delay(p.backoff, k + 1))
  }

  /** The loop of `safe_find` / `safe_click`: `for attempt in range(1, retries + 1)`. */
  method Attempt<V(==)>(p: Policy, op: nat -> Outcome<V>) returns (v: Verdict<V>, calls: nat, sleeps: seq<nat>)
    ensures Characterizes(p, op, v, calls, sleeps)
  {
    v, calls, sleeps := FellThrough, 0, [];
    var done := false;
    while !done && calls < p.retries
      invariant calls <= p.retries
      invariant forall k :: 1 <= k < calls ==> op(k).Threw? && op(k).error in p.catches
      invariant !done ==> v == FellThrough && (calls == 0 || calls < p.retries)
      invariant !done && calls > 0 ==> op(calls).Threw? && op(calls).error in p.catches
      invariant done ==> calls > 0 && match op(calls)
                                      case Done(x) => v == Returned(x)
                                      case Threw(e) => v == Raised(e) && (e !in p.catches || calls == p.retries)
      invariant |sleeps| == (if calls == 0 then 0 else calls - 1)
      invariant forall k :: 0 <= k < |sleeps| ==> sleeps[k] == Delay(p.backoff, k + 1)
    {
      if calls > 0 {
        // the previous attempt failed with a caught exception and was not the last
        sleeps := sleeps + [Delay(p.backoff, calls)];
      }
      calls := calls + 1;
      match op(calls) {
        case Done(x) =>
          v, done := Returned(x), true;
        case Threw(e) =>
          if e !in p.catches || calls == p.retries {
            v, done := Raised(e), true;
          }
      }
    }
  }

  /** What `_with_retries` writes to the log. */
  datatype RetryLog =
    | Trying(attempt: nat, of: nat)     // "Attempting ... (try n/3)"
    | Succeeded                         // "✓ ... successful"
    | Retrying(attempt: nat)            // "⚠ ... failed (attempt n), retrying..."
    | GaveUp(after: nat, error: ErrorKind) // "❌ ... failed after 3 attempts"

  /**
    The log of a `_with_retries` run that made `calls` calls: one `Trying`
    before every call, a `Retrying` after every failed call but the last,
    and `Succeeded` or `GaveUp` after the last.
  */
  predicate LogsRun<V(==)>(calls: nat, v: Verdict<V>, log: seq<RetryLog>) {
    && |log| == 2 * calls
    && (forall k :: 0 <= k < calls ==> log[2 * k] == Trying(k + 1, WithRetriesPolicy.retries))
    && (forall k :: 0 <= k < calls - 1 ==> log[2 * k + 1] == Retrying(k + 1))
    && (calls > 0 ==>
          log[2 * calls - 1] == match v
                                case Returned(_) => Succeeded
                                case Raised(e) => GaveUp(WithRetriesPolicy.retries, e)
                                case FellThrough => Succeeded)
  }

  /** `ClicDetailScraper._with_retries(description, func)`. */
  method WithRetries<V(==)>(op: nat -> Outcome<V>) returns (v: Verdict<V>, calls: nat, sleeps: seq<nat>, log: seq<RetryLog>)
    ensures Characterizes(WithRetriesPolicy, op, v, calls, sleeps)
    ensures LogsRun(calls, v, log)
    ensures v.Raised? <==> calls == 3 && op(3).Threw?
  {
    var maxRetries: nat := 3;
    v, calls, sleeps, log := FellThrough, 0, [], [];
    var done := false;
    while !done
      invariant calls <= maxRetries
      invariant forall k :: 1 <= k < calls ==> op(k).Threw? && op(k).error in AllErrors
      invariant !done ==> v == FellThrough && calls < maxRetries && (calls > 0 ==> op(calls).Threw? && op(calls).error in AllErrors)
      invariant done ==> calls > 0 && match op(calls)
                                      case Done(x) => v == Returned(x)
                                      case Threw(e) => v == Raised(e) && calls == maxRetries
      invariant |sleeps| == (if calls == 0 then 0 else calls - 1)
      invariant forall k :: 0 <= k < |sleeps| ==> sleeps[k] == 1000
      invariant |log| == (if done then 2 * calls else if calls == 0 then 0 else 2 * calls - 1)
      invariant forall k :: 0 <= k < calls ==> log[2 * k] == Trying(k + 1, maxRetries)
      invariant forall k :: 0 <= k < calls - 1 ==> log[2 * k + 1] == Retrying(k + 1)
      invariant done ==> log[2 * calls - 1] == match v
                                               case Returned(_) => Succeeded
                                               case Raised(e) => GaveUp(maxRetries, e)
                                               case FellThrough => Succeeded
      decreases maxRetries - calls, !done
    {
      if calls > 0 {
        log := log + [Retrying(calls)];
        sleeps := sleeps + [1000];
      }
      log := log + [Trying(calls + 1, maxRetries)];
      calls := calls + 1;
      match op(calls) {
        case Done(x) =>
          v, done := Returned(x), true;
          log := log + [Succeeded];
        case Threw(e) =>
          EveryErrorIsException(e);
          if calls == maxRetries {
            v, done := Raised(e), true;
            log := log + [GaveUp(maxRetries, e)];
          }
      }
    }
  }

  // ---- properties of a retry run --------------------------------------

  /** The first `k` calls fail with exceptions the policy catches. */
  predicate FailsCaught<V(==)>(p: Policy, op: nat -> Outcome<V>, k: nat) {
    forall j :: 1 <= j <= k ==> op(j).Threw? && op(j).error in p.catches
  }

  /** An operation that fails `k < retries` times and then succeeds returns its value after exactly `k + 1` calls and `k` sleeps. */
  lemma SucceedsAfterFailures<V>(p: Policy, op: nat -> Outcome<V>, k: nat, v: Verdict<V>, calls: nat, sleeps: seq<nat>)
    requires Characterizes(p, op, v, calls, sleeps)
    requires k < p.retries && FailsCaught(p, op, k) && op(k + 1).Done?
    ensures v == Returned(op(k + 1).value) && calls == k + 1 && |sleeps| == k
  {
  }

  /** An operation that always fails with caught exceptions is re-raised after exactly `retries` calls. */
  lemma ExhaustsRetries<V>(p: Policy, op: nat -> Outcome<V>, v: Verdict<V>, calls: nat, sleeps: seq<nat>)
    requires Characterizes(p, op, v, calls, sleeps)
    requires p.retries > 0 && FailsCaught(p, op, p.retries)
    ensures calls == p.retries && v == Raised(op(p.retries).error) && |sleeps| == p.retries - 1
  {
  }

  /** An exception outside the caught set propagates from the call that raised it, without a retry. */
  lemma UncaughtPropagates<V>(p: Policy, op: nat -> Outcome<V>, k: nat, v: Verdict<V>, calls: nat, sleeps: seq<nat>)
    requires Characterizes(p, op, v, calls, sleeps)
    requires k < p.retries && FailsCaught(p, op, k) && op(k + 1).Threw? && op(k + 1).error !in p.catches
    ensures v == Raised(op(k + 1).error) && calls == k + 1
  {
  }

  /** A run is determined by the policy and the operation: the characterisation admits one verdict, one call count and one sleep list. */
  lemma CharacterizationUnique<V>(p: Policy, op: nat -> Outcome<V>,
                                  v1: Verdict<V>, c1: nat, s1: seq<nat>, v2: Verdict<V>, c2: nat, s2: seq<nat>)
    requires Characterizes(p, op, v1, c1, s1) && Characterizes(p, op, v2, c2, s2)
    ensures v1 == v2 && c1 == c2 && s1 == s2
  {
  }

  /** With linear backoff the k-th sleep is `k` steps long: `safe_find` sleeps 0.5 s, then 1 s, before its third and last try. */
  lemma LinearBackoffGrows<V>(p: Policy, op: nat -> Outcome<V>, v: Verdict<V>, calls: nat, sleeps: seq<nat>)
    requires Characterizes(p, op, v, calls, sleeps) && p.backoff.Linear?
    ensures forall k :: 0 <= k < |sleeps| ==> sleeps[k] == p.backoff.stepMs * (k + 1)
    ensures p == SafeFindDefault && calls == 3 ==> sleeps == [500, 1000]
  {
    if p == SafeFindDefault && calls == 3 {
      assert sleeps[0] == 500 && sleeps[1] == 1000;
    }
  }

  /** With zero retries the operation is never called and the loop falls through to Python's implicit `None`. */
  lemma ZeroRetriesNeverCalls<V>(p: Policy, op: nat -> Outcome<V>, v: Verdict<V>, calls: nat, sleeps: seq<nat>)
    requires Characterizes(p, op, v, calls, sleeps) && p.retries == 0
    ensures calls == 0 && v == FellThrough && sleeps == []
  {
  }

  function Sum(s: seq<nat>): nat {
    if s == [] then 0 else Sum(s[..|s| - 1]) + s[|s| - 1]
  }

  /** The total time a run with linear backoff spends asleep: `step * m * (m + 1) / 2` after `m` sleeps. */
  lemma {:induction false} LinearTotalSleep(step: nat, sleeps: seq<nat>)
    requires forall k :: 0 <= k < |sleeps| ==> sleeps[k] == step * (k + 1)
    ensures 2 * Sum(sleeps) == step * |sleeps| * (|sleeps| + 1)
  {
    if sleeps != [] {
      var m := |sleeps|;
      var init := sleeps[..m - 1];
      assert forall k :: 0 <= k < |init| ==> init[k] == sleeps[k];
      LinearTotalSleep(step, init);
      assert 2 * Sum(sleeps) == step * (m - 1) * m + 2 * step * m;
      assert step * (m - 1) * m + 2 * step * m == step * m * (m + 1);
    }
  }

  /** Every call numbered from `k` up to, not including, `j` raised. */
  predicate ThrewBefore<V>(op: nat -> Outcome<V>, k: nat, j: nat) {
    forall i :: k <= i < j ==> op(i).Threw?
  }

  /** The value of the first successful call among the `left` calls numbered from `k`. */
  function FirstDone<V>(op: nat -> Outcome<V>, k: nat, left: nat): (r: Option<V>)
    ensures r.Some? ==> exists j :: k <= j < k + left && op(j) == Done(r.value) && ThrewBefore(op, k, j)
    ensures r.None? ==> forall j :: k <= j < k + left ==> op(j).Threw?
    decreases left
  {
    if left == 0 then None
    else match op(k)
      case Done(x) => Some(x)
      case Threw(_) => FirstDone(op, k + 1, left - 1)
  }

  lemma {:induction false} FirstDoneSkips<V>(op: nat -> Outcome<V>, k: nat, left: nat, j: nat)
    requires j <= left
    requires forall i :: k <= i < k + j ==> op(i).Threw?
    ensures FirstDone(op, k, left) == FirstDone(op, k + j, left - j)
    decreases j
  {
    if j > 0 {
      assert op(k).Threw?;
      assert FirstDone(op, k, left) == FirstDone(op, k + 1, left - 1);
      assert forall i :: k + 1 <= i < k + 1 + (j - 1) ==> op(i).Threw?;
      FirstDoneSkips(op, k + 1, left - 1, j - 1);
    }
  }

  /**
    A loop that catches every exception returns the value of the first
    successful call among its `retries` calls, and re-raises (or, with zero
    retries, falls through) exactly when none of them succeeds.
  */
  lemma CatchAllFindsFirstDone<V>(p: Policy, op: nat -> Outcome<V>, v: Verdict<V>, calls: nat, sleeps: seq<nat>)
    requires Characterizes(p, op, v, calls, sleeps)
    requires p.catches == AllErrors
    ensures v.Returned? <==> FirstDone(op, 1, p.retries).Some?
    ensures v.Returned? ==> v.value == FirstDone(op, 1, p.retries).value
  {
    if calls > 0 {
      FirstDoneSkips(op, 1, p.retries, calls - 1);
      EveryErrorIsException(if op(calls).Threw? then op(calls).error else OtherError);
    }
  }
}
