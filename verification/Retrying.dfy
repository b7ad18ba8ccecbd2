/** grabber.py: URLGrabber._retry. */
module Retrying {
  import opened Wrappers

  /** What one call of the wrapped function does. Only URLGrabError and KeyboardInterrupt are caught. */
  datatype Outcome<+T> = Success(value: T) | GrabError(code: int) | Interrupted | Foreign

  /** URLGrabError, KeyboardInterrupt, or any other. */
  datatype Exception = Grab(code: int) | Interrupt | Uncaught

  /** One attempt, and what the callback installed for its kind of failure raises, if anything. */
  datatype Attempt<+T> = Attempt(outcome: Outcome<T>, callback: Option<Exception>)

  datatype Options = Options(retry: Option<int>, retrycodes: set<int>)

  datatype Next<+T> = Return(value: T) | Raise(exception: Exception) | Again

  /** What the loop does after attempt number `tries`. */
  function After<T>(o: Options, tries: nat, a: Attempt<T>): Next<T> {
    match a.outcome
    case Success(v) => Return(v)
    case Foreign => Raise(Uncaught)
    case GrabError(code) =>
      if a.callback.Some? then Raise(a.callback.value)
      else if o.retry.None? || tries == o.retry.value || code !in o.retrycodes then Raise(Grab(code))
      else Again
    case Interrupted =>
      if a.callback.Some? then Raise(a.callback.value)
      else if o.retry.None? || tries == o.retry.value then Raise(Interrupt)
      else Again
  }

  function Final<T>(n: Next<T>): Result<T, Exception>
    requires !n.Again?
  {
    match n case Return(v) => Ok(v) case Raise(e) => Err(e)
  }

  /** Attempt number t is the one the loop ends with. */
  ghost predicate StopsAt<T>(o: Options, attempt: nat -> Attempt<T>, t: nat) {
    && t >= 1 && !After(o, t, attempt(t)).Again?
    && forall u :: 1 <= u < t ==> After(o, u, attempt(u)).Again?
  }

  lemma StopUnique<T>(o: Options, attempt: nat -> Attempt<T>, t: nat, u: nat)
    requires StopsAt(o, attempt, t) && StopsAt(o, attempt, u)
    ensures t == u
  {
  }

  /** A failure that another try may follow: an interrupt, or an error with a code in retrycodes; no callback raises. */
  predicate Retryable<T>(o: Options, a: Attempt<T>) {
    a.callback.None? && (a.outcome.Interrupted? || (a.outcome.GrabError? && a.outcome.code in o.retrycodes))
  }

  /** A retryable failure that is not the last of the tries allowed. */
  predicate TriesAgain<T>(o: Options, t: nat, a: Attempt<T>) { Retryable(o, a) && o.retry.Some? && t != o.retry.value }

  /** The loop ends at all exactly when some attempt is not tried again; `bound` is such an attempt. */
  method Retry<T>(o: Options, attempt: nat -> Attempt<T>, ghost bound: nat)
    returns (r: Result<T, Exception>, tries: nat)
    requires bound >= 1 && !After(o, bound, attempt(bound)).Again?
    ensures StopsAt(o, attempt, tries) && tries <= bound
    ensures r == Final(After(o, tries, attempt(tries)))
    ensures tries >= 1 && (o.retry.None? ==> tries == 1)
    ensures o.retry.Some? && o.retry.value >= 1 ==> tries <= o.retry.value
    ensures forall t :: 1 <= t < tries ==> TriesAgain(o, t, attempt(t))
    ensures
      var a := attempt(tries);
      match a.outcome
      case Success(v) => r == Ok(v)
      case Foreign => r == Err(Uncaught)
      case GrabError(code) =>
        && (a.callback.Some? ==> r == Err(a.callback.value))
        && (a.callback.None? ==>
              r == Err(Grab(code)) && (o.retry.None? || tries == o.retry.value || code !in o.retrycodes))
      case Interrupted =>
        && (a.callback.Some? ==> r == Err(a.callback.value))
        && (a.callback.None? ==> r == Err(Interrupt) && (o.retry.None? || tries == o.retry.value))
  {
    tries := 0;
    while true
      invariant 0 <= tries < bound && (o.retry.None? ==> tries == 0)
      invariant o.retry.Some? && o.retry.value >= 1 ==> tries < o.retry.value
      invariant forall u :: 1 <= u <= tries ==> After(o, u, attempt(u)).Again?
      invariant forall t :: 1 <= t <= tries ==> TriesAgain(o, t, attempt(t))
      decreases bound - tries
    {
      tries := tries + 1;
      var a := attempt(tries);
      match a.outcome {
        case Success(v) => return Ok(v), tries;
        case Foreign => return Err(Uncaught), tries;
        case GrabError(_) =>
        case Interrupted =>
      }
      if a.callback.Some? {
        return Err(a.callback.value), tries;
      }
      var exception := if a.outcome.GrabError? then Grab(a.outcome.code) else Interrupt;
      if o.retry.None? || tries == o.retry.value {
        return Err(exception), tries;
      }
      if a.outcome.GrabError? && a.outcome.code !in o.retrycodes {
        return Err(exception), tries;
      }
    }
  }

  /** The number of tries that can be the last: 1 without retry, N for retry=N >= 1. */
  predicate Bounded(o: Options) { o.retry.None? || o.retry.value >= 1 }

  function MaxTries(o: Options): nat
    requires Bounded(o)
  {
    if o.retry.None? then 1 else o.retry.value
  }

  lemma LastTryStops<T>(o: Options, a: Attempt<T>)
    requires Bounded(o)
    ensures !After(o, MaxTries(o), a).Again?
  {
  }

  /** retry=N never makes more than N attempts, and makes N when each of them fails in a retryable way. */
  lemma TriesBound<T>(o: Options, attempt: nat -> Attempt<T>, t: nat)
    requires Bounded(o) && StopsAt(o, attempt, t)
    ensures t <= MaxTries(o)
    ensures (forall u :: 1 <= u <= MaxTries(o) ==> Retryable(o, attempt(u))) ==> t == MaxTries(o)
  {
    LastTryStops(o, attempt(MaxTries(o)));
  }

  /**
   * A retry count that is not positive never stops the loop: it runs on forever exactly when every attempt
   * is interrupted or fails with a code in retrycodes, and no callback raises.
   */
  lemma UnboundedRetry<T>(o: Options, attempt: nat -> Attempt<T>)
    requires !Bounded(o)
    ensures (forall t :: !StopsAt(o, attempt, t)) <==>
      forall t :: t >= 1 ==> Retryable(o, attempt(t))
  {
    if t :| t >= 1 && !After(o, t, attempt(t)).Again? {
      LeastStop(o, attempt, t);
    }
    if t :| StopsAt(o, attempt, t) {
      assert !After(o, t, attempt(t)).Again?;
    }
  }

  lemma {:induction false} LeastStop<T>(o: Options, attempt: nat -> Attempt<T>, t: nat)
    requires t >= 1 && !After(o, t, attempt(t)).Again?
    ensures exists u :: StopsAt(o, attempt, u)
  {
    if u :| 1 <= u < t && !After(o, u, attempt(u)).Again? {
      LeastStop(o, attempt, u);
    } else {
      assert StopsAt(o, attempt, t);
    }
  }

  /** The last attempt and its result, for a bounded loop. */
  function LastTry<T>(o: Options, attempt: nat -> Attempt<T>, t: nat): (u: nat)
    requires Bounded(o) && 1 <= t <= MaxTries(o)
    ensures t <= u <= MaxTries(o) && !After(o, u, attempt(u)).Again?
    ensures forall v :: t <= v < u ==> After(o, v, attempt(v)).Again?
    decreases MaxTries(o) - t
  {
    LastTryStops(o, attempt(MaxTries(o)));
    if After(o, t, attempt(t)).Again? then LastTry(o, attempt, t + 1) else t
  }

  /** What a bounded _retry call returns or raises. */
  function Retried<T>(o: Options, attempt: nat -> Attempt<T>): Result<T, Exception>
    requires Bounded(o)
  {
    var u := LastTry(o, attempt, 1);
    Final(After(o, u, attempt(u)))
  }

  lemma RetriedIs<T>(o: Options, attempt: nat -> Attempt<T>, t: nat)
    requires Bounded(o) && StopsAt(o, attempt, t)
    ensures Retried(o, attempt) == Final(After(o, t, attempt(t))) && t <= MaxTries(o)
  {
    TriesBound(o, attempt, t);
    StopUnique(o, attempt, t, LastTry(o, attempt, 1));
  }
}
