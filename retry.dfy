/** `SharedUtils.retry`: call a flaky function up to `retries` times with
    exponential-backoff sleeps between attempts.

    The called function is an oracle: `calls[k]` is what attempt k + 1 does.
    The two clock readings around a call (`start_time`, `end_time`) are part
    of that oracle, and the sleeps are recorded instead of performed. */
module Retry {
  import opened Wrappers
  import opened Json

  /** One call of `func`: it raises, or it returns a value. `start` is the
      clock read before the call; `end` is read only when the call returns. */
  datatype Call =
    | Raises(message: string, start: int)
    | Returns(value: Json, start: int, end: int)

  /** The exception an attempt ends with: the function's own, or the
      ValueError raised for a falsy response. */
  datatype Failure = Raised(message: string) | FalsyResponse

  datatype Outcome =
    | Returned(value: Json)
      /** ValueError("All retries failed. Last exception: ...") */
    | AllFailed(last: Option<Failure>)
      /** TimeoutError("Timeout reached.") */
    | TimedOut
      /** The timeout test reads `end_time` before any call has returned:
          Python raises UnboundLocalError from inside the handler. */
    | EndTimeUnbound
      /** `time.sleep` with a negative duration raises ValueError. */
    | NegativeSleep

  /** The keyword arguments of `retry`; `timeout` None is Python's None. */
  datatype Config = Config(retries: int, delay: int, backoff: int, timeout: Option<int>, raiseNone: bool)

  /** Everything one `retry` call does: its outcome, how many times it called
      `func`, and the sleep durations it asked for, in order. */
  datatype Run = Run(outcome: Outcome, calls: nat, sleeps: seq<int>)

  function Pow(b: int, e: nat): int {
    if e == 0 then 1 else b * Pow(b, e - 1)
  }

  /** `delay * (backoff ** k)`: the sleep after attempt k + 1. */
  function Backoff(c: Config, k: nat): int {
    c.delay * Pow(c.backoff, k)
  }

  /** `if timeout and ...`: the timeout test runs only for a non-zero timeout. */
  predicate TimeoutSet(c: Config) {
    c.timeout.Some? && c.timeout.value != 0
  }

  /** An attempt does not fail when it returns, and its value is truthy or
      falsy responses are accepted. */
  predicate Succeeds(c: Config, call: Call) {
    call.Returns? && !(c.raiseNone && !Truthy(call.value))
  }

  function FailureOf(call: Call): Failure {
    match call
    case Raises(m, _) => Raised(m)
    case Returns(_, _, _) => FalsyResponse
  }

  /** What the exception handler does after failed attempt `attempt`
      (1-based), given the value `end_time` holds: stop with an outcome, or
      go on after the listed sleeps. */
  datatype Step = Stop(outcome: Outcome) | GoOn(sleeps: seq<int>)

  function AfterFailure(c: Config, attempt: nat, start: int, endTime: Option<int>): Step {
    if TimeoutSet(c) && endTime.None? then Stop(EndTimeUnbound)
    else if TimeoutSet(c) && endTime.value - start >= c.timeout.value then Stop(TimedOut)
    else if attempt > 1 then
      var d := Backoff(c, attempt - 1);
      if d < 0 then Stop(NegativeSleep) else GoOn([d])
    else GoOn([])
  }

  /** The run from attempt `attempt` on, with `endTime` and `last` the values
      of `end_time` and `last_exception` at that point. */
  function RunFrom(c: Config, calls: seq<Call>, attempt: nat, endTime: Option<int>, last: Option<Failure>): Run
    requires 1 <= attempt
    requires c.retries <= |calls|
    decreases c.retries + 1 - attempt
  {
    if attempt > c.retries then Run(AllFailed(last), 0, [])
    else
      var call := calls[attempt - 1];
      if Succeeds(c, call) then Run(Returned(call.value), 1, [])
      else
        var endTime' := if call.Returns? then Some(call.end) else endTime;
        match AfterFailure(c, attempt, call.start, endTime')
        case Stop(o) => Run(o, 1, [])
        case GoOn(s) =>
          var rest := RunFrom(c, calls, attempt + 1, endTime', Some(FailureOf(call)));
          Run(rest.outcome, rest.calls + 1, s + rest.sleeps)
  }

  /** The whole `retry` call. */
  function RetrySpec(c: Config, calls: seq<Call>): (r: Run)
    requires c.retries <= |calls|
    // with retries <= 0 the loop is empty: ValueError without calling func
    ensures c.retries <= 0 ==> r == Run(AllFailed(None), 0, [])
    // a first attempt that does not fail is returned at once
    ensures c.retries >= 1 && Succeeds(c, calls[0]) ==> r == Run(Returned(calls[0].value), 1, [])
    // a failed first attempt that returned too slowly stops the run with TimeoutError
    ensures c.retries >= 1 && TimeoutSet(c) && calls[0].Returns? && !Succeeds(c, calls[0])
              && calls[0].end - calls[0].start >= c.timeout.value
            ==> r == Run(TimedOut, 1, [])
    // a first attempt that raises while a timeout is set reads an unbound end_time
    ensures c.retries >= 1 && TimeoutSet(c) && calls[0].Raises? ==> r == Run(EndTimeUnbound, 1, [])
  {
    RunFrom(c, calls, 1, None, None)
  }

  /** `func` is called at most `retries` times (never for retries <= 0). */
  lemma {:induction false} CallsBounded(c: Config, calls: seq<Call>, attempt: nat, endTime: Option<int>, last: Option<Failure>)
    requires 1 <= attempt
    requires c.retries <= |calls|
    ensures RunFrom(c, calls, attempt, endTime, last).calls <= if c.retries >= attempt then c.retries - attempt + 1 else 0
    decreases c.retries + 1 - attempt
  {
    if attempt <= c.retries {
      var call := calls[attempt - 1];
      if !Succeeds(c, call) {
        var endTime' := if call.Returns? then Some(call.end) else endTime;
        CallsBounded(c, calls, attempt + 1, endTime', Some(FailureOf(call)));
      }
    }
  }

  lemma CallsAtMostRetries(c: Config, calls: seq<Call>)
    requires c.retries <= |calls|
    ensures RetrySpec(c, calls).calls <= if c.retries > 0 then c.retries else 0
  {
    CallsBounded(c, calls, 1, None, None);
  }

  /** A run that returns a value returns the value of its last call, that call
      succeeded, and every earlier call failed. */
  lemma {:induction false} ReturnedIsFirstSuccess(c: Config, calls: seq<Call>, attempt: nat, endTime: Option<int>, last: Option<Failure>)
    requires 1 <= attempt
    requires c.retries <= |calls|
    ensures var r := RunFrom(c, calls, attempt, endTime, last);
      r.outcome.Returned? ==>
        && 1 <= r.calls
        && attempt - 1 + r.calls <= c.retries
        && Succeeds(c, calls[attempt - 2 + r.calls])
        && r.outcome.value == calls[attempt - 2 + r.calls].value
        && forall i :: attempt - 1 <= i < attempt - 2 + r.calls ==> !Succeeds(c, calls[i])
    decreases c.retries + 1 - attempt
  {
    if attempt <= c.retries {
      var call := calls[attempt - 1];
      if !Succeeds(c, call) {
        var endTime' := if call.Returns? then Some(call.end) else endTime;
        ReturnedIsFirstSuccess(c, calls, attempt + 1, endTime', Some(FailureOf(call)));
      }
    }
  }

  /** The sleeps are delay * backoff^k, delay * backoff^(k+1), ... */
  predicate SleepsFollow(c: Config, sleeps: seq<int>, k: nat) {
    forall i :: 0 <= i < |sleeps| ==> sleeps[i] == Backoff(c, k + i)
  }

  /** Every sleep follows a failed attempt j >= 2 and lasts delay * backoff^(j-1):
      from attempt `attempt` on, the first sleep follows attempt
      max(attempt, 2) and each later one the next attempt. */
  lemma {:induction false} SleepValuesFrom(c: Config, calls: seq<Call>, attempt: nat, endTime: Option<int>, last: Option<Failure>)
    requires 1 <= attempt
    requires c.retries <= |calls|
    ensures SleepsFollow(c, RunFrom(c, calls, attempt, endTime, last).sleeps, if attempt > 1 then attempt - 1 else 1)
    decreases c.retries + 1 - attempt
  {
    if attempt <= c.retries {
      var call := calls[attempt - 1];
      if !Succeeds(c, call) {
        var endTime' := if call.Returns? then Some(call.end) else endTime;
        var step := AfterFailure(c, attempt, call.start, endTime');
        RunFromAfterFailure(c, calls, attempt, endTime, last);
        if step.GoOn? {
          SleepValuesFrom(c, calls, attempt + 1, endTime', Some(FailureOf(call)));
          var next := RunFrom(c, calls, attempt + 1, endTime', Some(FailureOf(call)));
          if attempt > 1 {
            SleepsFollowCons(c, next.sleeps, attempt - 1);
          }
        }
      }
    }
  }

  lemma SleepsFollowCons(c: Config, sleeps: seq<int>, k: nat)
    requires SleepsFollow(c, sleeps, k + 1)
    ensures SleepsFollow(c, [Backoff(c, k)] + sleeps, k)
  {
    var s := [Backoff(c, k)] + sleeps;
    forall i | 0 <= i < |s|
      ensures s[i] == Backoff(c, k + i)
    {
      if i > 0 {
        assert s[i] == sleeps[i - 1];
      }
    }
  }

  /** No sleep follows the attempt that ends the run unless the run ends by
      exhausting its attempts, and none follows attempt 1. */
  lemma {:induction false} SleepCountFrom(c: Config, calls: seq<Call>, attempt: nat, endTime: Option<int>, last: Option<Failure>)
    requires 1 <= attempt
    requires c.retries <= |calls|
    ensures var r := RunFrom(c, calls, attempt, endTime, last);
      var goOn := if r.outcome.AllFailed? then r.calls else r.calls - 1;
      |r.sleeps| == goOn - (if attempt == 1 && goOn > 0 then 1 else 0)
    decreases c.retries + 1 - attempt
  {
    if attempt <= c.retries {
      var call := calls[attempt - 1];
      if !Succeeds(c, call) {
        var endTime' := if call.Returns? then Some(call.end) else endTime;
        RunFromAfterFailure(c, calls, attempt, endTime, last);
        SleepCountFrom(c, calls, attempt + 1, endTime', Some(FailureOf(call)));
      }
    }
  }

  /** Sleeps of a whole run: the i-th is delay * backoff^(i+1); a run that
      exhausts its attempts slept after every attempt but the first, any
      other run after every attempt but the first and the last. */
  lemma RetrySleeps(c: Config, calls: seq<Call>)
    requires c.retries <= |calls|
    ensures var r := RetrySpec(c, calls);
      var goOn := if r.outcome.AllFailed? then r.calls else r.calls - 1;
      && (forall i :: 0 <= i < |r.sleeps| ==> r.sleeps[i] == Backoff(c, i + 1))
      && |r.sleeps| == (if goOn > 0 then goOn - 1 else 0)
  {
    SleepValuesFrom(c, calls, 1, None, None);
    SleepCountFrom(c, calls, 1, None, None);
  }

  /** Without a timeout and with non-negative sleeps nothing aborts the run:
      when every attempt fails, by raising or (under `raise_none`) by a falsy
      response, `func` is called exactly `retries` times and the run fails
      with the last attempt's exception. */
  lemma {:induction false} AllFailFrom(c: Config, calls: seq<Call>, attempt: nat, endTime: Option<int>, last: Option<Failure>)
    requires 1 <= attempt <= c.retries
    requires c.retries <= |calls|
    requires c.timeout.None? && c.delay >= 0 && c.backoff >= 0
    requires forall i :: 0 <= i < c.retries ==> !Succeeds(c, calls[i])
    ensures var r := RunFrom(c, calls, attempt, endTime, last);
      r.calls == c.retries - attempt + 1 && r.outcome == AllFailed(Some(FailureOf(calls[c.retries - 1])))
    decreases c.retries + 1 - attempt
  {
    var call := calls[attempt - 1];
    var endTime' := if call.Returns? then Some(call.end) else endTime;
    PowNonNegative(c.backoff, attempt - 1);
    if attempt < c.retries {
      AllFailFrom(c, calls, attempt + 1, endTime', Some(FailureOf(call)));
    }
  }

  /** Without a timeout and with non-negative sleeps, the first attempt k that
      succeeds is returned, after exactly the calls from `attempt` to k. */
  lemma {:induction false} FirstSuccessReturned(c: Config, calls: seq<Call>, attempt: nat, endTime: Option<int>,
                                                last: Option<Failure>, k: nat)
    requires 1 <= attempt <= k <= c.retries <= |calls|
    requires c.timeout.None? && c.delay >= 0 && c.backoff >= 0
    requires Succeeds(c, calls[k - 1])
    requires forall i :: attempt - 1 <= i < k - 1 ==> !Succeeds(c, calls[i])
    ensures var r := RunFrom(c, calls, attempt, endTime, last);
      r.outcome == Returned(calls[k - 1].value) && r.calls == k - attempt + 1
    decreases k - attempt
  {
    if attempt < k {
      var call := calls[attempt - 1];
      var endTime' := if call.Returns? then Some(call.end) else endTime;
      PowNonNegative(c.backoff, attempt - 1);
      FirstSuccessReturned(c, calls, attempt + 1, endTime', Some(FailureOf(call)), k);
    }
  }

  lemma {:induction false} PowNonNegative(b: int, e: nat)
    requires b >= 0
    ensures Pow(b, e) >= 0
  {
    if e > 0 {
      PowNonNegative(b, e - 1);
    }
  }

  /** retries = 3, every attempt raising: three calls, sleeps of delay*backoff
      and delay*backoff^2, then ValueError carrying the third exception. */
  lemma ThreeFailures(c: Config, calls: seq<Call>)
    requires c.retries == 3 && |calls| >= 3
    requires c.timeout.None? && c.delay >= 0 && c.backoff >= 0
    requires calls[0].Raises? && calls[1].Raises? && calls[2].Raises?
    ensures RetrySpec(c, calls) ==
      Run(AllFailed(Some(Raised(calls[2].message))), 3, [c.delay * c.backoff, c.delay * (c.backoff * c.backoff)])
  {
    AllFailFrom(c, calls, 1, None, None);
    RetrySleeps(c, calls);
    var r := RetrySpec(c, calls);
    assert Pow(c.backoff, 1) == c.backoff;
    assert Pow(c.backoff, 2) == c.backoff * c.backoff;
    assert |r.sleeps| == 2;
    assert r.sleeps == [c.delay * c.backoff, c.delay * (c.backoff * c.backoff)];
  }

  /** One failed attempt: the run stops with the handler's outcome, or goes on
      with the handler's sleeps followed by the rest of the run. */
  lemma RunFromAfterFailure(c: Config, calls: seq<Call>, attempt: nat, endTime: Option<int>, last: Option<Failure>)
    requires 1 <= attempt <= c.retries <= |calls|
    requires !Succeeds(c, calls[attempt - 1])
    ensures var call := calls[attempt - 1];
      var endTime' := if call.Returns? then Some(call.end) else endTime;
      var step := AfterFailure(c, attempt, call.start, endTime');
      var rest := RunFrom(c, calls, attempt, endTime, last);
      var next := RunFrom(c, calls, attempt + 1, endTime', Some(FailureOf(call)));
      && (step.Stop? ==> rest == Run(step.outcome, 1, []))
      && (step.GoOn? ==> rest == Run(next.outcome, next.calls + 1, step.sleeps + next.sleeps))
  {
  }

  /** The loop of `retry` as written (lines 113-133). */
  method RetryCall(c: Config, calls: seq<Call>) returns (outcome: Outcome, made: nat, sleeps: seq<int>)
    requires c.retries <= |calls|
    ensures Run(outcome, made, sleeps) == RetrySpec(c, calls)
  {
    var last: Option<Failure> := None;
    var endTime: Option<int> := None;
    made, sleeps := 0, [];
    var attempt := 1;
    while attempt <= c.retries
      invariant 1 <= attempt
      invariant made == attempt - 1
      invariant var rest := RunFrom(c, calls, attempt, endTime, last);
        RetrySpec(c, calls) == Run(rest.outcome, made + rest.calls, sleeps + rest.sleeps)
      decreases c.retries + 1 - attempt
    {
      var call := calls[attempt - 1];
      ghost var endTime0, sleeps0 := endTime, sleeps;
      made := made + 1;
      if call.Returns? {
        endTime := Some(call.end);
        if !(c.raiseNone && !Truthy(call.value)) {
          outcome := Returned(call.value);
          return;
        }
      }
      RunFromAfterFailure(c, calls, attempt, endTime0, last);
      last := Some(FailureOf(call));
      // the exception handler: timeout test, then the backoff sleep
      var step := AfterFailure(c, attempt, call.start, endTime);
      if step.Stop? {
        outcome := step.outcome;
        return;
      }
      sleeps := sleeps + step.sleeps;
      ghost var next := RunFrom(c, calls, attempt + 1, endTime, last);
      assert sleeps0 + (step.sleeps + next.sleeps) == sleeps + next.sleeps;
      attempt := attempt + 1;
    }
    outcome := AllFailed(last);
  }
}
