/** The bounded retry loop: `RetryingHttpFetcher.fetch` and `_retry_delay` of `app/providers/http.py`.

    The Retry-After header (section 10.2.3 of RFC 9110) is a number of seconds or a date. Seconds are reals. */
module Retries {
  import opened Common

  datatype Policy = Policy(maxAttempts: nat, maxElapsed: real, baseBackoff: real, maxBackoff: real)

  // `After` holds seconds, or the seconds left until a date; `Never` is an infinite number of them.
  datatype RetryAfter = Absent | After(seconds: real) | Never

  datatype Reply = Success(payload: nat) | Transient(retryAfter: RetryAfter) | Permanent

  // What each attempt meets: its reply, the loop clock when it failed and the random draw for its delay.
  datatype World = World(started: real, reply: nat -> Reply, clock: nat -> real, draw: nat -> real)

  datatype Outcome = Fetched(payload: nat, attempts: nat, delays: seq<real>) | Exhausted | OverBudget | Rejected

  function MinReal(a: real, b: real): real {
    if b < a then b else a
  }

  function MaxReal(a: real, b: real): real {
    if b > a then b else a
  }

  function RetryDelay(p: Policy, attempt: nat, retryAfter: RetryAfter, draw: real): real
    requires attempt >= 1
  {
    match retryAfter
    case After(seconds) => MinReal(MaxReal(seconds, 0.0), p.maxBackoff)
    case Never => p.maxBackoff
    case Absent => MinReal(p.baseBackoff * Pow(2, attempt - 1) as real, p.maxBackoff) * draw
  }

  // The delay after a given failed attempt.
  function DelayAfter(p: Policy, w: World, attempt: nat): real
    requires attempt >= 1 && w.reply(attempt).Transient?
  {
    RetryDelay(p, attempt, w.reply(attempt).retryAfter, w.draw(attempt))
  }

  predicate WithinBudget(p: Policy, w: World, attempt: nat)
    requires attempt >= 1 && w.reply(attempt).Transient?
  {
    w.clock(attempt) - w.started + DelayAfter(p, w, attempt) <= p.maxElapsed
  }

  // The attempt failed transiently and is worth another one.
  predicate Retried(p: Policy, w: World, attempt: nat) {
    attempt >= 1 && w.reply(attempt).Transient? && attempt < p.maxAttempts && WithinBudget(p, w, attempt)
  }

  // The i-th sleep followed attempt i + 1, which was worth another one.
  predicate Slept(p: Policy, w: World, delays: seq<real>, i: nat)
    requires i < |delays|
  {
    Retried(p, w, i + 1) && delays[i] == DelayAfter(p, w, i + 1)
  }

  // A run sleeps after every attempt but its last, which decides the outcome.
  predicate Runs(p: Policy, w: World, delays: seq<real>, outcome: Outcome) {
    var last := |delays| + 1;
    && (forall i :: 0 <= i < |delays| ==> Slept(p, w, delays, i))
    && !Retried(p, w, last)
    && match w.reply(last)
       case Success(payload) => outcome == Fetched(payload, last, delays)
       case Permanent => outcome == Rejected
       case Transient(_) => outcome == if last >= p.maxAttempts then Exhausted else OverBudget
  }

  // A policy allows at least one attempt.
  method Fetch(p: Policy, w: World) returns (outcome: Outcome, delays: seq<real>)
    requires p.maxAttempts >= 1
    ensures Runs(p, w, delays, outcome)
  {
    delays := [];
    for attempt := 1 to p.maxAttempts + 1
      invariant |delays| == attempt - 1 < p.maxAttempts
      invariant forall i :: 0 <= i < |delays| ==> Slept(p, w, delays, i)
    {
      var reply := w.reply(attempt);
      match reply
      case Success(payload) => return Fetched(payload, attempt, delays), delays;
      case Permanent => return Rejected, delays;
      case Transient(retryAfter) =>
        var elapsed := w.clock(attempt) - w.started;
        if attempt >= p.maxAttempts {
          return Exhausted, delays;
        }
        var delay := RetryDelay(p, attempt, retryAfter, w.draw(attempt));
        if elapsed + delay > p.maxElapsed {
          return OverBudget, delays;
        }
        ghost var before := delays;
        delays := delays + [delay];
        forall i | 0 <= i < |delays| ensures Slept(p, w, delays, i) {
          assert i < |before| ==> Slept(p, w, before, i);
        }
    }
    assert false;
  }

  // --------------------------------------------------------------------------------------------
  // Bounds
  // --------------------------------------------------------------------------------------------

  predicate InRange(p: Policy, delay: real) {
    0.0 <= delay <= p.maxBackoff
  }

  lemma ScaledInRange(ceiling: real, draw: real, limit: real)
    requires 0.0 <= ceiling <= limit && 0.0 <= draw < 1.0
    ensures 0.0 <= ceiling * draw <= limit
  {
    assert ceiling * draw <= ceiling * 1.0;
  }

  // Every delay lies between zero and the backoff limit, for all headers, attempts and draws, exactly when
  // the policy's two backoff durations are not negative.
  lemma DelaysInRangeExactly(p: Policy)
    ensures (forall attempt: nat, retryAfter, draw :: attempt >= 1 && 0.0 <= draw < 1.0 ==>
               InRange(p, RetryDelay(p, attempt, retryAfter, draw))) <==>
            p.baseBackoff >= 0.0 && p.maxBackoff >= 0.0
  {
    if p.baseBackoff >= 0.0 && p.maxBackoff >= 0.0 {
      forall attempt: nat, retryAfter, draw | attempt >= 1 && 0.0 <= draw < 1.0
        ensures InRange(p, RetryDelay(p, attempt, retryAfter, draw))
      {
        DelayInRange(p, attempt, retryAfter, draw);
      }
    } else {
      var half := RetryDelay(p, 1, Absent, 0.5);
      var never := RetryDelay(p, 1, Never, 0.5);
      assert Pow(2, 0) == 1;
      assert half == MinReal(p.baseBackoff, p.maxBackoff) * 0.5;
      assert !InRange(p, half) || !InRange(p, never);
    }
  }

  lemma DelayInRange(p: Policy, attempt: nat, retryAfter: RetryAfter, draw: real)
    requires p.baseBackoff >= 0.0 && p.maxBackoff >= 0.0 && attempt >= 1 && 0.0 <= draw < 1.0
    ensures InRange(p, RetryDelay(p, attempt, retryAfter, draw))
  {
    if retryAfter.Absent? {
      var product := p.baseBackoff * Pow(2, attempt - 1) as real;
      assert product >= 0.0;
      ScaledInRange(MinReal(product, p.maxBackoff), draw, p.maxBackoff);
    }
  }

  function Total(delays: seq<real>): real {
    if delays == [] then 0.0 else Total(delays[..|delays| - 1]) + delays[|delays| - 1]
  }

  // The clock never runs backwards and a sleep takes at least its delay; draws come from [0, 1).
  ghost predicate Consistent(p: Policy, w: World) {
    && w.started <= w.clock(1)
    && (forall i: nat :: i >= 1 ==> 0.0 <= w.draw(i) < 1.0)
    && (forall i: nat :: Retried(p, w, i) ==> w.clock(i) + DelayAfter(p, w, i) <= w.clock(i + 1))
  }

  lemma AllButLast(p: Policy, w: World, delays: seq<real>)
    requires delays != [] && forall i :: 0 <= i < |delays| ==> Slept(p, w, delays, i)
    ensures var front := delays[..|delays| - 1];
            && Slept(p, w, delays, |delays| - 1)
            && forall i :: 0 <= i < |front| ==> Slept(p, w, front, i)
  {
    var front := delays[..|delays| - 1];
    forall i | 0 <= i < |front| ensures Slept(p, w, front, i) {
      assert Slept(p, w, delays, i);
    }
  }

  // Up to any retried attempt, the delays so far fit into the time the clock shows.
  lemma {:induction false} DelaysFitClock(p: Policy, w: World, delays: seq<real>)
    requires Consistent(p, w)
    requires forall i :: 0 <= i < |delays| ==> Slept(p, w, delays, i)
    ensures Total(delays) <= w.clock(|delays| + 1) - w.started
  {
    if delays != [] {
      var n := |delays|;
      AllButLast(p, w, delays);
      DelaysFitClock(p, w, delays[..n - 1]);
    }
  }

  // No run makes more than `maxAttempts` attempts, sleeps longer than the budget in all, or leaves the
  // delay range; a success reports one attempt more than it slept.
  lemma RetriesAreBounded(p: Policy, w: World, delays: seq<real>, outcome: Outcome)
    requires Runs(p, w, delays, outcome) && Consistent(p, w) && p.maxAttempts >= 1
    ensures |delays| + 1 <= p.maxAttempts
    ensures delays != [] ==> Total(delays) <= p.maxElapsed
    ensures p.baseBackoff >= 0.0 && p.maxBackoff >= 0.0 ==> forall i :: 0 <= i < |delays| ==> InRange(p, delays[i])
    ensures outcome.Fetched? ==> outcome.attempts == |outcome.delays| + 1 && outcome.delays == delays
  {
    if delays != [] {
      var n := |delays|;
      AllButLast(p, w, delays);
      DelaysFitClock(p, w, delays[..n - 1]);
    }
    if p.baseBackoff >= 0.0 && p.maxBackoff >= 0.0 {
      forall i | 0 <= i < |delays| ensures InRange(p, delays[i]) {
        assert Slept(p, w, delays, i);
        DelayInRange(p, i + 1, w.reply(i + 1).retryAfter, w.draw(i + 1));
      }
    }
  }

  function Doubled(base: real, times: nat): real {
    if times == 0 then base else 2.0 * Doubled(base, times - 1)
  }

  lemma TwiceTheProduct(a: real, b: real)
    ensures a * (2.0 * b) == 2.0 * (a * b)
  {
  }

  lemma {:induction false} DoublingIsPower(base: real, times: nat)
    ensures Doubled(base, times) == base * Pow(2, times) as real
  {
    if times > 0 {
      DoublingIsPower(base, times - 1);
      var power := Pow(2, times - 1) as real;
      assert Pow(2, times) as real == 2.0 * power;
      TwiceTheProduct(base, power);
    }
  }

  // A number of seconds asked for is slept as it is, at most the limit; a past one not at all; without one, a
  // draw from a backoff that doubles from attempt to attempt up to the limit.
  predicate SleepsFor(p: Policy, retryAfter: RetryAfter, attempt: nat, draw: real, delay: real)
    requires attempt >= 1
  {
    match retryAfter
    case After(seconds) =>
      && (0.0 <= seconds <= p.maxBackoff ==> delay == seconds)
      && (seconds >= p.maxBackoff && seconds >= 0.0 ==> delay == p.maxBackoff)
      && (seconds <= 0.0 <= p.maxBackoff ==> delay == 0.0)
      && (p.maxBackoff < 0.0 ==> delay == p.maxBackoff)
    case Never => delay == p.maxBackoff
    case Absent =>
      delay == (if Doubled(p.baseBackoff, attempt - 1) <= p.maxBackoff then Doubled(p.baseBackoff, attempt - 1)
                else p.maxBackoff) * draw
  }

  lemma DelayIsAsked(p: Policy, retryAfter: RetryAfter, attempt: nat, draw: real)
    requires attempt >= 1
    ensures SleepsFor(p, retryAfter, attempt, draw, RetryDelay(p, attempt, retryAfter, draw))
  {
    DoublingIsPower(p.baseBackoff, attempt - 1);
  }

  lemma DelayAfterIsAsked(p: Policy, w: World, attempt: nat)
    requires attempt >= 1 && w.reply(attempt).Transient?
    ensures SleepsFor(p, w.reply(attempt).retryAfter, attempt, w.draw(attempt), DelayAfter(p, w, attempt))
  {
    DelayIsAsked(p, w.reply(attempt).retryAfter, attempt, w.draw(attempt));
  }

  // Each sleep of a run follows a transient failure of an attempt that was not the last allowed, lasts as its
  // header asks or the backoff says, and fits into what is left of the time budget.
  lemma SleepsMean(p: Policy, w: World, delays: seq<real>, outcome: Outcome, i: nat)
    requires Runs(p, w, delays, outcome) && i < |delays|
    ensures w.reply(i + 1).Transient? && i + 1 < p.maxAttempts
    ensures SleepsFor(p, w.reply(i + 1).retryAfter, i + 1, w.draw(i + 1), delays[i])
    ensures w.clock(i + 1) + delays[i] <= w.started + p.maxElapsed
  {
    assert Slept(p, w, delays, i);
    DelayAfterIsAsked(p, w, i + 1);
  }

  // How a run ends: with the payload of a success or the refusal of a permanent failure, after the last
  // allowed attempt, or when the next sleep would leave the time budget.
  lemma EndMeans(p: Policy, w: World, delays: seq<real>, outcome: Outcome)
    requires Runs(p, w, delays, outcome) && p.maxAttempts >= 1 && Consistent(p, w)
    ensures var last := |delays| + 1;
            match outcome
            case Fetched(payload, attempts, sleeps) =>
              w.reply(last) == Success(payload) && attempts == last && sleeps == delays
            case Rejected => w.reply(last).Permanent?
            case Exhausted => w.reply(last).Transient? && last == p.maxAttempts
            case OverBudget =>
              w.reply(last).Transient? && last < p.maxAttempts &&
              exists delay :: SleepsFor(p, w.reply(last).retryAfter, last, w.draw(last), delay) &&
                              w.clock(last) + delay > w.started + p.maxElapsed
  {
    RetriesAreBounded(p, w, delays, outcome);
    if outcome.OverBudget? {
      DelayAfterIsAsked(p, w, |delays| + 1);
    }
  }

  // The world decides the run.
  lemma RunIsUnique(p: Policy, w: World, a: seq<real>, x: Outcome, b: seq<real>, y: Outcome)
    requires Runs(p, w, a, x) && Runs(p, w, b, y)
    ensures a == b && x == y
  {
    assert |a| < |b| ==> Slept(p, w, b, |a|);
    assert |b| < |a| ==> Slept(p, w, a, |b|);
    forall i | 0 <= i < |a| ensures a[i] == b[i] {
      assert Slept(p, w, a, i) && Slept(p, w, b, i);
    }
  }
}
