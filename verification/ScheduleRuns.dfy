/**
 The bound-lock client's schedule over whole runs of its operations: how long a streak of
 failures keeps it quiet, when a step gives up and how long a wish lasts.
 */
module ScheduleRuns {
  import opened ClientSchedule
  import opened Options

  datatype Op =
    | Wanted(now: ms)
    | Polled(now: ms)
    | Fails(now: ms)
    | Resolves(ok: bool, now: ms)
    | Sends(now: ms)
    | GetsSigma2(now: ms)
    | Establishes
    | Invokes(ok: bool)
    | Loses

  function After(sm: Schedule, op: Op): Schedule {
    match op
    case Wanted(now) => Want(sm, now)
    case Polled(now) => Poll(sm, now).0
    case Fails(now) => Failed(sm, now)
    case Resolves(ok, now) => Resolved(sm, ok, now)
    case Sends(now) => Sent(sm, now)
    case GetsSigma2(now) => GotSigma2(sm, now)
    case Establishes => Established(sm)
    case Invokes(ok) => Invoked(sm, ok)
    case Loses => SessionLost(sm)
  }

  function Run(ops: seq<Op>): Schedule {
    if ops == [] then START else After(Run(ops[..|ops| - 1]), ops[|ops| - 1])
  }

  /** A reported failure, an empty lookup, or a step found out of time. */
  predicate IsFailure(sm: Schedule, op: Op) {
    || op.Fails?
    || (op.Resolves? && !op.ok)
    || (op.Polled? && (sm.phase.Resolving? || sm.phase.Sigma1? || sm.phase.Sigma3?) && Reached(op.now, sm.deadlineMs))
  }

  /** The failures since the last session established or command accepted. */
  function Streak(ops: seq<Op>): nat {
    if ops == [] then 0
    else
      var before, op := ops[..|ops| - 1], ops[|ops| - 1];
      if op.Establishes? || (op.Invokes? && op.ok) then 0
      else if IsFailure(Run(before), op) then Streak(before) + 1
      else Streak(before)
  }

  /** One second, twice as long after each further failure, and never more than a minute. */
  function Wait(failures: nat): nat {
    if failures <= 1 then 1000
    else
      var twice := 2 * Wait(failures - 1);
      if twice < 60000 then twice else 60000
  }

  function Least(a: nat, b: nat): nat {
    if a < b then a else b
  }

  lemma {:induction false} BackoffIsWait(failures: nat)
    ensures BackoffMs(failures) == Wait(failures)
  {
    if failures > 1 {
      BackoffIsWait(failures - 1);
      DoubledGrows(failures - 2, failures - 1);
    }
  }

  /** By the seventh failure the wait has reached its cap, so a counter that stops at 255 changes nothing. */
  lemma {:induction false} WaitCaps(failures: nat)
    requires 7 <= failures
    ensures Wait(failures) == 60000
  {
    if failures > 7 {
      WaitCaps(failures - 1);
    } else {
      assert Wait(3) == 4000;
      assert Wait(5) == 16000;
    }
  }

  lemma AttemptsStep(sm: Schedule, op: Op, streak: nat)
    requires sm.attempts == Least(streak, 255)
    ensures After(sm, op).attempts
         == if op.Establishes? || (op.Invokes? && op.ok) then 0
            else if IsFailure(sm, op) then Least(streak + 1, 255)
            else Least(streak, 255)
  {
    hide BackoffMs;
  }

  lemma {:induction false} AttemptsAreStreak(ops: seq<Op>)
    ensures Run(ops).attempts == Least(Streak(ops), 255)
  {
    hide After, IsFailure;
    if ops != [] {
      AttemptsAreStreak(ops[..|ops| - 1]);
      AttemptsStep(Run(ops[..|ops| - 1]), ops[|ops| - 1], Streak(ops[..|ops| - 1]));
    }
  }

  /** What the latest lookup answered; before the first there is no peer. */
  predicate PeerKnown(ops: seq<Op>) {
    ops != [] && if ops[|ops| - 1].Resolves? then ops[|ops| - 1].ok else PeerKnown(ops[..|ops| - 1])
  }

  lemma {:induction false} PeerIsKnown(ops: seq<Op>)
    ensures Run(ops).havePeer == PeerKnown(ops)
  {
    hide BackoffMs, Reached;
    if ops != [] {
      PeerIsKnown(ops[..|ops| - 1]);
    }
  }

  function Elapsed(since: ms, now: ms): ms {
    (now - since) % WRAP
  }

  lemma Within(t: ms, now: ms, delay: nat)
    requires delay < HALF
    ensures Reached(now, Later(t, delay)) <==> delay <= Elapsed(t, now) < delay + HALF
  {
    var when := Later(t, delay);
    assert when == t + delay || when == t + delay - WRAP;
  }

  lemma FailureBacksOff(sm: Schedule, op: Op)
    requires IsFailure(sm, op)
    ensures After(sm, op).phase.Backoff?
    ensures After(sm, op).retryMs == Later(op.now, BackoffMs(After(sm, op).attempts))
  {
    hide BackoffMs;
  }

  /**
   After any run that ends in a failure, a poll starts something exactly when the wait its
   streak has earned is over and something is still wanted: a handshake if the latest
   lookup found the peer, and otherwise a lookup.
   */
  lemma StreakWaits(ops: seq<Op>, now: ms)
    requires ops != [] && IsFailure(Run(ops[..|ops| - 1]), ops[|ops| - 1])
    requires Elapsed(ops[|ops| - 1].now, now) < HALF
    ensures var sm := Run(ops);
            Poll(sm, now).1
            == if !(Wait(Streak(ops)) <= Elapsed(ops[|ops| - 1].now, now) && Wants(sm, now)) then Nothing
               else if PeerKnown(ops) then SendSigma1
               else Resolve
  {
    hide After, IsFailure, Wait, BackoffMs, Elapsed, Reached, PeerKnown;
    PeerIsKnown(ops);
    var last := ops[|ops| - 1];
    FailureBacksOff(Run(ops[..|ops| - 1]), last);
    AttemptsAreStreak(ops);
    var k := Streak(ops);
    BackoffIsWait(Least(k, 255));
    assert Wait(Least(k, 255)) == Wait(k) by {
      if 255 <= k {
        WaitCaps(k);
        WaitCaps(255);
      }
    }
    assert last.Fails? || last.Resolves? || last.Polled? by { FailureKinds(Run(ops[..|ops| - 1]), last); }
    Within(last.now, now, Wait(k));
  }

  lemma FailureKinds(sm: Schedule, op: Op)
    requires IsFailure(sm, op)
    ensures op.Fails? || op.Resolves? || op.Polled?
  {
  }

  /** When the pending wish was made: the latest one, unless a command was answered or a poll found it lapsed since. */
  function Wish(ops: seq<Op>): Option<ms> {
    if ops == [] then None
    else
      var before, op := Wish(ops[..|ops| - 1]), ops[|ops| - 1];
      match op
      case Wanted(now) => Some(now)
      case Invokes(_) => None
      case Polled(now) =>
        if before.Some? && 8000 <= Elapsed(before.value, now) < 8000 + HALF then None else before
      case _ => before
  }

  /** Only a fresh wish revives one that has been answered, whether the command was accepted or refused. */
  lemma {:induction false} WantIsWish(ops: seq<Op>)
    ensures Run(ops).want == Wish(ops).Some?
    ensures Wish(ops).Some? ==> Run(ops).wantMs == Wish(ops).value
  {
    hide BackoffMs, Elapsed, Reached;
    if ops != [] {
      WantIsWish(ops[..|ops| - 1]);
      if ops[|ops| - 1].Polled? {
        Within(Run(ops[..|ops| - 1]).wantMs, ops[|ops| - 1].now, WANT_TTL_MS);
      }
    }
  }

  /** A handshake message sent at `t` is given up on from five seconds later, and not before. */
  lemma StepGivesUp(sm: Schedule, t: ms, now: ms)
    requires sm.phase.Idle? || sm.phase.Sigma1?
    ensures Poll(Sent(sm, t), now).0.phase.Backoff? <==> 5000 <= Elapsed(t, now) < 5000 + HALF
  {
    hide BackoffMs, Reached, Elapsed, Wants;
    Within(t, now, STEP_MS);
  }

  /** A Sigma2 that is awaited gives the client five seconds more; any other changes nothing. */
  lemma Sigma2Extends(sm: Schedule, t: ms, now: ms)
    ensures sm.phase.Sigma1?
            ==> (Poll(GotSigma2(sm, t), now).0.phase.Backoff? <==> 5000 <= Elapsed(t, now) < 5000 + HALF)
    ensures !sm.phase.Sigma1? ==> GotSigma2(sm, t) == sm
  {
    hide BackoffMs, Reached, Elapsed, Wants;
    Within(t, now, STEP_MS);
  }

  /** A lookup is given up on after five seconds or when the wish behind it lapses, whichever is first. */
  lemma LookupGivesUp(sm: Schedule, t: ms, now: ms)
    requires sm.phase.Idle? && !sm.havePeer && Wants(sm, t) && Elapsed(sm.wantMs, t) < HALF
    requires Elapsed(t, now) < HALF
    ensures var started := Poll(sm, t);
            && started.1 == Resolve
            && (Poll(started.0, now).0.phase.Backoff?
                <==> 5000 <= Elapsed(t, now) || 8000 <= Elapsed(sm.wantMs, t) + Elapsed(t, now))
  {
    hide BackoffMs, Reached, Elapsed;
    var left := Until(t, Later(sm.wantMs, WANT_TTL_MS));
    Within(sm.wantMs, t, WANT_TTL_MS);
    LeftOver(sm.wantMs, t);
    Within(t, now, if left < STEP_MS then left else STEP_MS);
  }

  lemma LeftOver(wantMs: ms, t: ms)
    requires Elapsed(wantMs, t) < 8000
    ensures Until(t, Later(wantMs, 8000)) == 8000 - Elapsed(wantMs, t)
  {
    var when := Later(wantMs, 8000);
    assert when == wantMs + 8000 || when == wantMs + 8000 - WRAP;
  }

  /** A wish made at `t` lasts eight seconds. */
  lemma WishLasts(sm: Schedule, t: ms, now: ms)
    requires Elapsed(t, now) < HALF
    ensures Wants(Want(sm, t), now) <==> Elapsed(t, now) < 8000
  {
    Within(t, now, WANT_TTL_MS);
  }
}
