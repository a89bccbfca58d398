/**
 The schedule of the bound-lock client: which step an attempt is at, when it gives up and
 whether an unlock is still wanted. Times are 32-bit milliseconds that wrap.
 */
module ClientSchedule {
  const WRAP := 0x1_0000_0000
  const HALF := 0x8000_0000
  const WANT_TTL_MS := 8000
  const STEP_MS := 5000
  const BACKOFF_MS := 1000
  const BACKOFF_MAX_MS := 60000

  type ms = t: int | 0 <= t < WRAP

  function Later(t: ms, delay: nat): ms {
    (t + delay) % WRAP
  }

  /** Whether `now` is at or past `when`, across the wrap. */
  predicate Reached(now: ms, when: ms) {
    (now - when) % WRAP < HALF
  }

  function Until(now: ms, when: ms): ms {
    if Reached(now, when) then 0 else (when - now) % WRAP
  }

  datatype Phase = Idle | Resolving | Sigma1 | Sigma3 | Ready | Backoff

  datatype Action = Nothing | Resolve | SendSigma1 | Invoke

  /** `losses` is history: how many attempts have failed, been refused or expired so far. */
  datatype Schedule = Schedule(phase: Phase, attempts: nat, want: bool, havePeer: bool,
                               wantMs: ms, deadlineMs: ms, retryMs: ms, losses: nat)

  const START := Schedule(Idle, 0, false, false, 0, 0, 0, 0)

  function Doubled(n: nat): nat {
    if n == 0 then BACKOFF_MS else 2 * Doubled(n - 1)
  }

  lemma {:induction false} DoubledGrows(m: nat, n: nat)
    requires m <= n
    ensures BACKOFF_MS <= Doubled(m) <= Doubled(n)
    decreases n
  {
    if m < n {
      DoubledGrows(m, n - 1);
    } else if 0 < n {
      DoubledGrows(m - 1, n - 1);
    }
  }

  /** The wait after `attempts` failures in a row: doubling, then capped. */
  function BackoffMs(attempts: nat): (r: nat)
    ensures BACKOFF_MS <= r <= BACKOFF_MAX_MS
  {
    var n := if attempts == 0 then 0 else attempts - 1;
    DoubledGrows(n, n);
    if Doubled(n) > BACKOFF_MAX_MS then BACKOFF_MAX_MS else Doubled(n)
  }

  method Backoffed(attempts: nat) returns (r: nat)
    ensures r == BackoffMs(attempts)
  {
    r := BACKOFF_MS;
    var i := 1;
    while i < attempts
      invariant 1 <= i && (i == 1 || i <= attempts)
      invariant r == Doubled(i - 1) && BACKOFF_MS <= r
    {
      if r >= BACKOFF_MAX_MS {
        DoubledGrows(i - 1, attempts - 1);
        break;
      }
      r := r * 2;
      i := i + 1;
    }
    if r > BACKOFF_MAX_MS {
      r := BACKOFF_MAX_MS;
    }
  }

  predicate Wants(sm: Schedule, now: ms) {
    sm.want && !Reached(now, Later(sm.wantMs, WANT_TTL_MS))
  }

  function Expire(sm: Schedule, now: ms): Schedule {
    if sm.want && !Wants(sm, now) then sm.(want := false, losses := sm.losses + 1) else sm
  }

  function Want(sm: Schedule, now: ms): Schedule {
    sm.(want := true, wantMs := now)
  }

  function Failed(sm: Schedule, now: ms): Schedule {
    var attempts := if sm.attempts < 255 then sm.attempts + 1 else sm.attempts;
    sm.(attempts := attempts, phase := Backoff, retryMs := Later(now, BackoffMs(attempts)),
        losses := sm.losses + 1)
  }

  /** An idle client starts the next step of an attempt if something is wanted. */
  function StartAttempt(sm: Schedule, now: ms): (Schedule, Action) {
    if !sm.want then (sm, Nothing)
    else if sm.havePeer then (sm, SendSigma1)
    else
      var left := Until(now, Later(sm.wantMs, WANT_TTL_MS));
      (sm.(phase := Resolving, deadlineMs := Later(now, if left < STEP_MS then left else STEP_MS)), Resolve)
  }

  function Poll(sm0: Schedule, now: ms): (Schedule, Action) {
    var sm := Expire(sm0, now);
    match sm.phase
    case Idle => StartAttempt(sm, now)
    case Ready => (sm, if sm.want then Invoke else Nothing)
    case Backoff =>
      if Reached(now, sm.retryMs) then StartAttempt(sm.(phase := Idle), now) else (sm, Nothing)
    case _ =>
      (if Reached(now, sm.deadlineMs) then Failed(sm, now) else sm, Nothing)
  }

  function Resolved(sm: Schedule, ok: bool, now: ms): Schedule {
    if ok then sm.(havePeer := true, phase := Idle) else Failed(sm.(havePeer := false), now)
  }

  function Sent(sm: Schedule, now: ms): Schedule {
    var phase := match sm.phase case Idle => Sigma1 case Sigma1 => Sigma3 case p => p;
    sm.(phase := phase, deadlineMs := Later(now, STEP_MS))
  }

  function GotSigma2(sm: Schedule, now: ms): Schedule {
    if sm.phase.Sigma1? then sm.(deadlineMs := Later(now, STEP_MS)) else sm
  }

  function Established(sm: Schedule): Schedule {
    sm.(phase := Ready, attempts := 0)
  }

  function Invoked(sm: Schedule, ok: bool): Schedule {
    if ok then sm.(want := false, attempts := 0)
    else sm.(want := false, losses := sm.losses + 1)
  }

  function SessionLost(sm: Schedule): Schedule {
    if sm.phase.Ready? then sm.(phase := Idle) else sm
  }
}
