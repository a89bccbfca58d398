/**
 The promises of `MatterSafety` are not kept by doing nothing: from every table with a
 usable target some run finds the lock, establishes a session and has its UnlockDoor
 accepted.
 */
module MatterReach {
  import opened Options
  import opened ClientSchedule
  import opened MatterMachine
  import opened MatterSafety

  const CALM := PollChoices(true, Draw(true, 7, true), true, 0, Quiet)

  lemma Extend(info: Info, events: seq<Event>, e: Event)
    ensures Run(info, events + [e]) == Next(Run(info, events), e)
  {
    assert (events + [e])[..|events|] == events;
  }

  /** Nothing wanted at time 0 has expired at time 0. */
  lemma FreshAtZero(sm: Schedule)
    requires sm.want && sm.wantMs == 0
    ensures Wants(sm, 0)
  {
  }

  lemma OneStepOn()
    ensures Later(0, STEP_MS) == STEP_MS
  {
  }

  /** Wanted, and a lookup under way for a chosen target. */
  predicate LookingUp(s: State) {
    && s.sm.phase.Resolving? && s.sm.want && s.sm.wantMs == 0 && !s.sm.havePeer
    && StillHeld(s) && !s.hs.session && !s.hs.active && s.hs.linger == 0 && s.hs.serial == 0 && s.invoke.NoInvoke?
    && s.bolt == Bolt(true, false, false, false) && Receiving(s) && s.walk.AtRest? && !s.faulted
  }

  lemma ToLookup(info: Info) returns (events: seq<Event>)
    requires FirstUsable(info, 0).Some?
    ensures var r := Run(info, events); LookingUp(r.s) && r.s.info == info && r.log == [] && r.sigma1s == 0 && r.sessions == []
  {
    hide Held, Wants, BackoffMs;
    var e1, on, e2 := Wanted(true), WalkGoesOn(0), Polled(0, CALM);
    events := [] + [e1] + [on] + [on] + [e2];
    Extend(info, [], e1);
    Extend(info, [] + [e1], on);
    Extend(info, [] + [e1] + [on], on);
    Extend(info, [] + [e1] + [on] + [on], e2);
    var r1 := Run(info, [] + [e1] + [on] + [on]);
    assert r1.s == Initial(info).(bolt := Bolt(true, false, false, false), sm := START.(want := true));
    FreshAtZero(r1.s.sm);
    var polled := Poll(r1.s.sm, 0).0;
    ChosenIsHeld(r1.s.(sm := polled));
  }

  /** Sigma1 is out. */
  predicate Asked(s: State) {
    && s.sm.phase.Sigma1? && s.sm.want && s.sm.wantMs == 0 && s.sm.deadlineMs == STEP_MS
    && StillHeld(s) && !s.hs.session && s.hs.active && s.hs.exchange == 7 && s.hs.key == 1 && s.invoke.NoInvoke?
    && s.bolt == Bolt(true, false, false, false) && Receiving(s) && s.walk.AtRest? && !s.faulted
  }

  lemma ToSigma1(r: Sys) returns (q: Sys)
    requires LookingUp(r.s) && r.log == [] && r.sigma1s == 0 && r.sessions == []
    ensures q == Next(Next(r, LookedUp(true)), Polled(0, CALM))
    ensures Asked(q.s) && q.log == [] && q.sigma1s == 1 && q.sessions == []
  {
    OneStepOn();
    hide Held, Wants, BackoffMs, Later, Reached;
    var r1 := Next(r, LookedUp(true));
    q := Next(r1, Polled(0, CALM));
    var t := ForgetLostFabric(TakeLookup(r1.s, 0));
    FreshAtZero(t.sm);
    var m := Message(Sigma1Message, t.peer.fabric.value, t.peer.id);
    assert Poll(t.sm, 0) == (t.sm, SendSigma1);
    assert Step(r1.s, Polled(0, CALM)).wire == [First(m)] + [];
    assert First(m) in [First(m)] + [];
  }

  /** The session is up, and the lock is wanted in a state it has not agreed to. */
  predicate Warm(s: State, wish: bool) {
    && s.sm.phase.Ready? && s.sm.want && s.sm.wantMs == 0
    && StillHeld(s) && s.hs.session && !s.hs.active && s.invoke.NoInvoke?
    && s.bolt.desired == wish && s.bolt.synced == !wish && !s.bolt.rearm && Receiving(s) && s.walk.AtRest? && !s.faulted
  }

  const ANSWER := Sigma2(1, true, 1, true, true, true)

  /** Routed and handled at once. */
  function Served(r: Sys, m: Unsecured): Sys {
    Next(Next(r, Routes(7, m, 0)), Handles(0))
  }

  /** Sigma3 is out. */
  predicate Answered(s: State) {
    && s.sm.phase.Sigma3? && s.sm.want && s.sm.wantMs == 0
    && StillHeld(s) && s.hs.session && s.hs.active && s.hs.exchange == 7 && s.invoke.NoInvoke?
    && s.bolt == Bolt(true, false, false, false) && Receiving(s) && s.walk.AtRest? && !s.faulted
  }

  lemma ToSigma3(r: Sys) returns (q: Sys)
    requires Asked(r.s) && r.log == [] && r.sigma1s == 1 && r.sessions == []
    ensures q == Served(r, ANSWER)
    ensures Answered(q.s) && q.log == [] && q.sigma1s == 1 && q.sessions == []
  {
    hide Held, Wants, BackoffMs, Later, Reached;
    var r1 := Next(r, Routes(7, ANSWER, 0));
    assert r1.s == r.s.(routed := Some(ANSWER)) && r1.log == [] && r1.sessions == [] && r1.sigma1s == 1;
    q := Next(r1, Handles(0));
  }

  lemma ToSession(r: Sys) returns (q: Sys)
    requires Answered(r.s) && r.log == [] && r.sigma1s == 1 && r.sessions == []
    ensures q == Served(r, StatusReport(true))
    ensures Warm(q.s, true) && q.log == [] && q.sigma1s == 1 && q.sessions == [1]
  {
    hide Held, Wants, BackoffMs, Later, Reached;
    var r1 := Next(r, Routes(7, StatusReport(true), 0));
    assert r1.s == r.s.(routed := Some(StatusReport(true))) && r1.log == [] && r1.sessions == [] && r1.sigma1s == 1;
    q := Next(r1, Handles(0));
    assert [] + [1] == [1];
  }

  /** The command for it is out. */
  predicate InFlight(s: State, wish: bool) {
    && s.sm.phase.Ready? && StillHeld(s) && s.hs.session && !s.hs.active && s.invoke.InvokeOut?
    && s.bolt == Bolt(wish, !wish, false, wish) && Receiving(s) && s.walk.AtRest? && !s.faulted
  }

  lemma ToInvoke(r: Sys, wish: bool) returns (q: Sys)
    requires Warm(r.s, wish)
    ensures q == Next(Next(r, Polled(0, CALM)), ArrivesWindow(true, true, 0, 0))
    ensures InFlight(q.s, wish)
    ensures q.log == r.log && q.sessions == r.sessions
  {
    hide Held, Wants, BackoffMs, Later, Reached;
    var r1 := Next(r, Polled(0, CALM));
    var t := ForgetLostFabric(TakeLookup(r.s, 0));
    FreshAtZero(t.sm);
    assert Poll(t.sm, 0) == (t.sm, Invoke);
    assert r1.s == t.(invoke := WindowAsked(0)) && r1.log == r.log && r1.sessions == r.sessions;
    q := Next(r1, ArrivesWindow(true, true, 0, 0));
  }

  /** The lock has agreed, and nothing more is wanted. */
  predicate Agreed(s: State, wish: bool) {
    && s.sm.phase.Ready? && !s.sm.want && StillHeld(s) && s.hs.session && !s.hs.active && s.invoke.NoInvoke?
    && s.bolt == Bolt(wish, wish, false, wish) && Receiving(s) && s.walk.AtRest? && !s.faulted
  }

  lemma ToAgreed(r: Sys, wish: bool) returns (q: Sys)
    requires InFlight(r.s, wish)
    ensures q == Next(Next(Next(Next(r, ArrivesResponse(true)), Resumes(0)), Resumes(0)), Resumes(0))
    ensures Agreed(q.s, wish) && q.log == r.log + [Accepted(wish)] && q.sessions == r.sessions
  {
    hide SendsSigma1, Held;
    var r1 := Next(r, ArrivesResponse(true));
    assert r1.log == r.log + [Accepted(wish)] && r1.s == r.s.(response := Loaded(false));
    var r2 := Next(r1, Resumes(0));
    assert r2.s == r1.s.(response := Applied(true), bolt := Bolt(wish, wish, false, wish)) && r2.log == r1.log;
    var r3 := Next(r2, Resumes(0));
    assert r3.s.response == Cleared(true) && !r3.s.sm.want && r3.log == r1.log;
    q := Next(r3, Resumes(0));
  }

  /** The other state is wanted. */
  lemma ToWarm(r: Sys, wish: bool) returns (q: Sys)
    requires Agreed(r.s, !wish)
    ensures q == Next(Next(Next(r, Wanted(wish)), WalkGoesOn(0)), WalkGoesOn(0))
    ensures Warm(q.s, wish) && q.log == r.log && q.sessions == r.sessions
  {
    hide SendsSigma1, Held;
    var r1 := Next(r, Wanted(wish));
    var r2 := Next(r1, WalkGoesOn(0));
    assert r2.s.walk == Timing(0) && r2.s.sm.want && r2.log == r.log;
    q := Next(r2, WalkGoesOn(0));
  }

  lemma Append2(info: Info, events: seq<Event>, e: Event, f: Event) returns (more: seq<Event>)
    ensures Run(info, more) == Next(Next(Run(info, events), e), f)
  {
    hide Run, Next;
    Extend(info, events, e);
    Extend(info, events + [e], f);
    more := events + [e] + [f];
  }

  /** A run that stops with a Sigma1 out, at time 0. */
  lemma ToAsked(info: Info) returns (events: seq<Event>)
    requires FirstUsable(info, 0).Some?
    ensures var r := Run(info, events); Asked(r.s) && r.log == [] && r.sigma1s == 1 && r.sessions == []
  {
    hide Run, Next, LookingUp, Asked;
    events := ToLookup(info);
    var a := ToSigma1(Run(info, events));
    events := Append2(info, events, LookedUp(true), Polled(0, CALM));
  }

  /** A run that stops with UnlockDoor out. */
  lemma ToInFlight(info: Info) returns (events: seq<Event>)
    requires FirstUsable(info, 0).Some?
    ensures var r := Run(info, events); InFlight(r.s, true) && r.log == [] && r.sessions == [1]
  {
    hide Run, Next, Asked, Answered, Warm, InFlight;
    events := ToAsked(info);
    var a := ToSigma3(Run(info, events));
    var b := ToSession(a);
    events := Append2(info, events, Routes(7, ANSWER, 0), Handles(0));
    events := Append2(info, events, Routes(7, StatusReport(true), 0), Handles(0));
    var c := ToInvoke(b, true);
    events := Append2(info, events, Polled(0, CALM), ArrivesWindow(true, true, 0, 0));
  }

  /** Whatever the tables, if a bound target is usable the bound lock can be brought to agree that it is unlocked. */
  lemma CanUnlock(info: Info) returns (events: seq<Event>)
    requires FirstUsable(info, 0).Some?
    ensures var r := Run(info, events);
            Agreed(r.s, true) && r.log == [Accepted(true)] && r.sessions == [1]
  {
    hide Run, Next, InFlight, Agreed;
    events := ToInFlight(info);
    var d := ToAgreed(Run(info, events), true);
    events := Append2(info, events, ArrivesResponse(true), Resumes(0));
    events := Append2(info, events, Resumes(0), Resumes(0));
    assert [] + [Accepted(true)] == [Accepted(true)];
  }

  /** And then, over the same session, that it is locked again. */
  lemma CanRelock(info: Info) returns (events: seq<Event>)
    requires FirstUsable(info, 0).Some?
    ensures var r := Run(info, events);
            && !r.s.bolt.desired && !r.s.bolt.synced && !r.s.sm.want
            && r.log == [Accepted(true), Accepted(false)] && r.sessions == [1]
  {
    hide Run, Next, InFlight, Warm;
    events := CanUnlock(info);
    var a := ToWarm(Run(info, events), false);
    Extend(info, events, Wanted(false));
    events := Append2(info, events + [Wanted(false)], WalkGoesOn(0), WalkGoesOn(0));
    var b := ToInvoke(a, false);
    events := Append2(info, events, Polled(0, CALM), ArrivesWindow(true, true, 0, 0));
    var c := ToAgreed(b, false);
    events := Append2(info, events, ArrivesResponse(true), Resumes(0));
    events := Append2(info, events, Resumes(0), Resumes(0));
  }

  // ----- the two runs the lock does not prevent

  lemma ToTorn(r: Sys) returns (q: Sys)
    requires InFlight(r.s, true) && r.log == []
    ensures var rearmed := Next(Next(Next(r, ArrivesResponse(true)), Rearmed), WalkGoesOn(0));
            q == Next(Next(Next(rearmed, Resumes(0)), Resumes(0)), Resumes(0))
    ensures q.torn && q.s.bolt == Bolt(true, true, true, true) && q.s.response.Free? && !q.s.sm.want && !q.s.faulted
    ensures q.log == [Accepted(true), RearmMark] && q.s.walk.AtRest?
  {
    hide SendsSigma1, Held;
    var r1 := Next(r, ArrivesResponse(true));
    assert r1.log == [Accepted(true)] && r1.s.response == Loaded(false);
    var r2 := Next(Next(r1, Rearmed), WalkGoesOn(0));
    assert r2.s.bolt == Bolt(true, false, true, true) && r2.since && r2.log == [Accepted(true), RearmMark];
    var r3 := Next(r2, Resumes(0));
    assert r3.torn && r3.s.bolt == Bolt(true, true, true, true);
    q := Next(Next(r3, Resumes(0)), Resumes(0));
  }

  /**
   With a rearm between the read of the rearm flag and the write of the synced one, the
   peer is held to be unlocked although a rearm has come since, and the next want for an
   unlock is not recorded. Every table with a usable target has such a run.
   */
  lemma RearmCanBeLost(info: Info) returns (events: seq<Event>)
    requires FirstUsable(info, 0).Some?
    ensures var r := Run(info, events);
            && r.s.response.Free? && r.s.walk.AtRest? && r.s.bolt.rearm && r.s.bolt.synced && Last(r.log) == RearmMark
            && !WantStep(r.s, true, 0).sm.want
  {
    hide Run, Next, InFlight;
    events := ToInFlight(info);
    var d := ToTorn(Run(info, events));
    events := Append2(info, events, ArrivesResponse(true), Rearmed);
    events := Append2(info, events, WalkGoesOn(0), Resumes(0));
    events := Append2(info, events, Resumes(0), Resumes(0));
  }

  /**
   A poll that falls between the two writes of a want measures it against the time of an
   earlier one. So the first want of a client that has been up for 8 s can be dropped before
   it has its own time, with any tables.
   */
  lemma WantCanBeDropped(info: Info, now: ms) returns (events: seq<Event>)
    requires Reached(now, WANT_TTL_MS)
    ensures var r := Run(info, events);
            && r.s.walk.AtRest? && r.s.bolt.desired && !r.s.bolt.synced && !r.s.sm.want && r.sigma1s == 0
            && r.s.sm.wantMs == now
  {
    hide Held, Reached, BackoffMs;
    events := [];
    Extend(info, events, Wanted(true));
    events := events + [Wanted(true)];
    Extend(info, events, WalkGoesOn(now));
    events := events + [WalkGoesOn(now)];
    var r1 := Run(info, events);
    assert r1.s == Initial(info).(bolt := Bolt(true, false, false, false), sm := START.(want := true), walk := Timing(now));
    Extend(info, events, Polled(now, CALM));
    events := events + [Polled(now, CALM)];
    assert Later(0, WANT_TTL_MS) == WANT_TTL_MS;
    assert Poll(r1.s.sm, now) == (START.(losses := 1), Nothing);
    Extend(info, events, WalkGoesOn(now));
    events := events + [WalkGoesOn(now)];
  }

  const NO_TABLES := Info([], [])

  lemma ToFault(r: Sys) returns (q: Sys)
    requires Asked(r.s)
    ensures q == Next(Next(Next(r, Routes(7, ANSWER, 0)), Tables(NO_TABLES)), Polled(0, CALM))
    ensures q.s.routed == Some(ANSWER) && q.s.peer.fabric.None? && !q.s.hs.active && Next(q, Handles(0)).s.faulted
  {
    hide SendsSigma1, BackoffMs;
    var r1 := Next(Next(r, Routes(7, ANSWER, 0)), Tables(NO_TABLES));
    assert r1.s.routed == Some(ANSWER) && r1.s.peer.fabric.Some? && !StillHeld(r1.s);
    var t := ForgetLostFabric(TakeLookup(r1.s, 0));
    FreshAtZero(t.sm);
    assert Poll(t.sm, 0) == (t.sm, Nothing);
    q := Next(r1, Polled(0, CALM));
  }

  /** A poll between routing and handling can leave a Sigma2 to be handled with no fabric. */
  lemma Sigma2CanLoseItsFabric(info: Info) returns (events: seq<Event>)
    requires FirstUsable(info, 0).Some?
    ensures Run(info, events).s.faulted
  {
    hide Run, Next;
    events := ToAsked(info);
    var q := ToFault(Run(info, events));
    events := Append2(info, events, Routes(7, ANSWER, 0), Tables(NO_TABLES));
    events := Append2(info, events, Polled(0, CALM), Handles(0));
  }
}
