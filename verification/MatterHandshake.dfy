/**
 The handshake of the bound-lock client over whole runs: what is resent, which Sigma1 a
 session comes of, who is still listened to afterwards and when a session is established.
 */
module MatterHandshake {
  import opened Options
  import opened ClientSchedule
  import opened MatterMachine
  import opened MatterSafety

  // ----- what has gone out

  /** The last handshake message sent for the first time. */
  function Latest(wire: seq<Wire>): Option<Message> {
    if wire == [] then None
    else
      var w := wire[|wire| - 1];
      if w.First? then Some(w.message) else Latest(wire[..|wire| - 1])
  }

  /** Everything a run has put on the wire. */
  function Wires(info: Info, events: seq<Event>): seq<Wire> {
    if events == [] then []
    else
      var before := events[..|events| - 1];
      Wires(info, before) + Step(Run(info, before).s, events[|events| - 1]).wire
  }

  /** The Sigma2 that the latest Sigma3 answered. */
  function Answered(info: Info, events: seq<Event>): Option<Unsecured> {
    if events == [] then None
    else
      var before := events[..|events| - 1];
      var s := Run(info, before).s;
      if SendsSigma3(Step(s, events[|events| - 1]).wire) then s.routed else Answered(info, before)
  }

  predicate SendsSigma3(wire: seq<Wire>) {
    exists w <- wire :: w.First? && w.message.opcode.Sigma3Message?
  }

  /** Every resend repeats the message sent last. */
  predicate Repeats(sent: seq<Wire>, wire: seq<Wire>) {
    forall i :: 0 <= i < |wire| && wire[i].Again? ==> Latest(sent + wire[..i]) == Some(wire[i].message)
  }

  // ----- one step

  /** No handshake message goes out for the first time, and what is kept and held can only be forgotten. */
  predicate Stays(a: Handshake, b: Handshake, wire: seq<Wire>) {
    && (forall w <- wire :: !w.First?)
    && b.serial == a.serial && (b.key == a.key || b.key == 0)
    && (b.kept == a.kept || b.kept.None?)
    && (b.session ==> a.session && b.sigma2Counter == a.sigma2Counter)
    && (b.active ==> a.active && b.kept == a.kept && b.session == a.session)
  }

  /** A Sigma1 goes out, and may be given up on at once. */
  predicate Opens1(a: Handshake, b: Handshake, wire: seq<Wire>) {
    && 1 <= |wire| <= 2 && wire[0].First?
    && var m := wire[0].message;
    && m.opcode.Sigma1Message? && (|wire| == 2 ==> wire[1] == Again(m))
    && (b.kept == Some(m) || b.kept.None?) && (b.active ==> b.kept == Some(m))
    && b.serial == a.serial + 1 && (b.key == b.serial || b.key == 0) && !b.session
  }

  /** A Sigma3 goes out. */
  predicate Opens3(a: Handshake, b: Handshake, m: Unsecured, wire: seq<Wire>) {
    && m.Sigma2? && m.good && a.key != 0 && m.answers == a.key
    && |wire| == 1 && wire[0].First? && wire[0].message.opcode.Sigma3Message?
    && b.kept == (if m.keeps then Some(wire[0].message) else None)
    && b.serial == a.serial && b.key == 0 && b.session && b.sigma2Counter == m.counter
  }

  lemma ActStays(s: State, action: Action, now: ms, c: PollChoices)
    requires Loose(s) && (action.SendSigma1? ==> s.sm.phase.Idle? && !s.hs.active)
    ensures var (r, wire) := Act(s, action, now, c);
            || (Stays(s.hs, r.hs, wire) && (forall w <- wire :: w.TimedRequest?))
            || (Opens1(s.hs, r.hs, wire) && |wire| == 1)
  {
    hide Held, SlotOf, FirstUsable, Usable, Choose, BackoffMs, Later;
    ChosenIsHeld(s);
  }

  lemma ResendStays(s: State, now: ms, mrp: Mrp)
    ensures var (r, wire) := Resend(s, now, mrp);
            && Stays(s.hs, r.hs, wire)
            && (wire == [] || (s.hs.kept.Some? && wire == [Again(s.hs.kept.value)] && r.hs == s.hs))
  {
    hide BackoffMs, Later;
  }

  lemma StaysOn(a: Handshake, b: Handshake, c: Handshake, wire: seq<Wire>)
    requires Stays(a, b, wire) && Stays(b, c, [])
    ensures Stays(a, c, wire)
  {
  }

  /** A poll keeps what is kept, or opens a handshake. */
  predicate PollForm(a: Handshake, b: Handshake, wire: seq<Wire>) {
    || (Stays(a, b, wire) && forall w <- wire :: w.Again? ==> a.kept == Some(w.message))
    || Opens1(a, b, wire)
  }

  lemma PollOnForm(s: State, now: ms, c: PollChoices)
    requires Vetted(s) && s.invoke.NoInvoke? && s.response.Free?
    ensures PollForm(s.hs, PollOn(s, now, c).s.hs, PollOn(s, now, c).wire)
  {
    hide Held, Poll, Act, Resend, Vetted, Loose, Wants, BackoffMs, Later;
    PollShape(s.sm, now);
    var (sm, action) := Poll(s.sm, now);
    var t := s.(sm := sm);
    VettedLoose(s, sm, action);
    var (acted, wire1) := Act(t, action, now, c);
    ActStays(t, action, now, c);
    var (resent, wire2) := Resend(acted, now, c.mrp);
    ResendStays(acted, now, c.mrp);
    AbandonStays(resent);
    JoinForm(s.hs, acted.hs, resent.hs, Abandon(resent).hs, wire1, wire2);
  }

  lemma VettedLoose(s: State, sm: Schedule, action: Action)
    requires Vetted(s) && s.invoke.NoInvoke? && s.response.Free?
    requires action.Resolve? ==> sm.phase.Resolving? && (s.sm.phase.Idle? || s.sm.phase.Backoff?)
    requires action.SendSigma1? ==> sm.phase.Idle? && (s.sm.phase.Idle? || s.sm.phase.Backoff?)
    requires action.Invoke? ==> sm.phase.Ready? && sm == s.sm
    requires action.Nothing? && s.sm.phase.Ready? ==> sm.phase.Ready?
    requires !s.sm.phase.Ready? ==> !sm.phase.Ready?
    requires action.Nothing? && (sm.phase.Sigma1? || sm.phase.Sigma3?) ==> sm.phase == s.sm.phase
    ensures Loose(s.(sm := sm)) && (action.SendSigma1? ==> !s.hs.active && sm.phase.Idle?)
  {
    hide Held;
  }

  lemma AbandonStays(s: State)
    ensures Stays(s.hs, Abandon(s).hs, [])
  {
  }

  lemma JoinForm(a: Handshake, b: Handshake, c: Handshake, d: Handshake, wire1: seq<Wire>, wire2: seq<Wire>)
    requires || (Stays(a, b, wire1) && (forall w <- wire1 :: w.TimedRequest?))
             || (Opens1(a, b, wire1) && |wire1| == 1)
    requires Stays(b, c, wire2) && (wire2 == [] || (b.kept.Some? && wire2 == [Again(b.kept.value)] && c == b))
    requires Stays(c, d, [])
    ensures PollForm(a, d, wire1 + wire2)
  {
  }

  lemma PollStepForm(s: State, now: ms, c: PollChoices)
    requires Safe(s) && s.response.Free?
    ensures PollForm(s.hs, PollStep(s, now, c).s.hs, PollStep(s, now, c).wire)
  {
    hide Held, PollOn, Safe, DropAndFail, Reached, Later, StillHeld, Vetted, BackoffMs, ForgetLostFabric, TakeLookup;
    var t := TakeLookup(s, now);
    TakeLookupKeeps(s, now);
    var r := ForgetLostFabric(t);
    ForgetKeeps(t);
    ReadyStays(s, now);
    if r.invoke.NoInvoke? {
      PollOnForm(r, now, c);
      FormAfter(s.hs, r.hs, PollOn(r, now, c).s.hs, PollOn(r, now, c).wire);
    } else {
      var d := DropAndFail(r, now);
      DropAndFailIsSafe(r, now);
      StillVetted(r, d);
      PollOnForm(d, now, c);
      DropStays(r, now);
      StaysOn(s.hs, r.hs, d.hs, []);
      FormAfter(s.hs, d.hs, PollOn(d, now, c).s.hs, PollOn(d, now, c).wire);
    }
  }

  lemma ReadyStays(s: State, now: ms)
    ensures var r := ForgetLostFabric(TakeLookup(s, now));
            Stays(s.hs, r.hs, []) && r.response == TakeLookup(s, now).response == s.response
  {
    hide Held, BackoffMs, Later;
  }

  lemma DropStays(s: State, now: ms)
    ensures Stays(s.hs, DropAndFail(s, now).hs, []) && DropAndFail(s, now).response == s.response
  {
    hide BackoffMs, Later;
  }

  lemma FormAfter(a: Handshake, b: Handshake, c: Handshake, wire: seq<Wire>)
    requires Stays(a, b, []) && PollForm(b, c, wire)
    ensures PollForm(a, c, wire)
  {
  }

  /** What a step may do to the handshake. */
  predicate StepForm(s: State, e: Event, o: Out) {
    || PollForm(s.hs, o.s.hs, o.wire)
    || (e.Handles? && s.routed.Some? && Opens3(s.hs, o.s.hs, s.routed.value, o.wire))
  }

  lemma HandlesForm(s: State, m: Unsecured, now: ms)
    requires Safe(s)
    ensures var o := UnsecuredStep(s, m, now);
            PollForm(s.hs, o.s.hs, o.wire) || Opens3(s.hs, o.s.hs, m, o.wire)
  {
    hide Held, BackoffMs, Later;
  }

  lemma StepFits(s: State, e: Event)
    requires Safe(s)
    ensures StepForm(s, e, Step(s, e))
  {
    hide Held, PollStep, UnsecuredStep, BackoffMs, Later, Reached, Safe;
    match e
    case Polled(now, choices) =>
      if s.response.Free? {
        PollStepForm(s, now, choices);
      }
    case Handles(now) =>
      if s.routed.Some? {
        TakenOffSafe(s);
        HandlesForm(s.(routed := None), s.routed.value, now);
      }
    case ArrivesWindow(granted, framed, now, now2) => WindowForm(s, granted, framed, now, now2);
    case _ =>
  }

  lemma TakenOffSafe(s: State)
    requires Safe(s)
    ensures Safe(s.(routed := None))
  {
  }

  lemma WindowForm(s: State, granted: bool, framed: bool, now: ms, now2: ms)
    ensures var o := WindowStep(s, granted, framed, now, now2);
            Stays(s.hs, o.s.hs, o.wire) && forall w <- o.wire :: !w.Again?
  {
    hide BackoffMs, Later;
  }

  // ----- over a run

  /** What is held of the handshake, told from the wire and the messages answered. */
  predicate Tells(hs: Handshake, sent: seq<Wire>, sigma1s: nat, answered: Option<Unsecured>) {
    && (hs.kept.Some? ==> Latest(sent) == hs.kept)
    && hs.serial == sigma1s && (hs.key != 0 ==> hs.key == sigma1s)
    && (hs.active && !hs.session ==> hs.kept.Some? && hs.kept.value.opcode.Sigma1Message?)
    && (hs.session ==> answered.Some? && answered.value.Sigma2? && hs.sigma2Counter == answered.value.counter)
    && (hs.session && hs.active ==> (hs.kept.Some? <==> answered.value.keeps))
  }

  lemma {:induction false} LatestMore(sent: seq<Wire>, wire: seq<Wire>)
    requires forall w <- wire :: !w.First?
    ensures Latest(sent + wire) == Latest(sent)
  {
    if wire == [] {
      assert sent + wire == sent;
    } else {
      var before := wire[..|wire| - 1];
      assert (sent + wire)[..|sent + wire| - 1] == sent + before;
      LatestMore(sent, before);
    }
  }

  lemma LatestNow(sent: seq<Wire>, m: Message)
    ensures Latest(sent + [First(m)]) == Some(m) && Latest(sent + [First(m), Again(m)]) == Some(m)
  {
    var two := sent + [First(m), Again(m)];
    assert two[..|two| - 1] == sent + [First(m)];
  }

  lemma RepeatsKept(sent: seq<Wire>, wire: seq<Wire>, kept: Option<Message>)
    requires kept.Some? ==> Latest(sent) == kept
    requires forall w <- wire :: !w.First? && (w.Again? ==> kept == Some(w.message))
    ensures Repeats(sent, wire)
  {
    forall i | 0 <= i < |wire| && wire[i].Again?
      ensures Latest(sent + wire[..i]) == Some(wire[i].message)
    {
      assert wire[i] in wire && forall w <- wire[..i] :: w in wire;
      LatestMore(sent, wire[..i]);
    }
  }

  lemma PollTells(a: Handshake, b: Handshake, wire: seq<Wire>, sent: seq<Wire>, sigma1s: nat, answered: Option<Unsecured>)
    requires Tells(a, sent, sigma1s, answered) && PollForm(a, b, wire)
    ensures Tells(b, sent + wire, sigma1s + if SendsSigma1(wire) then 1 else 0, answered)
    ensures !SendsSigma3(wire) && Repeats(sent, wire)
  {
    hide Repeats, Latest;
    if Opens1(a, b, wire) {
      var m := wire[0].message;
      assert wire == [First(m)] || wire == [First(m), Again(m)];
      LatestNow(sent, m);
      assert First(m) in wire;
      OpenRepeats(sent, wire);
    } else {
      LatestMore(sent, wire);
      RepeatsKept(sent, wire, a.kept);
    }
  }

  lemma OpenRepeats(sent: seq<Wire>, wire: seq<Wire>)
    requires 1 <= |wire| <= 2 && wire[0].First? && (|wire| == 2 ==> wire[1] == Again(wire[0].message))
    ensures Repeats(sent, wire)
  {
    hide Latest;
    if |wire| == 2 {
      assert wire[..1] == [First(wire[0].message)];
      LatestNow(sent, wire[0].message);
    }
  }

  lemma Sigma3Tells(a: Handshake, b: Handshake, m: Unsecured, wire: seq<Wire>, sent: seq<Wire>, sigma1s: nat,
                    answered: Option<Unsecured>)
    requires Tells(a, sent, sigma1s, answered) && Opens3(a, b, m, wire)
    ensures Tells(b, sent + wire, sigma1s, Some(m)) && SendsSigma3(wire) && !SendsSigma1(wire) && Repeats(sent, wire)
    ensures m.good && m.answers == sigma1s
  {
    hide Latest;
    assert wire == [First(wire[0].message)];
    LatestNow(sent, wire[0].message);
  }

  lemma {:induction false} RunTells(info: Info, events: seq<Event>)
    ensures var r := Run(info, events); Tells(r.s.hs, Wires(info, events), r.sigma1s, Answered(info, events))
  {
    hide Held, Safe, Step, Tells, Told, NoEdgeLost, Numbered;
    if events == [] {
      StartTells(info);
    } else {
      var before, e := events[..|events| - 1], events[|events| - 1];
      RunTells(info, before);
      StepTells(info, before, e);
    }
  }

  lemma StartTells(info: Info)
    ensures Tells(Initial(info).hs, [], 0, None)
  {
  }

  /** One more step, and everything it says. */
  lemma StepTells(info: Info, events: seq<Event>, e: Event)
    requires var r := Run(info, events); Tells(r.s.hs, Wires(info, events), r.sigma1s, Answered(info, events))
    ensures var r, o := Run(info, events), Step(Run(info, events).s, e);
            var sent := Wires(info, events);
            && Repeats(sent, o.wire)
            && Tells(o.s.hs, sent + o.wire, r.sigma1s + (if SendsSigma1(o.wire) then 1 else 0),
                     if SendsSigma3(o.wire) then r.s.routed else Answered(info, events))
            && (SendsSigma3(o.wire) ==> && e.Handles? && r.s.routed.Some? && r.s.routed.value.Sigma2?
                                        && r.s.routed.value.good && r.s.routed.value.answers == r.sigma1s)
  {
    hide Held, Safe, Step, Tells, Told, NoEdgeLost, Numbered, Run, Repeats, PollForm, Wires, Answered, SendsSigma1, SendsSigma3;
    RunInv(info, events);
    var r, o := Run(info, events), Step(Run(info, events).s, e);
    var sent, answered := Wires(info, events), Answered(info, events);
    StepFits(r.s, e);
    if PollForm(r.s.hs, o.s.hs, o.wire) {
      PollTells(r.s.hs, o.s.hs, o.wire, sent, r.sigma1s, answered);
    } else {
      Sigma3Tells(r.s.hs, o.s.hs, r.s.routed.value, o.wire, sent, r.sigma1s, answered);
    }
  }

  // ----- the theorems

  /** In every run, whatever is resent is the handshake message sent last. */
  lemma ResendsLatest(info: Info, events: seq<Event>, e: Event)
    ensures Repeats(Wires(info, events), Step(Run(info, events).s, e).wire)
  {
    RunTells(info, events);
    StepTells(info, events, e);
  }

  /**
   And it can be: while a handshake waits for its Sigma2 the Sigma1 sent last is kept; while
   it waits for the report its Sigma3 is, unless that was too long to keep.
   */
  lemma KeepsLatest(info: Info, events: seq<Event>)
    ensures var hs := Run(info, events).s.hs;
            && (hs.active && !hs.session ==> hs.kept == Latest(Wires(info, events)) && hs.kept.Some?)
            && (hs.active && hs.session ==>
                  && Answered(info, events).Some? && Answered(info, events).value.Sigma2?
                  && hs.kept == if Answered(info, events).value.keeps then Latest(Wires(info, events)) else None)
  {
    RunTells(info, events);
  }

  /** A Sigma3 goes out only to a good Sigma2 made for the Sigma1 that went out last, while its key is held. */
  lemma Sigma3Answers(info: Info, events: seq<Event>, e: Event)
    ensures var r := Run(info, events);
            && (r.s.hs.key != 0 ==> r.s.hs.key == r.sigma1s)
            && (SendsSigma3(Step(r.s, e).wire) ==>
                  && e.Handles? && r.s.routed.Some? && r.s.routed.value.Sigma2?
                  && r.s.routed.value.good && r.s.routed.value.answers == r.sigma1s)
  {
    RunTells(info, events);
    StepTells(info, events, e);
  }

  /**
   While the report is awaited, a Sigma2 is answered with the Sigma3 again if it carries the
   counter of the one that Sigma3 answered, and otherwise not at all; either way nothing
   else happens.
   */
  lemma RepeatedSigma2(info: Info, events: seq<Event>, m: Unsecured, now: ms)
    requires var s := Run(info, events).s;
             && !s.faulted && s.hs.active && s.hs.session && s.response.Free? && StillHeld(s)
             && s.routed == Some(m) && m.Sigma2?
    ensures var s, a := Run(info, events).s, Answered(info, events);
            && a.Some? && a.value.Sigma2?
            && Step(s, Handles(now))
               == Out(s.(routed := None),
                      if m.counter == a.value.counter && m.fits && a.value.keeps && s.hs.kept.Some?
                      then [Again(s.hs.kept.value)] else [],
                      false)
  {
    hide Held, Run, BackoffMs, Later, Wires, Answered, Latest;
    RunInv(info, events);
    RunTells(info, events);
  }

  /** A session is established by a report of success, for a handshake that has its Sigma3 out and its fabric held. */
  lemma EstablishedIff(info: Info, events: seq<Event>, e: Event)
    ensures var s := Run(info, events).s;
            Step(s, e).established
            <==> && !s.faulted && e.Handles? && s.routed == Some(StatusReport(true)) && s.response.Free?
                 && s.hs.active && s.hs.session && StillHeld(s)
  {
    hide Held, Run, PollStep, Sigma2Step;
    RunInv(info, events);
    var s := Run(info, events).s;
    if e.Polled? && s.response.Free? {
      PollKeeps(s, e.now, e.choices);
    }
    if e.Handles? && s.routed.Some? && s.routed.value.Sigma2? {
      Sigma2Silent(s.(routed := None), s.routed.value, e.now);
    }
  }

  lemma Sigma2Silent(s: State, m: Unsecured, now: ms)
    requires m.Sigma2?
    ensures !Sigma2Step(s, m, now).established
  {
  }

  /** Any other report ends the handshake and backs off; a message for a fabric that is lost ends it and forgets the fabric. */
  lemma HandshakeEnds(s: State, now: ms)
    requires !s.faulted && s.response.Free? && s.routed.Some?
    ensures var r := Step(s, Handles(now)).s;
            && (s.peer.fabric.Some? && !StillHeld(s) ==>
                  r.peer.fabric.None? && !r.hs.session && !r.hs.active && r.hs.linger == 0 && Step(s, Handles(now)).wire == [])
            && (StillHeld(s) && s.hs.active && s.routed.value.StatusReport? && !(s.hs.session && s.routed.value.success)
                ==> !r.hs.session && !r.hs.active && r.sm.phase.Backoff? && Step(s, Handles(now)).wire == [])
  {
    hide Held, BackoffMs, Later;
  }

  // ----- who is listened to

  function Elapsed(since: ms, now: ms): ms {
    (now - since) % WRAP
  }

  /** A message is routed to the client exactly when nothing is being worked on and its exchange is the client's. */
  lemma RoutedIff(s: State, exchange: nat, m: Unsecured, now: ms)
    requires !s.faulted
    ensures var r := Step(s, Routes(exchange, m, now)).s;
            if s.response.Free? && s.routed.None? && exchange == s.hs.exchange
               && (s.hs.active || (s.hs.linger != 0 && HALF <= Elapsed(s.hs.linger, now)))
            then r == s.(routed := Some(m)) else r == s
    ensures Step(s, FindsLockTaken).s == s.(routed := None)
  {
  }

  lemma LingerPast(t: ms, now: ms, delay: nat)
    requires delay < HALF && Elapsed(t, now) < HALF
    ensures HALF <= Elapsed((t + delay) % WRAP, now) <==> Elapsed(t, now) < delay
  {
    var when := (t + delay) % WRAP;
    assert when == t + delay || when == t + delay - WRAP;
  }

  /**
   An established session listens on its handshake's exchange for three seconds more, or
   for a millisecond longer when the clock would then be at zero, which means no such time.
   */
  lemma ListensThreeSeconds(s: State, t: ms, exchange: nat, m: Unsecured, now: ms)
    requires !s.faulted && s.response.Free? && s.routed == Some(StatusReport(true))
    requires StillHeld(s) && s.hs.active && s.hs.session && Elapsed(t, now) < HALF
    ensures var r := Step(s, Handles(t)).s;
            var listens := exchange == s.hs.exchange
                           && Elapsed(t, now) < if (t + 3000) % WRAP == 0 then 3001 else 3000;
            Step(r, Routes(exchange, m, now)).s == if listens then r.(routed := Some(m)) else r
  {
    hide Held;
    LingerPast(t, now, 3000);
    LingerPast(t, now, 3001);
    if (t + 3000) % WRAP == 0 {
      assert (t + 3001) % WRAP == 1;
    }
  }
}
