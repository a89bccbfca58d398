/**
 An unsecured message is found to be the client's own without the lock and handled with
 it, and a poll may fall between. This is what that costs a Sigma2.
 */
module MatterRouting {
  import opened Options
  import opened ClientSchedule
  import opened MatterMachine
  import opened MatterSafety

  /** A poll past its look at the fabric. */
  function Vetting(s: State, now: ms): State {
    ForgetLostFabric(TakeLookup(s, now))
  }

  function AtSchedule(s: State, now: ms): State {
    var r := Vetting(s, now);
    if r.invoke.NoInvoke? then r else DropAndFail(r, now)
  }

  /** The poll gets as far as choosing a target, and some bound one is usable. */
  predicate Picks(s: State, now: ms) {
    var r, a := Vetting(s, now), AtSchedule(s, now);
    var action := Poll(a.sm, now).1;
    && (r.invoke.NoInvoke? || Reached(now, Later(r.invoke.since, STEP_MS)))
    && (action.Resolve? || (action.SendSigma1? && !StillHeld(a)))
    && FirstUsable(s.info, 0).Some?
  }

  lemma ActFabric(s: State, action: Action, now: ms, c: PollChoices)
    ensures Act(s, action, now, c).0.peer.fabric.None? <==>
              s.peer.fabric.None?
              && !((action.Resolve? || (action.SendSigma1? && !StillHeld(s))) && FirstUsable(s.info, 0).Some?)
  {
    hide Held, BackoffMs, Later;
    ChosenIsHeld(s);
  }

  lemma PollOnFabric(s: State, now: ms, c: PollChoices)
    ensures var action := Poll(s.sm, now).1;
            PollOn(s, now, c).s.peer.fabric.None? <==>
              s.peer.fabric.None?
              && !((action.Resolve? || (action.SendSigma1? && !StillHeld(s))) && FirstUsable(s.info, 0).Some?)
  {
    hide Held, Act, Poll, BackoffMs, Later;
    var (sm, action) := Poll(s.sm, now);
    var t := s.(sm := sm);
    ActFabric(t, action, now, c);
  }

  /** A poll leaves no fabric exactly if it found none held and picked none. */
  lemma PollFabric(s: State, now: ms, c: PollChoices)
    ensures PollStep(s, now, c).s.peer.fabric.None? <==> !StillHeld(s) && !Picks(s, now)
    ensures PollStep(s, now, c).s.routed == s.routed && PollStep(s, now, c).s.faulted == s.faulted
  {
    hide Held, PollOn, Poll, Reached, Later, BackoffMs;
    var r := Vetting(s, now);
    assert r.info == s.info && (r.peer.fabric.None? <==> !StillHeld(s));
    PollOnFabric(r, now, c);
    PollOnFabric(DropAndFail(r, now), now, c);
    PollOnRouted(r, now, c);
    PollOnRouted(DropAndFail(r, now), now, c);
  }

  lemma PollOnRouted(s: State, now: ms, c: PollChoices)
    ensures PollOn(s, now, c).s.routed == s.routed && PollOn(s, now, c).s.faulted == s.faulted
  {
    hide Held, Poll, Act;
    var (sm, action) := Poll(s.sm, now);
    ActRouted(s.(sm := sm), action, now, c);
  }

  lemma ActRouted(s: State, action: Action, now: ms, c: PollChoices)
    ensures Act(s, action, now, c).0.routed == s.routed && Act(s, action, now, c).0.faulted == s.faulted
  {
    hide Held, BackoffMs, Later, FirstUsable, Failed, Sent, Resolved, SessionLost;
    ChosenIsHeld(s);
  }

  /** The last poll among the events found the fabric no longer held and picked no other. */
  predicate Forgotten(sys: Sys, events: seq<Event>) {
    events != [] &&
    var before, e := events[..|events| - 1], events[|events| - 1];
    if e.Polled? then !StillHeld(Then(sys, before).s) && !Picks(Then(sys, before).s, e.now)
    else Forgotten(sys, before)
  }

  lemma {:induction false} WhileRouted(sys: Sys, events: seq<Event>)
    requires Inv(sys) && sys.s.routed.Some? && sys.s.response.Free? && !sys.s.faulted && sys.s.peer.fabric.Some?
    requires forall e <- events :: Between(e)
    ensures var q := Then(sys, events);
            && Inv(q) && q.s.routed == sys.s.routed && q.s.response.Free? && !q.s.faulted
            && (q.s.peer.fabric.None? <==> Forgotten(sys, events))
  {
    hide Held, Inv, Next, Picks, StillHeld;
    if events != [] {
      var before, e := events[..|events| - 1], events[|events| - 1];
      assert forall x <- before :: x in events;
      WhileRouted(sys, before);
      NextKeeps(Then(sys, before), e);
      RoutedStep(Then(sys, before), e);
    }
  }

  lemma RoutedStep(sys: Sys, e: Event)
    requires Inv(sys) && sys.s.response.Free? && !sys.s.faulted && Between(e)
    ensures var q := Next(sys, e);
            && q.s.routed == sys.s.routed && q.s.response.Free? && !q.s.faulted
            && (q.s.peer.fabric.None? <==>
                  if e.Polled? then !StillHeld(sys.s) && !Picks(sys.s, e.now) else sys.s.peer.fabric.None?)
  {
    hide Held, PollStep, Picks, SendsSigma1, Safe, Told;
    if e.Polled? {
      PollKeeps(sys.s, e.now, e.choices);
      PollFabric(sys.s, e.now, e.choices);
    }
  }

  /** Handling a readable Sigma2 goes on to use the fabric. */
  predicate UsesFabric(s: State, m: Unsecured) {
    m.Sigma2? && m.readable && !Repeated(s) && (s.peer.fabric.None? || StillHeld(s))
  }

  /**
   A readable Sigma2 routed in any reachable state and handled after any events of the
   other threads follows a null fabric if and only if the last poll in between found the
   fabric gone and picked no other. Otherwise, wherever its handling uses the fabric, the
   slot is held under the recorded id.
   */
  lemma RoutedSigma2Iff(info: Info, events: seq<Event>, exchange: nat, m: Unsecured, now: ms,
                        between: seq<Event>, now2: ms)
    requires var r := Run(info, events);
             Receiving(r.s) && !r.s.faulted && OwnsExchange(r.s.hs, exchange, now)
    requires m.Sigma2? && m.readable && forall e <- between :: Between(e)
    ensures var routed := Next(Run(info, events), Routes(exchange, m, now));
            var q := Then(routed, between);
            && (Next(q, Handles(now2)).s.faulted <==> Forgotten(routed, between))
            && (UsesFabric(q.s, m) ==> (StillHeld(q.s) <==> !Forgotten(routed, between)))
  {
    hide Run, Held, Picks, Forgotten, WireHeld, Told, NoEdgeLost, Numbered;
    RunInv(info, events);
    var r := Run(info, events);
    NextKeeps(r, Routes(exchange, m, now));
    var routed := Next(r, Routes(exchange, m, now));
    WhileRouted(routed, between);
    Faults(Then(routed, between), m, now2);
  }

  lemma Faults(q: Sys, m: Unsecured, now: ms)
    requires Inv(q) && q.s.routed == Some(m) && q.s.response.Free? && !q.s.faulted && m.Sigma2? && m.readable
    ensures Next(q, Handles(now)).s.faulted <==> q.s.peer.fabric.None?
  {
    hide Held, SendsSigma1, Told, NoEdgeLost, Numbered, BackoffMs, Later;
  }
}
