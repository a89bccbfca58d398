/**
 How the bound-lock client's entry points come out: every way a poll, a walk-up or a
 response can end, and what a pending rearm says of the calls that were made.
 */
module MatterOutcomes {
  import opened Options
  import opened ClientSchedule
  import opened MatterMachine
  import opened MatterSafety
  import MatterCommand

  // ----- the poll

  /** A lookup's answer is taken once, and only by an attempt that is looking up. */
  lemma LookupOutcome(s: State, now: ms)
    ensures var r := TakeLookup(s, now);
            && r.lookup.NoAnswer?
            && (s.sm.phase.Resolving? && s.lookup.Found? ==>
                  r.sm.phase.Idle? && r.sm.havePeer && r.peer == s.peer.(located := true))
            && (s.sm.phase.Resolving? && s.lookup.NotFound? ==>
                  r.sm.phase.Backoff? && !r.sm.havePeer && r.peer == s.peer.(located := false))
            && (!s.sm.phase.Resolving? || s.lookup.NoAnswer? ==> r.sm == s.sm && r.peer == s.peer)
  {
    hide BackoffMs, Later;
  }

  /** A poll leaves no answer behind. */
  lemma PollTakesAnswer(s: State, now: ms, c: PollChoices)
    ensures PollStep(s, now, c).s.lookup.NoAnswer?
  {
    hide Held, PollOn, BackoffMs, Later, Reached;
    var r := ForgetLostFabric(TakeLookup(s, now));
    PollOnAnswer(r, now, c);
    PollOnAnswer(DropAndFail(r, now), now, c);
  }

  lemma PollOnAnswer(s: State, now: ms, c: PollChoices)
    requires s.lookup.NoAnswer?
    ensures PollOn(s, now, c).s.lookup.NoAnswer?
  {
    hide Held, Poll, BackoffMs, Later, Act;
    var (sm, action) := Poll(s.sm, now);
    ActAnswer(s.(sm := sm), action, now, c);
  }

  lemma ActAnswer(s: State, action: Action, now: ms, c: PollChoices)
    requires s.lookup.NoAnswer?
    ensures Act(s, action, now, c).0.lookup.NoAnswer?
  {
    hide Held, BackoffMs, Later, Choose;
    ChosenIsHeld(s);
  }

  /** A lookup starts if a binding can be served and the resolver takes it; otherwise the attempt backs off. */
  lemma ResolveOutcome(s: State, now: ms, c: PollChoices)
    ensures var (r, wire) := Act(s, Resolve, now, c);
            var (chosen, ok) := Choose(s);
            && wire == [] && r.peer == chosen.peer
            && if ok && c.resolveStarts then r.sm == s.sm && r.lookup.NoAnswer?
               else r.sm.phase.Backoff? && !r.sm.havePeer
  {
    hide Held, FirstUsable, SlotOf, BackoffMs, Later, Usable;
  }

  /** The peer a Sigma1 would go to: the one already chosen while its fabric is held, and otherwise a fresh choice. */
  function Aim(s: State): (State, bool) {
    if StillHeld(s) then (s, true) else Choose(s)
  }

  /**
   A Sigma1 leaves, and the attempt waits for its Sigma2, if there is a peer whose address
   is known, entropy was drawn and the send succeeded; otherwise nothing leaves and the
   attempt backs off.
   */
  lemma Sigma1Outcome(s: State, now: ms, c: PollChoices)
    requires s.sm.phase.Idle?
    ensures var (r, wire) := Act(s, SendSigma1, now, c);
            var (aim, ok) := Aim(s);
            && r.peer == aim.peer
            && if ok && aim.peer.located && c.draw.entropy && c.draw.sent then
                 && aim.peer.fabric.Some?
                 && wire == [First(Message(Sigma1Message, aim.peer.fabric.value, aim.peer.id))]
                 && r.sm.phase.Sigma1? && r.hs.active && r.hs.exchange == c.draw.exchange
                 && r.hs.key == r.hs.serial == s.hs.serial + 1
               else wire == [] && r.sm.phase.Backoff? && r.hs.active == s.hs.active && r.hs.serial == s.hs.serial
  {
    hide Held, FirstUsable, SlotOf, BackoffMs, Later, Usable, Choose;
    ChosenIsHeld(s);
  }

  /** A TimedRequest leaves over a session; one that cannot be sent ends it, and without one the client starts over. */
  lemma InvokeOutcome(s: State, now: ms, c: PollChoices)
    requires s.sm.phase.Ready? && s.peer.fabric.Some?
    ensures var (r, wire) := Act(s, Invoke, now, c);
            if !s.hs.session then wire == [] && r.sm.phase.Idle? && r == s.(sm := r.sm)
            else if c.timedSent then
              wire == [TimedRequest(s.peer.fabric.value, s.peer.id)] && r == s.(invoke := WindowAsked(c.now2))
            else wire == [] && !r.hs.session && !r.hs.active && r.sm.phase.Backoff? && r.invoke.NoInvoke?
  {
    hide BackoffMs, Later;
  }

  // ----- the walk-up path

  /** Undisturbed, a walk-up notes the wish, and asks for it exactly when the peer is not known to hold it. */
  lemma WalkOutcome(s: State, unlocked: bool, now: ms)
    requires !s.faulted && s.walk.AtRest?
    ensures var r := Step(Step(Step(s, Wanted(unlocked)).s, WalkGoesOn(now)).s, WalkGoesOn(now)).s;
            && r.walk.AtRest? && r.bolt.desired == unlocked && r.bolt.synced == s.bolt.synced
            && r.bolt.rearm == (s.bolt.rearm && !unlocked)
            && if unlocked == s.bolt.synced then r.sm == s.sm else r.sm == s.sm.(want := true, wantMs := now)
  {
  }

  /** A rearm, undisturbed: the peer is no longer taken to be unlocked. */
  lemma RearmOutcome(s: State, now: ms)
    requires !s.faulted && s.walk.AtRest?
    ensures var r := Step(Step(s, Rearmed).s, WalkGoesOn(now)).s;
            r == s.(bolt := s.bolt.(rearm := true, synced := false))
  {
  }

  /** Whether the latest call that touched the rearm flag was a rearm: a wish to unlock takes it back. */
  predicate RearmPending(info: Info, events: seq<Event>) {
    events != [] &&
    var before, e := events[..|events| - 1], events[|events| - 1];
    var s := Run(info, before).s;
    if !s.faulted && s.walk.AtRest? && e.Rearmed? then true
    else if !s.faulted && s.walk.AtRest? && e.Wanted? && e.unlocked then false
    else RearmPending(info, before)
  }

  lemma {:induction false} RearmIsPending(info: Info, events: seq<Event>)
    ensures Run(info, events).s.bolt.rearm == RearmPending(info, events)
  {
    hide Held, Safe, Step, Told, NoEdgeLost, Numbered;
    if events != [] {
      RearmIsPending(info, events[..|events| - 1]);
      RearmStepIs(Run(info, events[..|events| - 1]).s, events[|events| - 1]);
    }
  }

  lemma RearmStepIs(s: State, e: Event)
    ensures Step(s, e).s.bolt.rearm
         == if !s.faulted && s.walk.AtRest? && e.Rearmed? then true
            else if !s.faulted && s.walk.AtRest? && e.Wanted? && e.unlocked then false
            else s.bolt.rearm
  {
    hide Held, PollStep, UnsecuredStep, BackoffMs, Later, Reached;
    if e.Polled? {
      MatterCommand.PollIsQuiet(s, e.now, e.choices);
    }
    if e.Handles? && s.routed.Some? {
      HandlingLeavesBolt(s.(routed := None), s.routed.value, e.now);
    }
  }

  lemma HandlingLeavesBolt(s: State, m: Unsecured, now: ms)
    ensures UnsecuredStep(s, m, now).s.bolt == s.bolt
  {
    hide Held, BackoffMs, Later;
  }

  // ----- the command and its answer

  /**
   The peer's answer to the TimedRequest: refused, the wish is dropped and the session
   stays; granted, the wish of that moment goes out, unless it cannot be framed, which ends
   the session.
   */
  lemma WindowOutcome(s: State, granted: bool, framed: bool, now: ms, now2: ms)
    requires !s.faulted && s.response.Free? && s.routed.None? && s.hs.session && s.invoke.WindowAsked?
    ensures var o := Step(s, ArrivesWindow(granted, framed, now, now2));
            if !granted then
              && o.wire == [] && o.s.invoke.NoInvoke? && !o.s.sm.want && o.s.hs == s.hs && o.s.bolt == s.bolt
              && o.s.sm.phase == s.sm.phase && o.s.sm.attempts == s.sm.attempts
            else if framed then
              && |o.wire| == 1 && o.wire[0].InvokeRequest?
              && o.s.invoke == InvokeOut(now2) && o.s.bolt.inflight == s.bolt.desired && o.s.sm == s.sm
            else o.wire == [] && !o.s.hs.session && o.s.sm.phase.Backoff? && o.s.invoke.NoInvoke?
  {
    hide BackoffMs, Later;
  }

  /** An answer to the command worked through undisturbed. */
  function Answer(s: State, ok: bool, now: ms): State {
    var taken := Step(s, ArrivesResponse(ok)).s;
    var stored := if ok then Step(taken, Resumes(now)).s else taken;
    Step(Step(stored, Resumes(now)).s, Resumes(now)).s
  }

  /**
   Refused, the wish is dropped and nothing else changes. Accepted, the peer is taken to
   hold what was sent unless a rearm is pending, the failures are forgotten, and a bolt that
   differs from it again is wanted again at once.
   */
  lemma AnswerOutcome(s: State, ok: bool, now: ms)
    requires !s.faulted && s.response.Free? && s.routed.None? && s.hs.session
    ensures var r := Answer(s, ok, now);
            && r.response.Free? && r.invoke.NoInvoke? && r.hs == s.hs
            && r.bolt == (if ok then s.bolt.(synced := !s.bolt.rearm && s.bolt.inflight) else s.bolt)
            && r.sm.attempts == (if ok then 0 else s.sm.attempts)
            && (r.sm.want <==> ok && !s.bolt.rearm && s.bolt.desired != s.bolt.inflight)
            && (r.sm.want ==> r.sm.wantMs == now)
  {
  }
}
