/**
 A want is two writes without the lock, first that there is one and then when. This is
 what a poll between them costs.
 */
module MatterWant {
  import opened ClientSchedule
  import opened MatterMachine
  import opened MatterSafety

  /** The poll gets as far as the schedule. */
  predicate LooksAtWant(s: State, now: ms) {
    var r := ForgetLostFabric(TakeLookup(s, now));
    r.invoke.NoInvoke? || Reached(now, Later(r.invoke.since, STEP_MS))
  }

  /** It finds the want recorded and, by the time that stands beside it, too old. */
  predicate Expires(s: State, e: Event) {
    e.Polled? && s.response.Free? && !s.faulted && LooksAtWant(s, e.now) && s.sm.want && !Wants(s.sm, e.now)
  }

  lemma ActWant(s: State, action: Action, now: ms, c: PollChoices)
    ensures var r := Act(s, action, now, c).0;
            r.sm.want == s.sm.want && r.sm.wantMs == s.sm.wantMs && r.walk == s.walk && r.faulted == s.faulted
            && r.response == s.response
  {
    hide StillHeld, BackoffMs, Later, FirstUsable;
    ChosenIsHeld(s);
  }

  lemma ScheduleWant(sm: Schedule, now: ms)
    ensures var r := Poll(sm, now).0; r.want == Wants(sm, now) && r.wantMs == sm.wantMs
  {
    hide BackoffMs, Later, Reached, Until;
  }

  lemma PollOnWant(s: State, now: ms, c: PollChoices)
    ensures var r := PollOn(s, now, c).s;
            r.sm.want == Wants(s.sm, now) && r.sm.wantMs == s.sm.wantMs && r.walk == s.walk && r.faulted == s.faulted
            && r.response == s.response
  {
    hide Poll, Act, BackoffMs, Later, Wants;
    var (sm, action) := Poll(s.sm, now);
    ScheduleWant(s.sm, now);
    ActWant(s.(sm := sm), action, now, c);
  }

  /** A poll takes a want away exactly by finding it expired. */
  lemma PollWant(s: State, now: ms, c: PollChoices)
    ensures var r := PollStep(s, now, c).s;
            && (r.sm.want <==> s.sm.want && (LooksAtWant(s, now) ==> Wants(s.sm, now)))
            && r.sm.wantMs == s.sm.wantMs && r.walk == s.walk && r.faulted == s.faulted && r.response == s.response
  {
    hide PollOn, StillHeld, BackoffMs, Later, Reached;
    var r := ForgetLostFabric(TakeLookup(s, now));
    PollOnWant(r, now, c);
    PollOnWant(DropAndFail(r, now), now, c);
  }

  /** The work queue and the tables; nothing that answers or settles the want. */
  predicate Queue(e: Event) {
    e.Polled? || e.Tables? || e.LookedUp?
  }

  /** Some poll among the events found the want expired. */
  predicate Dropped(sys: Sys, events: seq<Event>) {
    events != [] &&
    var before, e := events[..|events| - 1], events[|events| - 1];
    Expires(Then(sys, before).s, e) || Dropped(sys, before)
  }

  lemma QueueStep(sys: Sys, e: Event)
    requires Queue(e)
    ensures var r := Next(sys, e);
            && (r.s.sm.want <==> sys.s.sm.want && !Expires(sys.s, e))
            && r.s.sm.wantMs == sys.s.sm.wantMs && r.s.walk == sys.s.walk && r.s.faulted == sys.s.faulted
  {
    hide PollStep, LooksAtWant, Wants, SendsSigma1;
    if e.Polled? {
      PollWant(sys.s, e.now, e.choices);
    }
  }

  lemma {:induction false} WhileTiming(sys: Sys, events: seq<Event>)
    requires sys.s.walk.Timing? && sys.s.sm.want && !sys.s.faulted && forall e <- events :: Queue(e)
    ensures var r := Then(sys, events);
            && (r.s.sm.want <==> !Dropped(sys, events))
            && r.s.sm.wantMs == sys.s.sm.wantMs && r.s.walk == sys.s.walk && !r.s.faulted
  {
    hide Next, Expires;
    if events != [] {
      var before := events[..|events| - 1];
      assert forall e <- before :: e in events;
      WhileTiming(sys, before);
      QueueStep(Then(sys, before), events[|events| - 1]);
    }
  }

  /**
   In any reachable state that compares a new wish and finds it unmet: whatever the work
   queue does between the two writes, the want stands with its own time after the second
   if and only if no poll in between found it expired by the time that stood there before.
   */
  lemma WantSurvivesIff(info: Info, events: seq<Event>, now: ms, between: seq<Event>, later: ms)
    requires var s := Run(info, events).s;
             s.walk.Comparing? && !s.faulted && s.bolt.desired != s.bolt.synced
    requires forall e <- between :: Queue(e)
    ensures var first := Next(Run(info, events), WalkGoesOn(now));
            var q := Next(Then(first, between), WalkGoesOn(later));
            && q.s.walk.AtRest? && q.s.sm.wantMs == now
            && (q.s.sm.want <==> !Dropped(first, between))
  {
    hide Run, Dropped, SendsSigma1;
    var first := Next(Run(info, events), WalkGoesOn(now));
    assert first.s.walk == Timing(now) && first.s.sm.want && !first.s.faulted;
    WhileTiming(first, between);
  }
}
