/**
 What a window of the witness link is worth: when it was published, of what, and how far
 the degraded flag can be believed when rolls and reports interleave.
 */
module WitnessStanding {
  import opened Options
  import opened WitnessLink

  /** The report was compared with the challenge the window was published under, and echoed it. */
  predicate Current(a: Acceptance, w: Window) {
    a.epoch == w.epoch && a.msg.echo == w.challenge && w.challenge != 0
  }

  /** What the flag is meant to say. */
  predicate Honest(w: Window, log: seq<Acceptance>)
    requires w.inner.id < |log| && w.outer.id < |log|
  {
    !w.degraded <==> Current(log[w.inner.id], w) && Current(log[w.outer.id], w)
  }

  /** A new challenge was written between the report's compare and the window. */
  predicate Outdated(b: Basis, w: Window, log: seq<Acceptance>)
    requires b.id < |log|
  {
    log[b.id].epoch < w.epoch
  }

  /**
   In every run, whatever interleaves, each window rests on an accepted inside and an
   accepted outside report at most 4000 ms old, and says of them what they said.
   */
  lemma WindowsRestOnFreshPairs(keys: seq<bool>, draw: challenge, now: int, events: seq<Event>, k: nat)
    requires k < |Run(Initial(keys, draw, now), events).windows|
    ensures var l := Run(Initial(keys, draw, now), events);
            var w := l.windows[k];
            && Rests(w.inner, INSIDE, w, l.log) && Rests(w.outer, OUTSIDE, w, l.log)
            && w.inside == Find(l.log[w.inner.id].msg, w.hash) && w.outside == Find(l.log[w.outer.id].msg, w.hash)
  {
    InitialInv(keys, draw, now);
    RunInv(Initial(keys, draw, now), events);
  }

  /** Each accepted report feeds at most one window. */
  lemma EachReportOnce(keys: seq<bool>, draw: challenge, now: int, events: seq<Event>, j: nat, k: nat)
    requires j < k < |Run(Initial(keys, draw, now), events).windows|
    ensures var ws := Run(Initial(keys, draw, now), events).windows;
            && ws[j].inner.id != ws[k].inner.id && ws[j].outer.id != ws[k].outer.id
            && ws[j].inner.id != ws[k].outer.id && ws[j].outer.id != ws[k].inner.id
  {
    InitialInv(keys, draw, now);
    RunInv(Initial(keys, draw, now), events);
    var l := Run(Initial(keys, draw, now), events);
    assert WindowTrue(l.windows[j], l.draws, l.log) && WindowTrue(l.windows[k], l.draws, l.log);
  }

  /** A window carries the challenge in force when its flag was decided, and a step publishes at most one. */
  lemma ChallengeIsCurrent(l: Link, e: Event)
    ensures var l' := Step(l, e);
            || l'.windows == l.windows
            || (|l'.windows| == |l.windows| + 1 && l'.windows[..|l.windows|] == l.windows
                && l'.windows[|l.windows|].challenge == l.nonce == l'.nonce
                && l'.windows[|l.windows|].epoch == l.Epoch() == l'.Epoch())
  {
    hide Opened, HasPair;
  }

  // ----- when the flag is honest

  lemma HonestIff(w: Window, draws: seq<nat>, log: seq<Acceptance>)
    requires WindowTrue(w, draws, log)
    ensures Honest(w, log) <==>
              (Passed(log[w.inner.id], draws) && Passed(log[w.outer.id], draws) ==>
                 (Outdated(w.inner, w, log) || Outdated(w.outer, w, log) <==> Swept(w.inner) || Swept(w.outer)))
    ensures !w.degraded ==>
              (Current(log[w.inner.id], w) && Current(log[w.outer.id], w)
               <==> !Escaped(w.inner, w, log) && !Escaped(w.outer, w, log))
  {
    CurrentIff(w.inner, w, draws, log);
    CurrentIff(w.outer, w, draws, log);
  }

  lemma CurrentIff(b: Basis, w: Window, draws: seq<nat>, log: seq<Acceptance>)
    requires b.id < |log| && w.epoch < |draws| && w.challenge == draws[w.epoch] && log[b.id].epoch <= w.epoch
    ensures Current(log[b.id], w) <==> Passed(log[b.id], draws) && !Outdated(b, w, log)
  {
  }

  /**
   The report got past a roll: a new challenge was written after its compare, and the last
   roll either swept its slot before its standing was stored or had not swept it when the
   standing was read.
   */
  predicate Escaped(b: Basis, w: Window, log: seq<Acceptance>)
    requires b.id < |log|
  {
    Outdated(b, w, log) && (b.stored == w.epoch || b.swept < w.epoch)
  }

  /**
   In every run: a window lacks the degraded flag exactly when both of its reports were
   compared with the challenge in force and echoed it, if and only if, should both have
   echoed what they were compared with, a new challenge was written since one of the
   compares exactly when a roll swept one of the slots between the store of its standing
   and its being read.
   */
  lemma FlagHonestIff(keys: seq<bool>, draw: challenge, now: int, events: seq<Event>, k: nat)
    requires k < |Run(Initial(keys, draw, now), events).windows|
    ensures var l := Run(Initial(keys, draw, now), events);
            var w := l.windows[k];
            && w.inner.id < |l.log| && w.outer.id < |l.log|
            && (Honest(w, l.log) <==>
                 (Passed(l.log[w.inner.id], l.draws) && Passed(l.log[w.outer.id], l.draws) ==>
                    (Outdated(w.inner, w, l.log) || Outdated(w.outer, w, l.log) <==> Swept(w.inner) || Swept(w.outer))))
  {
    InitialInv(keys, draw, now);
    RunInv(Initial(keys, draw, now), events);
    var l := Run(Initial(keys, draw, now), events);
    hide Run, Passed, Current, Outdated;
    assert WindowTrue(l.windows[k], l.draws, l.log);
    HonestIff(l.windows[k], l.draws, l.log);
  }

  /**
   In every run, a window without the flag rests on two reports that echoed the nonzero
   challenge in force if and only if neither escaped a roll. Either way both echoed the
   challenge they were compared with.
   */
  lemma UndegradedIff(keys: seq<bool>, draw: challenge, now: int, events: seq<Event>, k: nat)
    requires k < |Run(Initial(keys, draw, now), events).windows|
    requires !Run(Initial(keys, draw, now), events).windows[k].degraded
    ensures var l := Run(Initial(keys, draw, now), events);
            var w := l.windows[k];
            && w.inner.id < |l.log| && w.outer.id < |l.log|
            && Passed(l.log[w.inner.id], l.draws) && Passed(l.log[w.outer.id], l.draws)
            && (Current(l.log[w.inner.id], w) && Current(l.log[w.outer.id], w)
                <==> !Escaped(w.inner, w, l.log) && !Escaped(w.outer, w, l.log))
  {
    InitialInv(keys, draw, now);
    RunInv(Initial(keys, draw, now), events);
    var l := Run(Initial(keys, draw, now), events);
    hide Run, Passed, Current, Escaped;
    assert WindowTrue(l.windows[k], l.draws, l.log);
    HonestIff(l.windows[k], l.draws, l.log);
  }

  // ----- rolls and reports apart

  /** At no moment are a report and a roll both under way. */
  predicate Apart(start: Link, events: seq<Event>) {
    && (Run(start, events).rx.Quiet? || Run(start, events).main.Resting?)
    && (events == [] || Apart(start, events[..|events| - 1]))
  }

  /** A standing is stored under the challenge its report was compared with. */
  predicate CalmSlots(l: Link) {
    forall i :: 0 <= i < |l.slots| && l.slots[i].have ==>
      && l.slots[i].id < |l.log|
      && l.log[l.slots[i].id].epoch == if l.rx.Judged? && l.rx.role == i + 1 then l.Epoch() else l.slots[i].stored
  }

  predicate CalmBasis(b: Basis, w: Window, log: seq<Acceptance>) {
    b.id < |log| && b.stored == log[b.id].epoch && b.swept == w.epoch
  }

  predicate Calm(l: Link) {
    && CalmSlots(l)
    && (l.rx.ReadIn? ==> l.rx.swept == l.Epoch())
    && (forall k :: 0 <= k < |l.windows| ==>
          CalmBasis(l.windows[k].inner, l.windows[k], l.log) && CalmBasis(l.windows[k].outer, l.windows[k], l.log))
  }

  lemma CalmKeep(l: Link, msg: Report, now: int)
    requires Calm(l) && l.rx.Quiet? && Admits(l.slots, msg)
    ensures Calm(Keep(l, msg, now))
  {
  }

  lemma CalmRx(l: Link, pick: Option<nat>)
    requires Calm(l) && l.main.Resting? && Sweeps(l) && RxTrue(l)
    ensures Calm(RxStep(l, pick))
  {
    hide Find, ThresholdOf, Passed;
  }

  lemma CalmMain(l: Link, draw: nat)
    requires Calm(l) && (l.rx.Quiet? || l.main.Resting?)
    ensures Calm(MainStep(l, draw))
  {
  }

  lemma CalmStep(l: Link, e: Event)
    requires Inv(l) && Calm(l)
    requires l.rx.Quiet? || l.main.Resting?
    ensures Calm(Step(l, e))
  {
    hide Inv, Keep, RxStep, MainStep, Opened;
    match e
    case Receives(opens, decoded, now) =>
      if l.rx.Quiet? && Opened(l.slots, opens) && decoded.Some? && Admits(l.slots, decoded.value) {
        CalmKeep(l, decoded.value, now);
      }
    case RxGoesOn(pick) =>
      if l.rx.Quiet? {
        NothingToDo(l, pick);
      } else {
        SweepsOf(l);
        CalmRx(l, pick);
      }
    case MainGoesOn(draw) => CalmMain(l, draw);
    case _ =>
  }

  lemma NothingToDo(l: Link, pick: Option<nat>)
    requires l.rx.Quiet?
    ensures RxStep(l, pick) == l
  {
  }

  lemma SweepsOf(l: Link)
    requires Inv(l)
    ensures Sweeps(l) && RxTrue(l)
  {
  }

  lemma {:induction false} CalmRun(start: Link, events: seq<Event>)
    requires Inv(start) && Calm(start) && Apart(start, events)
    ensures Inv(Run(start, events)) && Calm(Run(start, events))
  {
    hide Inv, Calm, Step;
    if events != [] {
      var before := events[..|events| - 1];
      CalmRun(start, before);
      var l := Run(start, before);
      StepKeeps(l, events[|events| - 1]);
      ApartAt(start, before);
      CalmStep(l, events[|events| - 1]);
    }
  }

  lemma ApartAt(start: Link, events: seq<Event>)
    requires Apart(start, events)
    ensures Run(start, events).rx.Quiet? || Run(start, events).main.Resting?
  {
  }

  /** Where no roll and no report are ever under way together, the flag of every window is honest. */
  lemma ApartMeansHonest(keys: seq<bool>, draw: challenge, now: int, events: seq<Event>, k: nat)
    requires Apart(Initial(keys, draw, now), events) && k < |Run(Initial(keys, draw, now), events).windows|
    ensures var l := Run(Initial(keys, draw, now), events);
            var w := l.windows[k];
            w.inner.id < |l.log| && w.outer.id < |l.log| && Honest(w, l.log)
  {
    var start := Initial(keys, draw, now);
    InitialInv(keys, draw, now);
    CalmRun(start, events);
    var l := Run(start, events);
    hide Run, Passed, Current;
    assert WindowTrue(l.windows[k], l.draws, l.log);
    HonestIff(l.windows[k], l.draws, l.log);
  }

  // ----- nothing is withheld

  /** The main loop's events, which may fall anywhere into the receive callback. */
  predicate OfMain(e: Event) {
    e.SessionIs? || e.Ticks? || e.MainGoesOn? || e.Ranges?
  }

  /** What the main loop leaves of the receive callback's own. */
  predicate SameKept(l: Link, r: Link) {
    && r.rx == l.rx && r.log == l.log && r.windows == l.windows && |r.slots| == |l.slots|
    && forall i :: 0 <= i < |l.slots| ==>
         r.slots[i] == l.slots[i].(nonceOk := r.slots[i].nonceOk, swept := r.slots[i].swept)
  }

  lemma MainLeavesStep(l: Link, e: Event)
    requires OfMain(e)
    ensures SameKept(l, Step(l, e))
  {
  }

  lemma SameKeptJoin(l: Link, m: Link, r: Link)
    requires SameKept(l, m) && SameKept(m, r)
    ensures SameKept(l, r)
  {
  }

  lemma {:induction false} MainLeaves(l: Link, events: seq<Event>)
    requires forall e <- events :: OfMain(e)
    ensures SameKept(l, Run(l, events))
  {
    if events != [] {
      hide SameKept, Step;
      var before := events[..|events| - 1];
      assert forall e <- before :: e in events;
      MainLeaves(l, before);
      MainLeavesStep(Run(l, before), events[|events| - 1]);
      SameKeptJoin(l, Run(l, before), Run(l, events));
    }
  }

  /** A report that completes a fresh pair, with a label vouched for. */
  predicate Completes(l: Link, opens: seq<bool>, msg: Report, now: int) {
    && l.rx.Quiet? && Opened(l.slots, opens) && Admits(l.slots, msg) && |l.slots| >= OUTSIDE
    && (msg.role == INSIDE || msg.role == OUTSIDE)
    && var other := l.slots[if msg.role == INSIDE then OUTSIDE - 1 else INSIDE - 1];
       other.have && now - other.ms <= STALE_MS
  }

  predicate UsedUp(slots: seq<Slot>) {
    |slots| >= OUTSIDE && !slots[INSIDE - 1].have && !slots[OUTSIDE - 1].have
  }

  /** From the stored standing to the window. */
  lemma PairIsPublished(l: Link, hash: nat, c: seq<Event>)
    requires l.rx.Stored? && HasPair(l.slots, l.rx.now) && forall e <- c :: OfMain(e)
    ensures var on := RxGoesOn(Some(hash));
            var l' := Step(Run(Step(l, on), c), on);
            && |l'.windows| == |l.windows| + 1 && UsedUp(l'.slots)
            && l'.windows[|l.windows|].inner.id == l.slots[INSIDE - 1].id
            && l'.windows[|l.windows|].outer.id == l.slots[OUTSIDE - 1].id
  {
    MainLeaves(Step(l, RxGoesOn(Some(hash))), c);
    hide Run, Find, ThresholdOf;
  }

  /**
   Whatever the main loop does meanwhile, a report that completes a fresh pair is published
   with it, if the picker vouches for a label, and the pair is used up.
   */
  lemma CompletedPairIsPublished(l: Link, opens: seq<bool>, msg: Report, hash: nat, now: int,
                                 a: seq<Event>, b: seq<Event>, c: seq<Event>)
    requires Completes(l, opens, msg, now)
    requires (forall e <- a :: OfMain(e)) && (forall e <- b :: OfMain(e)) && (forall e <- c :: OfMain(e))
    ensures var on := RxGoesOn(Some(hash));
            var judged := Run(Step(l, Receives(opens, Some(msg), now)), a);
            var stored := Run(Step(judged, on), b);
            var l' := Step(Run(Step(stored, on), c), on);
            && |l'.windows| == |l.windows| + 1
            && (if msg.role == INSIDE then l'.windows[|l.windows|].inner.id else l'.windows[|l.windows|].outer.id) == |l.log|
            && UsedUp(l'.slots)
  {
    var on := RxGoesOn(Some(hash));
    var kept := Step(l, Receives(opens, Some(msg), now));
    assert kept == Keep(l, msg, now);
    MainLeaves(kept, a);
    var judged := Run(kept, a);
    MainLeaves(Step(judged, on), b);
    var stored := Run(Step(judged, on), b);
    hide Run, Opened;
    assert stored.rx == Stored(now) && HasPair(stored.slots, now);
    assert stored.slots[msg.role - 1].id == |l.log| && stored.windows == l.windows;
    hide Step, HasPair;
    PairIsPublished(stored, hash, c);
  }
}
