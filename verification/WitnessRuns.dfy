/**
 Runs of the witness link in which a roll and a report interleave: for any two different
 challenges the degraded flag can be missing where it should stand, in two ways, and stand
 where it should be missing.
 */
module WitnessRuns {
  import opened Options
  import opened WitnessLink
  import opened WitnessStanding

  const BOTH := [true, true]

  /** A report that names no phone. */
  function Echo(role: nat, ctr: nat, echo: nat): Report {
    Report(role, 1, ctr, echo, map[])
  }

  function Arrives(role: nat, ctr: nat, echo: nat): Event {
    Receives([true], Some(Echo(role, ctr, echo)), 0)
  }

  const ON := RxGoesOn(Some(7))

  function Played(start: Link, events: seq<Event>): Link
    decreases |events|
  {
    if events == [] then start else Played(Step(start, events[0]), events[1..])
  }

  lemma {:induction false} PlayedIsRun(start: Link, before: seq<Event>, events: seq<Event>)
    ensures Played(Run(start, before), events) == Run(start, before + events)
    decreases |events|
  {
    hide Step;
    if events == [] {
      assert before + events == before;
    } else {
      Extend(start, before, events[0]);
      PlayedIsRun(start, before + [events[0]], events[1..]);
      assert before + [events[0]] + events[1..] == before + events;
    }
  }

  /** Two slots with keys, no roll under way. */
  predicate Pairable(l: Link) {
    && |l.slots| == 2 && l.slots[0].provisioned && l.slots[1].provisioned && l.draws != []
    && l.nonce == l.draws[|l.draws| - 1]
  }

  /** What keeping a report does to two slots. */
  lemma Keeps(l: Link, role: nat, ctr: nat, echo: nat)
    requires Pairable(l) && l.rx.Quiet? && 1 <= role <= 2 && l.slots[role - 1].seen.Unseen?
    ensures var r := Step(l, Arrives(role, ctr, echo));
            var slot := l.slots[role - 1];
            && Pairable(r)
            && r == l.(slots := l.slots[role - 1 := slot.(seen := SeenAt(1, ctr), msg := Echo(role, ctr, echo), ms := 0,
                                                          have := true, id := |l.log|)],
                       log := l.log + [Acceptance(Echo(role, ctr, echo), 0, |l.draws| - 1)],
                       rx := Judged(role, echo == l.nonce && l.nonce != 0, 0))
  {
    assert l.slots[0].provisioned && [true][0];
  }

  /** The rest of the callback, undisturbed: stored, and with the other report there and fresh, published. */
  lemma Finishes(l: Link)
    requires Pairable(l) && l.rx.Judged? && 1 <= l.rx.role <= 2 && l.rx.now == 0
    ensures var r, k := Played(l, [ON, ON, ON]), l.rx.role - 1;
            var slots := l.slots[k := l.slots[k].(nonceOk := l.rx.ok, stored := l.slots[k].swept)];
            if HasPair(slots, 0) then
              && |r.windows| == |l.windows| + 1 && r.log == l.log && r.draws == l.draws
              && var w := r.windows[|l.windows|];
                 && w.degraded == !(slots[0].nonceOk && slots[1].nonceOk)
                 && w.challenge == l.nonce && w.epoch == |l.draws| - 1
                 && w.inner.id == slots[0].id && w.outer.id == slots[1].id
            else r == l.(slots := slots, rx := Quiet)
  {
    var l1 := Step(l, ON);
    var l2 := Step(l1, ON);
    var l3 := Step(l2, ON);
    assert [ON, ON, ON][1..] == [ON, ON] && [ON, ON][1..] == [ON] && [ON][1..] == [];
    assert Played(l2, [ON]) == Played(l3, []) == l3;
    assert Played(l, [ON, ON, ON]) == l3;
    assert l1.slots == l.slots[l.rx.role - 1 := l.slots[l.rx.role - 1].(nonceOk := l.rx.ok, stored := l.slots[l.rx.role - 1].swept)];
  }

  lemma {:induction false} PlayedJoin(l: Link, a: seq<Event>, b: seq<Event>)
    ensures Played(l, a + b) == Played(Played(l, a), b)
    decreases |a|
  {
    hide Step;
    if a == [] {
      assert a + b == b;
    } else {
      assert (a + b)[0] == a[0] && (a + b)[1..] == a[1..] + b;
      PlayedJoin(Step(l, a[0]), a[1..], b);
    }
  }

  lemma PlayedOne(l: Link, e: Event)
    ensures Played(l, [e]) == Step(l, e)
  {
    hide Step;
    assert [e][1..] == [];
  }

  function DrawTo(b: challenge): seq<Event> {
    [SessionIs(true, 0)] + [MainGoesOn(b)]
  }

  const SWEEP := [MainGoesOn(0)] + [MainGoesOn(0)] + [MainGoesOn(0)]

  /** The new challenge is written, and no slot swept yet. */
  lemma Draws(l: Link, b: challenge)
    requires Pairable(l) && l.main.Resting? && !l.session
    ensures var r := Played(l, DrawTo(b));
            Pairable(r) && r == l.(nonce := b, draws := l.draws + [b], nonceMs := 0, session := true, main := Clearing(0))
  {
    hide Played;
    PlayedJoin(l, [SessionIs(true, 0)], [MainGoesOn(b)]);
    PlayedOne(l, SessionIs(true, 0));
    PlayedOne(Step(l, SessionIs(true, 0)), MainGoesOn(b));
  }

  /** Both slots are swept, and the roll is over. */
  lemma Sweeps2(l: Link)
    requires Pairable(l) && l.main == Clearing(0)
    ensures var r, n := Played(l, SWEEP), |l.draws| - 1;
            && Pairable(r)
            && r == l.(main := Resting, slots := [l.slots[0].(nonceOk := false, swept := n), l.slots[1].(nonceOk := false, swept := n)])
  {
    hide Played;
    var go := MainGoesOn(0);
    PlayedJoin(l, [go] + [go], [go]);
    PlayedJoin(l, [go], [go]);
    var l1 := Step(l, go);
    var l2 := Step(l1, go);
    PlayedOne(l, go);
    PlayedOne(l1, go);
    PlayedOne(l2, go);
  }

  const REST := [ON, ON, ON]

  function Start(a: challenge): Link {
    Initial(BOTH, a, 0)
  }

  lemma StartIs(a: challenge)
    ensures var l := Start(a);
            && Pairable(l) && l.rx.Quiet? && l.main.Resting? && !l.session && l.draws == [a] && l.log == [] && l.windows == []
            && l.slots == [Slot(true, Unseen, NO_REPORT, 0, false, false, 0, 0, 0), Slot(true, Unseen, NO_REPORT, 0, false, false, 0, 0, 0)]
  {
  }

  lemma Played5(l: Link, a: seq<Event>, b: seq<Event>, c: seq<Event>, d: seq<Event>, e: seq<Event>)
    ensures Played(l, a + b + c + d + e) == Played(Played(Played(Played(Played(l, a), b), c), d), e)
  {
    hide Played;
    PlayedJoin(l, a + b + c + d, e);
    PlayedJoin(l, a + b + c, d);
    PlayedJoin(l, a + b, c);
    PlayedJoin(l, a, b);
  }

  /** A report kept, and worked through undisturbed. */
  lemma Serves(l: Link, role: nat, echo: nat)
    requires Pairable(l) && l.rx.Quiet? && 1 <= role <= 2 && l.slots[role - 1].seen.Unseen?
    ensures var kept := Step(l, Arrives(role, 1, echo));
            Pairable(kept) && kept.rx.Judged? && Played(l, [Arrives(role, 1, echo)] + REST) == Played(kept, REST)
  {
    hide Played, Step;
    PlayedJoin(l, [Arrives(role, 1, echo)], REST);
    PlayedOne(l, Arrives(role, 1, echo));
    Keeps(l, role, 1, echo);
  }

  lemma FromStart(start: Link, events: seq<Event>)
    ensures Played(start, events) == Run(start, events)
  {
    PlayedIsRun(start, [], events);
    assert [] + events == events;
  }

  /**
   For any two different challenges: a roll that comes and goes between the compare of an
   outside report and the store of its standing leaves that standing behind, and the next
   inside report that echoes the new challenge publishes a window without the degraded flag
   that rests on an outside report of the retired one.
   */
  lemma OvertakenOpens(a: challenge, b: challenge) returns (events: seq<Event>)
    requires a != b
    ensures var l := Run(Start(a), events);
            && |l.windows| == 1 && |l.log| == 2
            && var w := l.windows[0];
               && w.outer.id < |l.log| && !w.degraded && w.challenge == b && l.log[w.outer.id].msg.echo == a
  {
    hide Run, Played, Step;
    var late, next := [Arrives(OUTSIDE, 1, a)], [Arrives(INSIDE, 1, b)];
    events := late + DrawTo(b) + SWEEP + REST + (next + REST);
    var l0 := Start(a);
    StartIs(a);
    FromStart(l0, events);
    Played5(l0, late, DrawTo(b), SWEEP, REST, next + REST);
    PlayedOne(l0, late[0]);
    Keeps(l0, OUTSIDE, 1, a);
    var l1 := Step(l0, late[0]);
    Draws(l1, b);
    var l2 := Played(l1, DrawTo(b));
    Sweeps2(l2);
    var l3 := Played(l2, SWEEP);
    Finishes(l3);
    var l4 := Played(l3, REST);
    assert l4.rx.Quiet? && l4.slots[1].nonceOk && l4.slots[1].have && l4.nonce == b;
    Serves(l4, INSIDE, b);
    Keeps(l4, INSIDE, 1, b);
    Finishes(Step(l4, next[0]));
  }

  /**
   The same window comes of a roll that has written the new challenge and not yet swept the
   outside report's slot.
   */
  lemma UnderWayOpens(a: challenge, b: challenge) returns (events: seq<Event>)
    requires a != b
    ensures var l := Run(Start(a), events);
            && |l.windows| == 1 && |l.log| == 2
            && var w := l.windows[0];
               && w.outer.id < |l.log| && !w.degraded && w.challenge == b && l.log[w.outer.id].msg.echo == a
  {
    hide Run, Played, Step;
    var first, next := [Arrives(OUTSIDE, 1, a)], [Arrives(INSIDE, 1, b)];
    events := (first + REST) + DrawTo(b) + (next + REST) + [] + [];
    var l0 := Start(a);
    StartIs(a);
    FromStart(l0, events);
    Played5(l0, first + REST, DrawTo(b), next + REST, [], []);
    Serves(l0, OUTSIDE, a);
    Keeps(l0, OUTSIDE, 1, a);
    Finishes(Step(l0, first[0]));
    var l1 := Played(l0, first + REST);
    assert l1.rx.Quiet? && l1.slots[1].nonceOk && l1.slots[1].have;
    Draws(l1, b);
    var l2 := Played(l1, DrawTo(b));
    Serves(l2, INSIDE, b);
    Keeps(l2, INSIDE, 1, b);
    Finishes(Step(l2, next[0]));
    NothingPlayed(Played(l2, next + REST));
  }

  lemma NothingPlayed(l: Link)
    ensures Played(l, []) == l
  {
  }

  /**
   And the other way about: a report that echoes the new challenge before its roll sweeps
   the slot loses its standing to that sweep, and a window whose reports both echoed the
   challenge in force is marked degraded.
   */
  lemma SweptAfterwards(a: challenge, b: challenge) returns (events: seq<Event>)
    ensures var l := Run(Start(a), events);
            && |l.windows| == 1 && |l.log| == 2
            && var w := l.windows[0];
               && w.inner.id < |l.log| && w.outer.id < |l.log| && w.degraded
               && Current(l.log[w.inner.id], w) && Current(l.log[w.outer.id], w)
  {
    hide Run, Played, Step;
    var first, next := [Arrives(OUTSIDE, 1, b)], [Arrives(INSIDE, 1, b)];
    events := DrawTo(b) + (first + REST) + SWEEP + (next + REST) + [];
    var l0 := Start(a);
    StartIs(a);
    FromStart(l0, events);
    Played5(l0, DrawTo(b), first + REST, SWEEP, next + REST, []);
    Draws(l0, b);
    var l1 := Played(l0, DrawTo(b));
    Serves(l1, OUTSIDE, b);
    Keeps(l1, OUTSIDE, 1, b);
    Finishes(Step(l1, first[0]));
    var l2 := Played(l1, first + REST);
    assert l2.rx.Quiet? && l2.slots[1].have && l2.slots[0] == l1.slots[0];
    Sweeps2(l2);
    var l3 := Played(l2, SWEEP);
    Serves(l3, INSIDE, b);
    Keeps(l3, INSIDE, 1, b);
    Finishes(Step(l3, next[0]));
    NothingPlayed(Played(l3, next + REST));
  }
}
