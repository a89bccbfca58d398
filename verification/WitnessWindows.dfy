/**
 When the witness link publishes a window and what is in it, told from the reports it has
 accepted and the windows it has published; and when it rolls its challenge.
 */
module WitnessWindows {
  import opened Options
  import opened WitnessLink
  import opened WitnessReplay

  /** How much of the log earlier windows have used of a role; threshold reports are never used up. */
  function UsedTo(windows: seq<Window>, role: nat): nat {
    if windows == [] then 0
    else if role == 1 then windows[|windows| - 1].inner.id + 1
    else if role == 2 then windows[|windows| - 1].outer.id + 1
    else 0
  }

  /** The last report of a role has not been used and is at most 4 s old. */
  predicate Fresh(log: seq<Acceptance>, windows: seq<Window>, role: nat, now: int) {
    var n := LastOf(log, role);
    n > UsedTo(windows, role) && now - log[n - 1].ms <= 4000
  }

  function Latest(log: seq<Acceptance>, role: nat, hash: nat): Option<Tuple> {
    var n := LastOf(log, role);
    if n == 0 then None else Find(log[n - 1].msg, hash)
  }

  /** The distance last measured, -1 before the first. */
  function LastRange(events: seq<Event>): int {
    if events == [] then -1
    else if events[|events| - 1].Ranges? then events[|events| - 1].mm
    else LastRange(events[..|events| - 1])
  }

  /** A slot holds the last report of its role, until a window uses it. */
  predicate Kept(s: Slot, role: nat, log: seq<Acceptance>, windows: seq<Window>) {
    var n := LastOf(log, role);
    && (s.have <==> n > UsedTo(windows, role))
    && (n > 0 ==> s.id == n - 1 && s.msg == log[n - 1].msg && s.ms == log[n - 1].ms)
  }

  predicate AllKept(slots: seq<Slot>, log: seq<Acceptance>, windows: seq<Window>) {
    forall i :: 0 <= i < |slots| ==> Kept(slots[i], i + 1, log, windows)
  }

  /** What the callback works on is the report accepted last. */
  predicate RxLatest(rx: Rx, log: seq<Acceptance>) {
    rx.Quiet? || (log != [] && rx.now == log[|log| - 1].ms)
  }

  predicate NoneBeyond(log: seq<Acceptance>, roles: nat) {
    forall a <- log :: 1 <= a.msg.role <= roles
  }

  predicate Tracks(l: Link) {
    && AllKept(l.slots, l.log, l.windows) && RxLatest(l.rx, l.log) && NoneBeyond(l.log, |l.slots|)
    && UsedTo(l.windows, 1) <= |l.log| && UsedTo(l.windows, 2) <= |l.log|
  }

  lemma KeepKept(slots: seq<Slot>, log: seq<Acceptance>, windows: seq<Window>, a: Acceptance, s: Slot)
    requires AllKept(slots, log, windows) && 1 <= a.msg.role <= |slots|
    requires UsedTo(windows, 1) <= |log| && UsedTo(windows, 2) <= |log|
    requires s.have && s.id == |log| && s.msg == a.msg && s.ms == a.ms
    ensures AllKept(slots[a.msg.role - 1 := s], log + [a], windows)
  {
    hide LastOf;
    var now := slots[a.msg.role - 1 := s];
    forall i | 0 <= i < |now|
      ensures Kept(now[i], i + 1, log + [a], windows)
    {
      LastOfMore(log, a, i + 1);
      assert Kept(slots[i], i + 1, log, windows);
    }
  }

  lemma KeepTracks(l: Link, msg: Report, now: int)
    requires Tracks(l) && Admits(l.slots, msg)
    ensures Tracks(Keep(l, msg, now))
  {
    hide LastOf, UsedTo, AllKept;
    var a := Acceptance(msg, now, l.Epoch());
    KeepKept(l.slots, l.log, l.windows, a, Keep(l, msg, now).slots[msg.role - 1]);
  }

  lemma SameKept(slots: seq<Slot>, more: seq<Slot>, log: seq<Acceptance>, windows: seq<Window>)
    requires AllKept(slots, log, windows) && |more| == |slots|
    requires forall i :: 0 <= i < |slots| ==>
               more[i].have == slots[i].have && more[i].id == slots[i].id
               && more[i].msg == slots[i].msg && more[i].ms == slots[i].ms
    ensures AllKept(more, log, windows)
  {
    hide LastOf, UsedTo;
    forall i | 0 <= i < |more|
      ensures Kept(more[i], i + 1, log, windows)
    {
      assert Kept(slots[i], i + 1, log, windows);
    }
  }

  lemma PublishKept(slots: seq<Slot>, log: seq<Acceptance>, windows: seq<Window>, w: Window)
    requires AllKept(slots, log, windows) && |slots| >= 2 && slots[0].have && slots[1].have
    requires w.inner.id == slots[0].id && w.outer.id == slots[1].id
    ensures AllKept(slots[0 := slots[0].(have := false)][1 := slots[1].(have := false)], log, windows + [w])
    ensures UsedTo(windows + [w], 1) <= |log| && UsedTo(windows + [w], 2) <= |log|
  {
    hide LastOf;
    var now := slots[0 := slots[0].(have := false)][1 := slots[1].(have := false)];
    assert Kept(slots[0], 1, log, windows) && Kept(slots[1], 2, log, windows);
    forall i | 0 <= i < |now|
      ensures Kept(now[i], i + 1, log, windows + [w])
    {
      assert Kept(slots[i], i + 1, log, windows);
    }
  }

  lemma PublishTracks(l: Link)
    requires Tracks(l) && Inv(l) && l.rx.ReadIn?
    ensures Tracks(Publish(l))
  {
    hide LastOf, UsedTo, AllKept, WindowsTrue, SlotsTrue, UsedOnce, Sweeps, Clocked, Find, ThresholdOf;
    assert RxTrue(l);
    PublishKept(l.slots, l.log, l.windows, WindowOf(l));
  }

  lemma StepTracks(l: Link, e: Event)
    requires Tracks(l) && Inv(l)
    ensures Tracks(Step(l, e))
  {
    hide LastOf, UsedTo, AllKept, Inv, Keep, Publish, Opened;
    match e
    case Receives(opens, decoded, now) =>
      if l.rx.Quiet? && Opened(l.slots, opens) && decoded.Some? && Admits(l.slots, decoded.value) {
        KeepTracks(l, decoded.value, now);
      }
    case RxGoesOn(pick) =>
      if l.rx.ReadIn? {
        PublishTracks(l);
      } else {
        SameKept(l.slots, Step(l, e).slots, l.log, l.windows);
      }
    case _ => SameKept(l.slots, Step(l, e).slots, l.log, l.windows);
  }

  lemma {:induction false} RunTracks(keys: seq<bool>, draw: challenge, at: int, events: seq<Event>)
    ensures var l := Run(Initial(keys, draw, at), events);
            Tracks(l) && Inv(l) && |l.slots| == |keys| && l.rangeMm == LastRange(events)
  {
    hide Inv, Tracks, Step;
    var start := Initial(keys, draw, at);
    if events == [] {
      StartTracks(keys, draw, at);
      InitialInv(keys, draw, at);
    } else {
      var before, e := events[..|events| - 1], events[|events| - 1];
      RunTracks(keys, draw, at, before);
      StepKeeps(Run(start, before), e);
      StepTracks(Run(start, before), e);
      StepRange(Run(start, before), e);
    }
  }

  lemma StartTracks(keys: seq<bool>, draw: challenge, at: int)
    ensures Tracks(Initial(keys, draw, at))
  {
  }

  lemma StepRange(l: Link, e: Event)
    ensures Step(l, e).rangeMm == if e.Ranges? then e.mm else l.rangeMm
    ensures |Step(l, e).slots| == |l.slots|
  {
  }

  // ----- what is published

  lemma OnlyPublish(l: Link, e: Event)
    ensures Step(l, e).windows == l.windows || (e.RxGoesOn? && l.rx.ReadIn? && Step(l, e) == Publish(l))
  {
  }

  lemma LatestIs(l: Link, role: nat, hash: nat)
    requires Tracks(l) && 1 <= role <= |l.slots| && l.slots[role - 1].have
    ensures LastOf(l.log, role) == l.slots[role - 1].id + 1 > UsedTo(l.windows, role)
    ensures l.log[l.slots[role - 1].id].ms == l.slots[role - 1].ms
    ensures Latest(l.log, role, hash) == Find(l.slots[role - 1].msg, hash)
  {
    hide LastOf;
    assert Kept(l.slots[role - 1], role, l.log, l.windows);
  }

  lemma NoSuchRole(log: seq<Acceptance>, roles: nat, role: nat)
    requires NoneBeyond(log, roles) && role > roles
    ensures LastOf(log, role) == 0
  {
    assert forall k :: 0 <= k < |log| ==> log[k].msg.role <= roles;
  }

  lemma ThresholdIs(l: Link, hash: nat, now: int)
    requires Tracks(l)
    ensures ThresholdOf(l.slots, hash, now)
         == if Fresh(l.log, l.windows, 3, now) then Latest(l.log, 3, hash) else None
  {
    hide LastOf, AllKept;
    if |l.slots| < 3 {
      NoSuchRole(l.log, |l.slots|, 3);
    } else {
      assert Kept(l.slots[2], 3, l.log, l.windows) by { OneKept(l, 3); }
      if l.slots[2].have {
        LatestIs(l, 3, hash);
      }
    }
  }

  lemma OneKept(l: Link, role: nat)
    requires Tracks(l) && 1 <= role <= |l.slots|
    ensures Kept(l.slots[role - 1], role, l.log, l.windows)
  {
    hide Kept;
  }

  /** The window a step publishes. */
  predicate Tells(w: Window, before: Link, events: seq<Event>) {
    && before.log != []
    && w.seqNo == |before.windows| + 1
    && w.now == before.log[|before.log| - 1].ms
    && w.rangeMm == LastRange(events)
    && Fresh(before.log, before.windows, 1, w.now) && Fresh(before.log, before.windows, 2, w.now)
    && w.inner.id == LastOf(before.log, 1) - 1 && w.outer.id == LastOf(before.log, 2) - 1
    && w.inside == Latest(before.log, 1, w.hash) && w.outside == Latest(before.log, 2, w.hash)
    && w.threshold == if Fresh(before.log, before.windows, 3, w.now) then Latest(before.log, 3, w.hash) else None
  }

  /**
   In every run, with the two threads interleaved in any way, a step publishes nothing or
   one window more: numbered, dated by the report accepted last, with the distance last
   measured, the newest unused inside and outside reports, both at most 4 s old, and the
   newest threshold report if that is.
   */
  lemma PublishedTells(keys: seq<bool>, draw: challenge, at: int, events: seq<Event>, e: Event)
    ensures var l := Run(Initial(keys, draw, at), events);
            var r := Run(Initial(keys, draw, at), events + [e]);
            || r.windows == l.windows
            || (&& |r.windows| == |l.windows| + 1 && l.windows <= r.windows && e.RxGoesOn?
                && Tells(r.windows[|l.windows|], l, events))
  {
    hide Inv, Tracks, Step, Publish, Tells, Run;
    var start := Initial(keys, draw, at);
    var l := Run(start, events);
    RunTracks(keys, draw, at, events);
    Extend(start, events, e);
    OnlyPublish(l, e);
    if Step(l, e).windows != l.windows {
      NewTells(l, events);
    }
  }

  lemma NewTells(l: Link, events: seq<Event>)
    requires Tracks(l) && Inv(l) && l.rx.ReadIn? && l.rangeMm == LastRange(events)
    ensures Publish(l).windows == l.windows + [WindowOf(l)] && Tells(WindowOf(l), l, events)
  {
    hide LastOf, UsedTo, AllKept, WindowsTrue, SlotsTrue, UsedOnce, Sweeps, Clocked, Find, ThresholdOf, Latest, LastRange;
    assert HasPair(l.slots, l.rx.now) by { assert RxTrue(l); }
    LatestIs(l, 1, l.rx.hash);
    LatestIs(l, 2, l.rx.hash);
    ThresholdIs(l, l.rx.hash, l.rx.now);
  }

  // ----- a datagram worked through undisturbed

  /** The report is taken: an enrolled key opens it, its role is enrolled and it is newer than the last of its role. */
  predicate Taken(keys: seq<bool>, log: seq<Acceptance>, opens: seq<bool>, decoded: Option<Report>) {
    && (exists i :: 0 <= i < |keys| && i < |opens| && keys[i] && opens[i])
    && decoded.Some? && 1 <= decoded.value.role <= |keys| && keys[decoded.value.role - 1] && Newer(log, decoded.value)
  }

  lemma PairIff(l: Link, now: int)
    requires Tracks(l)
    ensures HasPair(l.slots, now) <==> Fresh(l.log, l.windows, 1, now) && Fresh(l.log, l.windows, 2, now)
  {
    hide LastOf, UsedTo, AllKept;
    if |l.slots| >= 1 {
      OneKept(l, 1);
    } else {
      NoSuchRole(l.log, |l.slots|, 1);
    }
    if |l.slots| >= 2 {
      OneKept(l, 2);
    } else {
      NoSuchRole(l.log, |l.slots|, 2);
    }
  }

  /** Storing the standing of a report leaves what is kept as it is. */
  lemma StoredPairs(l: Link, now: int)
    requires l.rx.Judged? && INSIDE <= l.rx.role <= |l.slots|
    ensures var s := StoreStanding(l);
            s.rx == Stored(l.rx.now) && s.log == l.log && s.windows == l.windows
            && (HasPair(s.slots, now) <==> HasPair(l.slots, now))
  {
  }

  /**
   After any run, a datagram worked through undisturbed changes nothing unless it is taken;
   taken, it is logged, and a window is published if and only if the picker names a label
   and the newest inside and outside reports are then both unused and at most 4 s old.
   */
  lemma ReceivePublishesIff(keys: seq<bool>, draw: challenge, at: int, events: seq<Event>,
                            opens: seq<bool>, decoded: Option<Report>, pick: Option<nat>, now: int)
    requires Run(Initial(keys, draw, at), events).rx.Quiet?
    ensures var l := Run(Initial(keys, draw, at), events);
            var r := Receive(l, opens, decoded, pick, now);
            if !Taken(keys, l.log, opens, decoded) then r == l
            else
              && r.log == l.log + [Acceptance(decoded.value, now, l.Epoch())] && r.rx.Quiet?
              && if pick.Some? && Fresh(r.log, l.windows, 1, now) && Fresh(r.log, l.windows, 2, now) then
                   && |r.windows| == |l.windows| + 1 && l.windows <= r.windows
                   && r.windows[|l.windows|].hash == pick.value && r.windows[|l.windows|].now == now
                 else r.windows == l.windows
  {
    hide Inv, Tracks, Run, Keep, StoreStanding, Pair, Publish, HasPair, Fresh, Opened, Admits, Taken, Newer;
    var l := Run(Initial(keys, draw, at), events);
    RunTracks(keys, draw, at, events);
    RunWatches(keys, draw, at, events);
    TakenIff(l, keys, opens, decoded);
    if Taken(keys, l.log, opens, decoded) {
      var kept := Keep(l, decoded.value, now);
      KeepTracks(l, decoded.value, now);
      KeptShape(l, decoded.value, now);
      PairIff(kept, now);
      StoredPairs(kept, now);
      Finish(StoreStanding(kept), pick, now);
    }
  }

  lemma TakenIff(l: Link, keys: seq<bool>, opens: seq<bool>, decoded: Option<Report>)
    requires Watched(l, keys)
    ensures Taken(keys, l.log, opens, decoded)
            <==> Opened(l.slots, opens) && decoded.Some? && Admits(l.slots, decoded.value)
  {
    hide Newer, AllNewer;
    if decoded.Some? && 1 <= decoded.value.role <= |keys| {
      AcceptsIff(l.slots[decoded.value.role - 1], l.log, decoded.value);
    }
  }

  lemma KeptShape(l: Link, msg: Report, now: int)
    requires Admits(l.slots, msg)
    ensures var k := Keep(l, msg, now);
            && k.rx.Judged? && k.rx.role == msg.role && k.rx.now == now && 1 <= msg.role <= |k.slots|
            && k.windows == l.windows && k.log == l.log + [Acceptance(msg, now, l.Epoch())]
  {
  }

  lemma Finish(l: Link, pick: Option<nat>, now: int)
    requires l.rx == Stored(now)
    ensures var r := RxStep(RxStep(l, pick), pick);
            && r.rx.Quiet? && r.log == l.log
            && if HasPair(l.slots, now) && pick.Some? then
                 && |r.windows| == |l.windows| + 1 && l.windows <= r.windows
                 && r.windows[|l.windows|].hash == pick.value && r.windows[|l.windows|].now == now
               else r.windows == l.windows
  {
    hide Find, ThresholdOf;
  }

  // ----- when the challenge is rolled

  /** Whether a session is up, and when the latest roll was begun. */
  function Begun(start: Link, events: seq<Event>): (bool, int)
    decreases |events|, 0
  {
    if events == [] then (start.session, start.nonceMs)
    else
      var before, e := events[..|events| - 1], events[|events| - 1];
      if !Rolls(start, before, e) then Begun(start, before)
      else (if e.SessionIs? then e.up else Begun(start, before).0, e.now)
  }

  /** A session edge rolls, and so does a tick of a session whose challenge has lived its period; nothing else does. */
  predicate Rolls(start: Link, events: seq<Event>, e: Event)
    decreases |events|, 1
  {
    var (up, since) := Begun(start, events);
    Run(start, events).main.Resting?
    && ((e.SessionIs? && e.up != up) || (e.Ticks? && up && e.period <= e.now - since))
  }

  predicate Dated(l: Link, begun: (bool, int)) {
    && l.session == begun.0
    && (if l.main.Drawing? then l.main.now == begun.1 else l.nonceMs == begun.1)
  }

  /** In every run the loop turns to a new challenge exactly then. */
  lemma {:induction false} RollsIff(keys: seq<bool>, draw: challenge, at: int, events: seq<Event>, e: Event)
    ensures var start := Initial(keys, draw, at);
            var l, r := Run(start, events), Run(start, events + [e]);
            && Dated(l, Begun(start, events))
            && (l.main.Resting? && !r.main.Resting? <==> Rolls(start, events, e))
            && (Rolls(start, events, e) ==> r.main == Drawing(e.now))
    decreases |events|
  {
    hide Run;
    var start := Initial(keys, draw, at);
    Extend(start, events, e);
    if events == [] {
      assert Run(start, []) == start by { NoEvents(start); }
    } else {
      var before, last := events[..|events| - 1], events[|events| - 1];
      RollsIff(keys, draw, at, before, last);
      Extend(start, before, last);
      assert before + [last] == events;
      StepDated(start, before, last);
    }
    OneRoll(start, events, e);
  }

  lemma NoEvents(start: Link)
    ensures Run(start, []) == start
  {
  }

  lemma OneRoll(start: Link, events: seq<Event>, e: Event)
    requires Dated(Run(start, events), Begun(start, events))
    ensures var l, r := Run(start, events), Step(Run(start, events), e);
            && (l.main.Resting? && !r.main.Resting? <==> Rolls(start, events, e))
            && (Rolls(start, events, e) ==> r.main == Drawing(e.now))
  {
    hide Run, Begun;
  }

  lemma StepDated(start: Link, events: seq<Event>, e: Event)
    requires Dated(Run(start, events), Begun(start, events))
    ensures Dated(Step(Run(start, events), e), Begun(start, events + [e]))
  {
    hide Run;
    assert (events + [e])[..|events|] == events;
  }
}
