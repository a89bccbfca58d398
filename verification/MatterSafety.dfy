/**
 What every interleaving of the bound-lock client's entry points keeps: no bolt edge is
 lost, everything said about a fabric is said while the fabric is held, and a handshake
 establishes at most one session.
 */
module MatterSafety {
  import opened Options
  import opened ClientSchedule
  import opened MatterMachine

  // ----- what ties the handshake, the schedule and the chosen fabric together

  predicate FabricBehindIt(s: State) {
    s.hs.session || s.hs.active || s.hs.linger != 0 ==> s.peer.fabric.Some?
  }

  predicate Coupled(hs: Handshake, phase: Phase) {
    && (hs.linger != 0 ==> hs.session)
    && (hs.active ==> phase.Sigma1? || phase.Sigma3?)
    && (hs.session ==> phase == if hs.active then Phase.Sigma3 else Ready)
    && (phase.Ready? || (hs.active && phase.Sigma3?) ==> hs.session)
    && (hs.key != 0 ==> hs.active && !hs.session)
  }

  /** A message kept for resending was built from the fabric the attempt is for. */
  predicate KeptIsOurs(s: State) {
    s.hs.active && s.hs.kept.Some? ==>
      s.peer.fabric == Some(s.hs.kept.value.slot) && s.peer.id == s.hs.kept.value.id
  }

  predicate InvokeIsWanted(s: State) {
    && (!s.invoke.NoInvoke? ==> s.sm.want && s.sm.phase.Ready?)
    && (s.response.Cleared? ==> s.invoke.NoInvoke?)
  }

  predicate Safe(s: State) {
    FabricBehindIt(s) && Coupled(s.hs, s.sm.phase) && KeptIsOurs(s) && InvokeIsWanted(s)
  }

  // ----- the bolt, against the count of losses when it was last wanted

  /** An accepted response is on its way to the recheck that ends it. */
  predicate Settling(r: Response) {
    r.Loaded? || ((r.Applied? || r.Cleared?) && r.ok)
  }

  predicate NoEdgeLost(s: State, mark: nat) {
    && mark <= s.sm.losses
    && (!Settling(s.response) && !s.walk.Comparing? ==>
          s.bolt.desired != s.bolt.synced && !s.bolt.rearm ==> s.sm.want || mark < s.sm.losses)
  }

  /** A step that leaves the bolt alone and may take the want away only by losing it. */
  predicate Steady(s: State, s': State) {
    && s'.bolt == s.bolt && s'.response == s.response && s'.walk == s.walk && s'.sm.losses >= s.sm.losses
    && (s.sm.want ==> s'.sm.want || s'.sm.losses > s.sm.losses)
  }

  lemma SteadyKeeps(s: State, s': State, mark: nat)
    requires Steady(s, s') && NoEdgeLost(s, mark)
    ensures NoEdgeLost(s', mark)
  {
  }

  // ----- the tables

  lemma {:induction false} SlotFromFinds(fabrics: seq<Fabric>, index: nat, i: nat)
    requires i <= |fabrics|
    ensures SlotFrom(fabrics, index, i).Some? ==>
              var k := SlotFrom(fabrics, index, i).value; i <= k < |fabrics| && fabrics[k].index == index
    decreases |fabrics| - i
  {
    if i < |fabrics| && fabrics[i].index != index {
      SlotFromFinds(fabrics, index, i + 1);
    }
  }

  lemma {:induction false} FirstUsableIs(info: Info, i: nat)
    requires i <= |info.targets|
    ensures FirstUsable(info, i).Some? ==> Usable(info, FirstUsable(info, i).value)
    decreases |info.targets| - i
  {
    if i < |info.targets| && !Usable(info, info.targets[i]) {
      FirstUsableIs(info, i + 1);
    }
  }

  /** A target just chosen is held, and nothing but the peer has changed. */
  lemma ChosenIsHeld(s: State)
    ensures var (c, ok) := Choose(s);
            && c == s.(peer := c.peer)
            && (ok ==> StillHeld(c))
            && (ok <==> FirstUsable(s.info, 0).Some?)
  {
    var t := FirstUsable(s.info, 0);
    FirstUsableIs(s.info, 0);
    if t.Some? {
      SlotFromFinds(s.info.fabrics, t.value.fabricIndex, 0);
    }
  }

  // ----- the poll

  /** Past its first checks a poll holds the fabric it works for. */
  predicate Vetted(s: State) {
    Safe(s) && (s.peer.fabric.Some? ==> StillHeld(s))
  }

  predicate WireHeld(info: Info, wire: seq<Wire>) {
    forall w <- wire ::
      match w
      case TimedRequest(slot, id) => Held(info, slot, id)
      case InvokeRequest(_, _, _) => true
      case First(m) => Held(info, m.slot, m.id)
      case Again(m) => Held(info, m.slot, m.id)
  }

  lemma DropIsSafe(s: State)
    requires s.response.Free?
    ensures var d := Drop(s);
            && Safe(d) == Coupled(d.hs, d.sm.phase) && d.info == s.info && d.peer == s.peer && !d.hs.active
            && d.sm.losses == s.sm.losses && d.sm.want == s.sm.want && !d.sm.phase.Ready?
            && Safe(d) && Steady(s, d)
  {
  }

  lemma DropAndFailIsSafe(s: State, now: ms)
    requires s.response.Free?
    ensures var d := DropAndFail(s, now);
            Safe(d) && d.info == s.info && d.peer == s.peer && Steady(s, d) && d.sm.losses > s.sm.losses
            && d.invoke.NoInvoke? && !d.hs.active
  {
    hide BackoffMs, Later;
  }

  lemma TakeLookupKeeps(s: State, now: ms)
    requires Safe(s) && s.response.Free?
    ensures var r := TakeLookup(s, now); Safe(r) && Steady(s, r) && r.info == s.info
  {
    hide BackoffMs, Later;
  }

  lemma ForgetKeeps(s: State)
    requires Safe(s) && s.response.Free?
    ensures var r := ForgetLostFabric(s); Vetted(r) && Steady(s, r) && r.info == s.info
  {
    hide Held;
  }

  /** What the schedule's poll does, without its arithmetic. */
  lemma PollShape(sm: Schedule, now: ms)
    ensures var (r, action) := Poll(sm, now);
            && r.losses >= sm.losses && (sm.want ==> r.want || r.losses > sm.losses)
            && (action.Resolve? ==> r.phase.Resolving? && (sm.phase.Idle? || sm.phase.Backoff?))
            && (action.SendSigma1? ==> r.phase.Idle? && (sm.phase.Idle? || sm.phase.Backoff?))
            && (action.Invoke? ==> r.phase.Ready? && r.want && r == sm && Wants(sm, now))
            && (action.Nothing? && sm.phase.Ready? ==> r.phase.Ready?)
            && (!sm.phase.Ready? ==> !r.phase.Ready?)
            && (action.Nothing? && (r.phase.Sigma1? || r.phase.Sigma3?) ==> r.phase == sm.phase)
  {
    hide BackoffMs, Later, Reached, Until;
  }

  /** While a handshake is up the schedule may already have given up on it; `Abandon` settles that. */
  predicate Loose(s: State) {
    && FabricBehindIt(s) && KeptIsOurs(s) && InvokeIsWanted(s) && s.response.Free?
    && (s.peer.fabric.Some? ==> StillHeld(s))
    && (s.hs.linger != 0 ==> s.hs.session)
    && (s.hs.session && !s.hs.active ==> s.sm.phase.Ready?)
    && (s.hs.session && s.hs.active ==> !s.sm.phase.Sigma1?)
    && (s.sm.phase.Ready? ==> s.hs.session && !s.hs.active)
    && (s.hs.active && s.sm.phase.Sigma3? ==> s.hs.session)
    && (s.hs.key != 0 ==> s.hs.active && !s.hs.session)
  }

  lemma SendSigma1Keeps(s: State, draw: Draw)
    requires Loose(s) && s.sm.phase.Idle? && !s.hs.active && StillHeld(s)
    ensures var (r, sent, wire) := SendSigma1Now(s, draw);
            && r == s.(hs := r.hs) && WireHeld(r.info, wire)
            && !r.hs.session && r.hs.linger == 0
            && r.hs.active == sent && (sent <==> wire != []) && |wire| <= 1
            && FabricBehindIt(r) && KeptIsOurs(r)
  {
    hide Held;
  }

  lemma ActSigma1(s: State, now: ms, c: PollChoices)
    requires Loose(s) && s.sm.phase.Idle? && !s.hs.active
    ensures var (r, wire) := Act(s, SendSigma1, now, c);
            Loose(r) && Steady(s, r) && r.info == s.info && WireHeld(r.info, wire)
            && (wire != [] ==> r.hs.active && r.sm.phase.Sigma1?)
  {
    hide Held, BackoffMs, Later;
    assert !s.hs.session && s.invoke.NoInvoke?;
    ChosenIsHeld(s);
    var (chosen, ok) := if StillHeld(s) then (s, true) else Choose(s);
    if ok {
      SendSigma1Keeps(chosen, c.draw);
    }
  }

  lemma ActResolve(s: State, now: ms, c: PollChoices)
    requires Loose(s) && s.sm.phase.Resolving? && !s.hs.active
    ensures var (r, wire) := Act(s, Resolve, now, c);
            Loose(r) && Steady(s, r) && r.info == s.info && wire == []
  {
    hide Held, BackoffMs, Later;
    assert !s.hs.session && s.invoke.NoInvoke?;
    ChosenIsHeld(s);
  }

  lemma ActInvoke(s: State, now: ms, c: PollChoices)
    requires Loose(s) && s.sm.phase.Ready? && s.sm.want
    ensures var (r, wire) := Act(s, Invoke, now, c);
            Loose(r) && Steady(s, r) && r.info == s.info && WireHeld(r.info, wire)
  {
    hide Held;
    DropAndFailIsSafe(s, now);
  }

  lemma ResendKeeps(s: State, now: ms, mrp: Mrp)
    requires Loose(s)
    ensures var (r, wire) := Resend(s, now, mrp);
            Loose(r) && Steady(s, r) && r.info == s.info && WireHeld(r.info, wire)
  {
    hide Held;
    DropAndFailIsSafe(s, now);
  }

  lemma AbandonKeeps(s: State)
    requires Loose(s)
    ensures Safe(Abandon(s)) && Steady(s, Abandon(s)) && Abandon(s).info == s.info
  {
    hide Held;
  }

  lemma WireJoin(info: Info, a: seq<Wire>, b: seq<Wire>)
    requires WireHeld(info, a) && WireHeld(info, b)
    ensures WireHeld(info, a + b)
  {
  }

  lemma ActKeeps(s: State, now: ms, c: PollChoices)
    requires Vetted(s) && s.invoke.NoInvoke? && s.response.Free?
    ensures var (sm, action) := Poll(s.sm, now);
            var (r, wire) := Act(s.(sm := sm), action, now, c);
            Loose(r) && Steady(s, r) && r.info == s.info && WireHeld(r.info, wire)
  {
    hide Held, Poll, Act, Wants;
    PollShape(s.sm, now);
    var (sm, action) := Poll(s.sm, now);
    var t := s.(sm := sm);
    assert Steady(s, t);
    assert Loose(t);
    match action
    case Nothing => ActNothing(t, now, c);
    case Resolve => ActResolve(t, now, c);
    case SendSigma1 => ActSigma1(t, now, c);
    case Invoke => ActInvoke(t, now, c);
  }

  lemma ActNothing(s: State, now: ms, c: PollChoices)
    ensures Act(s, Nothing, now, c) == (s, [])
  {
  }

  lemma SteadyJoin(a: State, b: State, c: State)
    requires Steady(a, b) && Steady(b, c)
    ensures Steady(a, c)
  {
  }

  lemma PollOnKeeps(s: State, now: ms, c: PollChoices)
    requires Vetted(s) && s.invoke.NoInvoke? && s.response.Free?
    ensures var o := PollOn(s, now, c);
            Safe(o.s) && Steady(s, o.s) && o.s.info == s.info && WireHeld(s.info, o.wire) && !o.established
  {
    hide Held, Poll, Act, Resend, Abandon, Vetted, Loose, Safe, Steady, WireHeld;
    var (sm, action) := Poll(s.sm, now);
    var (acted, wire1) := Act(s.(sm := sm), action, now, c);
    ActKeeps(s, now, c);
    var (resent, wire2) := Resend(acted, now, c.mrp);
    ResendKeeps(acted, now, c.mrp);
    AbandonKeeps(resent);
    SteadyJoin(s, acted, resent);
    SteadyJoin(s, resent, Abandon(resent));
    WireJoin(s.info, wire1, wire2);
  }

  lemma PollKeeps(s: State, now: ms, c: PollChoices)
    requires Safe(s) && s.response.Free?
    ensures var o := PollStep(s, now, c);
            Safe(o.s) && Steady(s, o.s) && o.s.info == s.info && WireHeld(s.info, o.wire) && !o.established
  {
    hide Held, TakeLookup, ForgetLostFabric, PollOn, Safe, DropAndFail, Reached, Later, StillHeld;
    var t := TakeLookup(s, now);
    TakeLookupKeeps(s, now);
    var r := ForgetLostFabric(t);
    ForgetKeeps(t);
    SteadyJoin(s, t, r);
    if r.invoke.NoInvoke? {
      PollOnKeeps(r, now, c);
      SteadyJoin(s, r, PollOn(r, now, c).s);
    } else {
      var d := DropAndFail(r, now);
      DropAndFailIsSafe(r, now);
      StillVetted(r, d);
      SteadyJoin(s, r, d);
      PollOnKeeps(d, now, c);
      SteadyJoin(s, d, PollOn(d, now, c).s);
    }
  }

  lemma StillVetted(s: State, d: State)
    requires Vetted(s) && Safe(d) && d.peer == s.peer && d.info == s.info
    ensures Vetted(d)
  {
    hide Held, Safe;
  }

  // ----- inbound messages

  /** A Sigma2 that opens finds its handshake where the Sigma1 left it. */
  lemma Sigma2Keeps(s: State, m: Unsecured, now: ms)
    requires Vetted(s) && s.response.Free? && m.Sigma2?
    ensures var o := Sigma2Step(s, m, now);
            Safe(o.s) && Steady(s, o.s) && o.s.info == s.info && WireHeld(s.info, o.wire)
            && (o.s.hs.active ==> s.hs.active) && !o.established && o.s.hs.serial == s.hs.serial
            && !SendsSigma1(o.wire)
  {
    hide Held, BackoffMs, Later;
  }

  lemma ReportKeeps(s: State, success: bool, now: ms)
    requires Vetted(s) && s.response.Free?
    ensures var o := ReportStep(s, success, now);
            Safe(o.s) && Steady(s, o.s) && o.s.info == s.info && o.wire == []
            && (o.established ==> s.hs.active && !o.s.hs.active)
            && (o.s.hs.active ==> s.hs.active) && o.s.hs.serial == s.hs.serial
  {
    hide Held;
    if !(s.hs.session && success) {
      DropAndFailIsSafe(s, now);
    }
  }

  lemma UnsecuredKeeps(s: State, m: Unsecured, now: ms)
    requires Safe(s) && s.response.Free?
    ensures var o := UnsecuredStep(s, m, now);
            Safe(o.s) && Steady(s, o.s) && o.s.info == s.info && WireHeld(s.info, o.wire)
            && (o.established ==> s.hs.active && !o.s.hs.active)
            && (o.s.hs.active ==> s.hs.active) && o.s.hs.serial == s.hs.serial && !SendsSigma1(o.wire)
  {
    hide Held, Sigma2Step, ReportStep;
    if s.peer.fabric.None? || StillHeld(s) {
      match m
      case Sigma2(_, _, _, _, _, _) => Sigma2Keeps(s, m, now);
      case StatusReport(success) => ReportKeeps(s, success, now);
      case OtherUnsecured =>
    } else {
      DropIsSafe(s.(peer := s.peer.(fabric := None)));
    }
  }

  lemma WindowKeeps(s: State, granted: bool, framed: bool, now: ms, now2: ms, mark: nat)
    requires Safe(s) && s.response.Free? && NoEdgeLost(s, mark)
    ensures var o := WindowStep(s, granted, framed, now, now2);
            var r := o.s;
            Safe(r) && NoEdgeLost(r, mark) && r.info == s.info && (r.hs.active ==> s.hs.active)
            && r.bolt == s.bolt.(inflight := r.bolt.inflight) && r.response == s.response && r.walk == s.walk
            && !o.established && WireHeld(s.info, o.wire) && !SendsSigma1(o.wire)
  {
    hide Held, BackoffMs, Later;
  }

  // ----- runs

  datatype Mark = Accepted(unlock: bool) | RearmMark

  /**
   A client and what happened to it: the losses at the last want, the commands accepted
   and the rearms in order, how many Sigma1s have left, and for each session established
   the number of the Sigma1 it came of. `since`: a rearm has come since the response being
   applied read the flag. `torn`: the synced flag was last written by such a response.
   */
  datatype Sys = Sys(s: State, mark: nat, log: seq<Mark>, sigma1s: nat, sessions: seq<nat>, since: bool, torn: bool)

  predicate SendsSigma1(wire: seq<Wire>) {
    exists w <- wire :: w.First? && w.message.opcode.Sigma1Message?
  }

  /** An accepted response is taken up. */
  predicate Accepts(s: State, e: Event) {
    e.ArrivesResponse? && e.ok && Step(s, e).s.response.Loaded? && s.response.Free?
  }

  /** The response taken up writes the synced flag. */
  predicate Stores(s: State, e: Event) {
    e.Resumes? && s.response.Loaded? && !s.faulted
  }

  /** The second write of a rearm. */
  predicate Rearms(s: State, e: Event) {
    e.WalkGoesOn? && s.walk.Rearming? && !s.faulted
  }

  function Next(sys: Sys, e: Event): Sys {
    var s, o := sys.s, Step(sys.s, e);
    var sigma1s := sys.sigma1s + if SendsSigma1(o.wire) then 1 else 0;
    Sys(o.s,
        if e.Wanted? && s.walk.AtRest? && !s.faulted then s.sm.losses else sys.mark,
        if Rearms(s, e) then sys.log + [RearmMark]
        else if Accepts(s, e) then sys.log + [Accepted(s.bolt.inflight)]
        else sys.log,
        sigma1s,
        if o.established then sys.sessions + [sigma1s] else sys.sessions,
        if Rearms(s, e) then true else if Accepts(s, e) then false else sys.since,
        if Rearms(s, e) then false
        else if Stores(s, e) then sys.since && !s.response.rearm && s.bolt.inflight
        else sys.torn)
  }

  function Last(log: seq<Mark>): Mark {
    if log == [] then Accepted(false) else log[|log| - 1]
  }

  /**
   What the synced flag says of the log: the last thing accepted, and no rearm since, unless
   the write was torn. While a response is between its read and its write the flag is the
   one before it.
   */
  predicate Told(sys: Sys) {
    var b := sys.s.bolt;
    && (b.rearm && b.synced ==> sys.torn || sys.s.walk.Rearming?)
    && (sys.s.walk.Rearming? ==> b.rearm)
    && (sys.torn ==> b.synced)
    && match sys.s.response
       case Loaded(rearm) =>
         if sys.since then !b.synced && !sys.torn && Last(sys.log) == RearmMark
         else Last(sys.log) == Accepted(b.inflight) && (b.rearm ==> rearm || sys.s.walk.Rearming?)
       case _ => b.synced ==> Last(sys.log) == if sys.torn then RearmMark else Accepted(true)
  }

  /** Sessions come of distinct Sigma1s, and an open handshake's Sigma1 has none yet. */
  predicate Numbered(active: bool, sigma1s: nat, sessions: seq<nat>) {
    && (forall i :: 0 <= i < |sessions| ==> 1 <= sessions[i] <= sigma1s)
    && (forall i, j :: 0 <= i < j < |sessions| ==> sessions[i] < sessions[j])
    && (active ==> sigma1s > 0 && (sessions != [] ==> sessions[|sessions| - 1] < sigma1s))
  }

  predicate Inv(sys: Sys) {
    && Safe(sys.s) && NoEdgeLost(sys.s, sys.mark) && Told(sys)
    && Numbered(sys.s.hs.active, sys.sigma1s, sys.sessions)
  }

  function Start(info: Info): (r: Sys)
    ensures Inv(r)
  {
    Sys(Initial(info), 0, [], 0, [], false, false)
  }

  /** A poll opens a handshake only by sending a Sigma1. */
  lemma PollOpens(s: State, now: ms, c: PollChoices)
    ensures var o := PollStep(s, now, c);
            o.s.hs.active ==> s.hs.active || SendsSigma1(o.wire)
  {
    hide Held, SlotOf, FirstUsable, Poll, Reached, Later, BackoffMs, SendsSigma1;
    var t := ForgetLostFabric(TakeLookup(s, now));
    assert t.hs.active ==> s.hs.active;
    var d := if t.invoke.NoInvoke? then t else DropAndFail(t, now);
    PollOnOpens(d, now, c);
  }

  lemma PollOnOpens(s: State, now: ms, c: PollChoices)
    ensures var o := PollOn(s, now, c);
            o.s.hs.active ==> s.hs.active || SendsSigma1(o.wire)
  {
    hide Held, SlotOf, FirstUsable, Poll, Reached, Later, BackoffMs, SendsSigma1, Act, DropAndFail;
    var (sm, action) := Poll(s.sm, now);
    var t := s.(sm := sm);
    var (acted, wire1) := Act(t, action, now, c);
    ActOpens(t, action, now, c);
    var (resent, wire2) := Resend(acted, now, c.mrp);
    assert resent.hs.active ==> acted.hs.active by { DropCloses(acted, now); }
    MoreWire(wire1, wire2);
  }

  lemma DropCloses(s: State, now: ms)
    ensures !DropAndFail(s, now).hs.active
  {
  }

  lemma MoreWire(a: seq<Wire>, b: seq<Wire>)
    ensures SendsSigma1(a) ==> SendsSigma1(a + b)
  {
    if w :| w in a && w.First? && w.message.opcode.Sigma1Message? {
      assert w in a + b;
    }
  }

  lemma ActOpens(s: State, action: Action, now: ms, c: PollChoices)
    ensures var (r, wire) := Act(s, action, now, c);
            r.hs.active ==> s.hs.active || SendsSigma1(wire)
  {
    hide Held, SlotOf, FirstUsable, BackoffMs, Later, Usable;
    DropCloses(s, now);
    var (chosen, ok) := if StillHeld(s) then (s, true) else Choose(s);
    assert chosen.hs == s.hs;
    if s.peer.fabric.Some? || chosen.peer.fabric.Some? {
      var m := Message(Sigma1Message, if chosen.peer.fabric.Some? then chosen.peer.fabric.value else 0, chosen.peer.id);
      assert First(m) in [First(m)];
    }
  }

  /** Steps that touch neither the bolt nor the response keep what is told. */
  lemma ToldStays(sys: Sys, e: Event)
    requires Told(sys) && Step(sys.s, e).s.bolt == sys.s.bolt && Step(sys.s, e).s.response == sys.s.response
    requires Step(sys.s, e).s.walk == sys.s.walk && !e.WalkGoesOn? && !e.Resumes? && !e.ArrivesResponse?
    ensures Told(Next(sys, e))
  {
    hide Step, SendsSigma1;
  }

  /** The walk-up path's own writes, in three parts. */
  lemma WalkTells(sys: Sys, e: Event)
    requires Told(sys) && (e.Wanted? || e.Rearmed? || e.WalkGoesOn?)
    ensures Told(Next(sys, e))
  {
    hide SendsSigma1;
  }

  lemma WalkSafe(s: State, e: Event)
    requires Safe(s) && (e.Wanted? || e.Rearmed? || e.WalkGoesOn?)
    ensures var o := Step(s, e); Safe(o.s) && o.wire == [] && !o.established && o.s.hs == s.hs
  {
    hide Held;
  }

  lemma WalkEdge(sys: Sys, e: Event)
    requires NoEdgeLost(sys.s, sys.mark) && Told(sys) && (e.Wanted? || e.Rearmed? || e.WalkGoesOn?)
    ensures NoEdgeLost(Next(sys, e).s, Next(sys, e).mark)
  {
    hide SendsSigma1;
  }

  lemma WantKeeps(sys: Sys, e: Event)
    requires Inv(sys) && (e.Wanted? || e.Rearmed? || e.WalkGoesOn?)
    ensures Inv(Next(sys, e)) && Step(sys.s, e).wire == []
  {
    hide Held, Told, Safe, NoEdgeLost, Step;
    WalkTells(sys, e);
    WalkSafe(sys.s, e);
    WalkEdge(sys, e);
  }

  lemma TableKeeps(sys: Sys, e: Event)
    requires Inv(sys) && (e.Tables? || e.LookedUp? || e.Routes? || e.FindsLockTaken?)
    ensures Inv(Next(sys, e)) && Step(sys.s, e).wire == []
  {
    hide Held, Told, OwnsExchange;
    ToldStays(sys, e);
  }

  lemma PolledKeeps(sys: Sys, e: Event)
    requires Inv(sys) && e.Polled?
    ensures Inv(Next(sys, e)) && WireHeld(sys.s.info, Step(sys.s, e).wire)
  {
    hide Held, PollStep, Safe, SendsSigma1, Told;
    if sys.s.response.Free? && !sys.s.faulted {
      PollKeeps(sys.s, e.now, e.choices);
      PollOpens(sys.s, e.now, e.choices);
      SteadyKeeps(sys.s, PollStep(sys.s, e.now, e.choices).s, sys.mark);
    }
    ToldStays(sys, e);
  }

  lemma HandlingKeeps(sys: Sys, e: Event)
    requires Inv(sys) && e.Handles?
    ensures Inv(Next(sys, e)) && WireHeld(sys.s.info, Step(sys.s, e).wire)
  {
    hide Held, UnsecuredStep, Safe, SendsSigma1, Told;
    if sys.s.routed.Some? && sys.s.response.Free? && !sys.s.faulted {
      var s := sys.s.(routed := None);
      TakenOff(sys.s);
      UnsecuredKeeps(s, sys.s.routed.value, e.now);
      SteadyKeeps(s, UnsecuredStep(s, sys.s.routed.value, e.now).s, sys.mark);
    }
    ToldStays(sys, e);
  }

  lemma TakenOff(s: State)
    requires Safe(s)
    ensures Safe(s.(routed := None))
  {
    hide Held;
  }

  lemma WindowArrivalKeeps(sys: Sys, e: Event)
    requires Inv(sys) && e.ArrivesWindow?
    ensures Inv(Next(sys, e)) && WireHeld(sys.s.info, Step(sys.s, e).wire)
  {
    hide Held, WindowStep, Safe, SendsSigma1;
    if Receiving(sys.s) && sys.s.hs.session && !sys.s.faulted {
      WindowKeeps(sys.s, e.granted, e.framed, e.now, e.now2, sys.mark);
    }
  }

  lemma ResponseKeeps(sys: Sys, e: Event)
    requires Inv(sys) && (e.ArrivesResponse? || e.Resumes?)
    ensures Inv(Next(sys, e)) && Step(sys.s, e).wire == []
  {
    hide Held, Told, Safe, NoEdgeLost, Step;
    ResponseTells(sys, e);
    ResponseSafe(sys.s, e);
    ResponseEdge(sys.s, e, sys.mark);
  }

  lemma ResponseSafe(s: State, e: Event)
    requires Safe(s) && (e.ArrivesResponse? || e.Resumes?)
    ensures var o := Step(s, e); Safe(o.s) && o.wire == [] && !o.established && o.s.hs == s.hs
  {
    hide Held;
  }

  lemma ResponseEdge(s: State, e: Event, mark: nat)
    requires NoEdgeLost(s, mark) && (e.ArrivesResponse? || e.Resumes?)
    ensures NoEdgeLost(Step(s, e).s, mark)
  {
    hide Held;
  }

  lemma ResponseTells(sys: Sys, e: Event)
    requires Told(sys) && (e.ArrivesResponse? || e.Resumes?)
    ensures Told(Next(sys, e))
  {
    hide SendsSigma1;
  }

  lemma NextKeeps(sys: Sys, e: Event)
    requires Inv(sys)
    ensures Inv(Next(sys, e)) && WireHeld(sys.s.info, Step(sys.s, e).wire)
  {
    hide Held, Inv, Next, Step;
    match e
    case Polled(_, _) => PolledKeeps(sys, e);
    case Handles(_) => HandlingKeeps(sys, e);
    case ArrivesWindow(_, _, _, _) => WindowArrivalKeeps(sys, e);
    case ArrivesResponse(_) => ResponseKeeps(sys, e);
    case Resumes(_) => ResponseKeeps(sys, e);
    case Wanted(_) => WantKeeps(sys, e);
    case Rearmed => WantKeeps(sys, e);
    case WalkGoesOn(_) => WantKeeps(sys, e);
    case _ => TableKeeps(sys, e);
  }

  function Run(info: Info, events: seq<Event>): Sys {
    if events == [] then Start(info)
    else Next(Run(info, events[..|events| - 1]), events[|events| - 1])
  }

  lemma {:induction false} RunInv(info: Info, events: seq<Event>)
    ensures Inv(Run(info, events))
  {
    hide Inv, Next;
    if events != [] {
      RunInv(info, events[..|events| - 1]);
      NextKeeps(Run(info, events[..|events| - 1]), events[|events| - 1]);
    }
  }

  // ----- the theorems

  /**
   Unless an accepted response is being worked through, or a new wish has been written and
   not yet compared, a bolt that differs from what the peer agreed to, with no rearm
   pending, has its want recorded, or an attempt has failed, been refused or expired since
   the last want. An invoke in flight always has its want.
   */
  lemma NoLostEdge(info: Info, events: seq<Event>)
    ensures var r := Run(info, events);
            && (!Settling(r.s.response) && !r.s.walk.Comparing? && r.s.bolt.desired != r.s.bolt.synced && !r.s.bolt.rearm ==>
                  r.s.sm.want || r.mark < r.s.sm.losses)
            && (!r.s.invoke.NoInvoke? ==> r.s.sm.want && r.s.hs.session)
  {
    RunInv(info, events);
  }

  /**
   Except while a response is between reading the rearm flag and writing the synced one:
   the peer is held to be unlocked only if the last thing it accepted was UnlockDoor, with
   no rearm since, if and only if the last write was not torn, that is, no rearm ended
   between the read and the write of an accepted UnlockDoor. With a torn write a rearm is
   forgotten, and stays beside the synced flag until the next want clears it. A rearm is
   over with its second write.
   */
  lemma SyncedMeansUnlockedIff(info: Info, events: seq<Event>)
    requires !Run(info, events).s.response.Loaded?
    ensures var r := Run(info, events);
            && ((r.s.bolt.synced ==> Last(r.log) == Accepted(true)) <==> !r.torn)
            && (!r.s.walk.Rearming? ==>
                  ((r.s.bolt.rearm ==> !r.s.bolt.synced) <==> !(r.torn && r.s.bolt.rearm)))
  {
    hide Run;
    RunInv(info, events);
  }

  /** What makes a write torn: the events between the read and the write. */
  predicate Between(e: Event) {
    e.Wanted? || e.Rearmed? || e.WalkGoesOn? || e.Tables? || e.LookedUp? || e.Polled?
  }

  function Then(sys: Sys, events: seq<Event>): Sys {
    if events == [] then sys else Next(Then(sys, events[..|events| - 1]), events[|events| - 1])
  }

  /** A rearm came to its second write. */
  predicate RearmEnds(sys: Sys, events: seq<Event>) {
    events != [] &&
    var before, e := events[..|events| - 1], events[|events| - 1];
    Rearms(Then(sys, before).s, e) || RearmEnds(sys, before)
  }

  lemma {:induction false} WhileLoaded(sys: Sys, events: seq<Event>)
    requires Inv(sys) && sys.s.response.Loaded? && !sys.since && !sys.s.faulted
    requires forall e <- events :: Between(e)
    ensures var r := Then(sys, events);
            && Inv(r) && r.s.response == sys.s.response && !r.s.faulted && r.s.bolt.inflight == sys.s.bolt.inflight
            && (r.since <==> RearmEnds(sys, events))
  {
    hide Held, Inv, Next, Rearms;
    if events != [] {
      var before, e := events[..|events| - 1], events[|events| - 1];
      assert forall x <- before :: x in events;
      WhileLoaded(sys, before);
      NextKeeps(Then(sys, before), e);
      WhileLoadedStep(Then(sys, before), e);
    }
  }

  lemma WhileLoadedStep(sys: Sys, e: Event)
    requires sys.s.response.Loaded? && !sys.s.faulted && Between(e)
    ensures var r := Next(sys, e);
            && r.s.response == sys.s.response && !r.s.faulted && r.s.bolt.inflight == sys.s.bolt.inflight
            && (r.since <==> sys.since || Rearms(sys.s, e))
  {
    hide Held, SendsSigma1, PollStep;
  }

  /**
   One response: taken up in any reachable state, with any events of the other threads
   before its write, it leaves the flag truthful if and only if it read a rearm, or answers
   a LockDoor, or no rearm came to its end in between.
   */
  lemma ResponseTruthfulIff(info: Info, events: seq<Event>, between: seq<Event>, now: ms)
    requires var r := Run(info, events);
             Receiving(r.s) && r.s.hs.session && !r.s.faulted
    requires forall e <- between :: Between(e)
    ensures var r := Run(info, events);
            var q := Next(Then(Next(r, ArrivesResponse(true)), between), Resumes(now));
            (q.s.bolt.synced ==> Last(q.log) == Accepted(true))
            <==> r.s.bolt.rearm || !r.s.bolt.inflight || !RearmEnds(Next(r, ArrivesResponse(true)), between)
  {
    hide Run, Held, Safe, RearmEnds;
    RunInv(info, events);
    var r := Run(info, events);
    var loaded := Next(r, ArrivesResponse(true));
    NextKeeps(r, ArrivesResponse(true));
    Taken(r);
    WhileLoaded(loaded, between);
    var m := Then(loaded, between);
    StoreTells(m, now);
  }

  lemma Taken(r: Sys)
    requires Receiving(r.s) && r.s.hs.session && !r.s.faulted
    ensures var l := Next(r, ArrivesResponse(true));
            l.s.response == Loaded(r.s.bolt.rearm) && !l.since && !l.s.faulted && l.s.bolt == r.s.bolt
  {
  }

  lemma StoreTells(m: Sys, now: ms)
    requires Inv(m) && m.s.response.Loaded? && !m.s.faulted
    ensures var q := Next(m, Resumes(now));
            (q.s.bolt.synced ==> Last(q.log) == Accepted(true))
            <==> m.s.response.rearm || !m.s.bolt.inflight || !m.since
  {
    hide Held, Safe, SendsSigma1;
  }

  lemma SessionHasFabric(info: Info, events: seq<Event>)
    ensures var s := Run(info, events).s;
            && (s.hs.session || s.hs.active || s.hs.linger != 0 ==> s.peer.fabric.Some?)
            && (s.hs.linger != 0 ==> s.hs.session)
            && (s.sm.phase.Ready? <==> s.hs.session && !s.hs.active)
            && (s.hs.key != 0 ==> s.hs.active && s.sm.phase.Sigma1? && !s.hs.session)
  {
    RunInv(info, events);
  }

  /**
   Whatever the tables have become, every Sigma1, Sigma3, resend and TimedRequest was built
   from a slot that is held, under the fabric id recorded for it, when it goes out.
   */
  lemma HeldOnTheWire(info: Info, events: seq<Event>, e: Event)
    ensures var s := Run(info, events).s; WireHeld(s.info, Step(s, e).wire)
  {
    RunInv(info, events);
    NextKeeps(Run(info, events), e);
  }

  /** No two sessions come of one Sigma1, however often reports repeat. */
  lemma OneSessionPerSigma1(info: Info, events: seq<Event>, i: nat, j: nat)
    requires i < j < |Run(info, events).sessions|
    ensures var r := Run(info, events); 1 <= r.sessions[i] < r.sessions[j] <= r.sigma1s
  {
    RunInv(info, events);
  }

  /** A TimedRequest goes out only for a want less than its time to live old. */
  lemma InvokesAreFresh(s: State, now: ms, c: PollChoices, w: Wire)
    requires Safe(s) && s.response.Free?
    requires w in PollStep(s, now, c).wire && w.TimedRequest?
    ensures s.sm.want && !Reached(now, Later(s.sm.wantMs, WANT_TTL_MS))
  {
    hide Held, Reached, Later, BackoffMs, SlotOf, FirstUsable;
    var t := ForgetLostFabric(TakeLookup(s, now));
    var d := if t.invoke.NoInvoke? then t else DropAndFail(t, now);
    PollShape(d.sm, now);
    assert Poll(d.sm, now).1.Invoke?;
    assert d.sm.want == s.sm.want && d.sm.wantMs == s.sm.wantMs;
  }
}
