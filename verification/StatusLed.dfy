/**
 The four board lamps as one state display: sixteen-slot patterns rendered by a tick that
 stops itself when nothing moves, and signals that may arrive in the middle of a tick.
 */
module StatusLed {
  import opened Bits

  const SLOTS := 16
  const LAMPS := 4

  const UNLOCKED := 0
  const SESSION := 1
  const RANGING := 2
  const DFU_WINDOW := 3
  const PROV_MODE := 4
  const UNCOMMISSIONED := 5
  const FAULT := 6

  const OFF: word := 0x0000
  const SOLID: word := 0xFFFF
  const BLIP: word := 0x8000
  const HALF_HZ: word := 0xFF00
  const ONE_HZ: word := 0xF0F0
  const TWO_HZ: word := 0xCCCC
  const FOUR_HZ: word := 0xAAAA

  /** One pattern per lamp: the lock, attention, the phone, a window. */
  function Render(signals: set<nat>, heartbeat: bool): (pats: seq<word>)
    ensures |pats| == LAMPS
  {
    [ if UNLOCKED in signals then SOLID else if heartbeat then BLIP else OFF,
      if FAULT in signals then SOLID else if UNCOMMISSIONED in signals then HALF_HZ else OFF,
      if RANGING in signals then FOUR_HZ else if SESSION in signals then ONE_HZ else OFF,
      if DFU_WINDOW in signals then TWO_HZ else if PROV_MODE in signals then SOLID else OFF ]
  }

  /** `v` shifted right. */
  function Shifted(v: nat, n: nat): nat {
    if n == 0 then v else Shifted(v / 2, n - 1)
  }

  /** A pattern's level in a slot: the bit that many places from the top. */
  predicate Lit(pat: word, slot: nat)
    requires slot < SLOTS
  {
    Shifted(pat, SLOTS - 1 - slot) % 2 == 1
  }

  predicate Moving(pat: word) {
    pat != OFF && pat != SOLID
  }

  lemma {:induction false} BitAt(v: nat, n: nat, k: nat)
    requires k < n
    ensures ToBits(v, n)[k] == (Shifted(v, n - 1 - k) % 2 == 1)
  {
    if k < n - 1 {
      BitAt(v / 2, n - 1, k);
    }
  }

  /** The slots play the pattern most significant bit first. */
  lemma LitIsBit(pat: word, slot: nat)
    requires slot < SLOTS
    ensures Lit(pat, slot) == ToBits(pat, SLOTS)[slot]
  {
    BitAt(pat, SLOTS, slot);
  }

  predicate Steady(pat: word, level: bool) {
    forall slot: nat :: slot < SLOTS ==> Lit(pat, slot) == level
  }

  lemma {:induction false} AllSame(n: nat, level: bool)
    ensures FromBits(seq(n, _ => level)) == if level then Pow2(n) - 1 else 0
  {
    var s := seq(n, _ => level);
    if n > 0 {
      assert s[..n - 1] == seq(n - 1, _ => level);
      AllSame(n - 1, level);
    }
  }

  lemma Sixteen()
    ensures Pow2(SLOTS) == 0x1_0000
  {
    assert Pow2(8) == 0x100;
    assert Pow2(12) == 0x1000;
  }

  /** A pattern is static exactly when it has one level in all sixteen slots. */
  lemma StaticIff(pat: word, level: bool)
    ensures Steady(pat, level) <==> pat == if level then SOLID else OFF
  {
    var flat := seq(SLOTS, _ => level);
    Sixteen();
    AllSame(SLOTS, level);
    FromToBits(pat, SLOTS);
    ToFromBits(flat);
    forall slot: nat | slot < SLOTS
      ensures Lit(pat, slot) == ToBits(pat, SLOTS)[slot]
    {
      LitIsBit(pat, slot);
    }
    if Steady(pat, level) {
      assert ToBits(pat, SLOTS) == flat;
    }
  }

  // ----- the display, one memory access at a time

  /** Where the tick is; `read` is the phase it is about to advance. */
  datatype Pc =
    | Idle
    | Dequeued
    | Writing(pats: seq<word>, i: nat, moving: bool)
    | Bumping(pats: seq<word>, moving: bool, read: nat)
    | Ending(pats: seq<word>, moving: bool)

  /**
   `early` and `late` count the signal calls that have changed the signals but not yet
   reset the phase, and those that have but not yet rescheduled the tick.
   */
  datatype Display = Display(heartbeat: bool, ready: seq<bool>, pins: seq<bool>, phase: nat, signals: set<nat>,
                             pending: bool, pc: Pc, early: nat, late: nat)

  predicate Shaped(d: Display) {
    && |d.ready| == LAMPS && |d.pins| == LAMPS && d.phase < SLOTS
    && match d.pc
       case Writing(pats, i, _) => |pats| == LAMPS && i <= LAMPS
       case Bumping(pats, _, read) => |pats| == LAMPS && read < SLOTS
       case Ending(pats, _) => |pats| == LAMPS
       case _ => true
  }

  datatype Event =
    | Signals(bits: set<nat>, on: bool)
    | ResetsPhase
    | Reschedules
    | Dequeues
    | TickGoesOn

  function TickStep(d: Display): Display
    requires Shaped(d)
  {
    match d.pc
    case Idle => d
    case Dequeued => d.(pc := Writing(Render(d.signals, d.heartbeat), 0, false))
    case Writing(pats, i, moving) =>
      if i == LAMPS then d.(pc := Bumping(pats, moving, d.phase))
      else d.(pins := if d.ready[i] then d.pins[i := Lit(pats[i], d.phase)] else d.pins,
              pc := Writing(pats, i + 1, moving || Moving(pats[i])))
    case Bumping(pats, moving, read) => d.(phase := (read + 1) % SLOTS, pc := Ending(pats, moving))
    case Ending(_, moving) => d.(pending := d.pending || moving, pc := Idle)
  }

  function SignalStep(d: Display, bits: set<nat>, on: bool): Display {
    var after := if on then d.signals + bits else d.signals - bits;
    if after == d.signals then d else d.(signals := after, early := d.early + 1)
  }

  function Step(d: Display, e: Event): Display
    requires Shaped(d)
  {
    match e
    case Signals(bits, on) => SignalStep(d, bits, on)
    case ResetsPhase => if d.early == 0 then d else d.(phase := 0, early := d.early - 1, late := d.late + 1)
    case Reschedules => if d.late == 0 then d else d.(pending := true, late := d.late - 1)
    case Dequeues => if d.pending && d.pc.Idle? then d.(pending := false, pc := Dequeued) else d
    case TickGoesOn => TickStep(d)
  }

  // ----- in every reachable state

  /** The lamps before `i` whose pattern is static show it, and `moving` says if any other is among them. */
  predicate DoneTo(d: Display, pats: seq<word>, i: nat, moving: bool)
    requires Shaped(d) && |pats| == LAMPS && i <= LAMPS
  {
    && pats == Render(d.signals, d.heartbeat)
    && (moving <==> exists k :: 0 <= k < i && Moving(pats[k]))
    && (forall k :: 0 <= k < i && d.ready[k] && !Moving(pats[k]) ==> d.pins[k] == (pats[k] == SOLID))
  }

  /** Either a tick is to come, or what the tick has done so far is right for the signals as they are. */
  predicate Current(d: Display)
    requires Shaped(d)
  {
    d.pending || d.early + d.late > 0 ||
    match d.pc
    case Idle => DoneTo(d, Render(d.signals, d.heartbeat), LAMPS, false)
    case Dequeued => true
    case Writing(pats, i, moving) => DoneTo(d, pats, i, moving)
    case Bumping(pats, moving, _) => DoneTo(d, pats, LAMPS, moving)
    case Ending(pats, moving) => DoneTo(d, pats, LAMPS, moving)
  }

  predicate Inv(d: Display) {
    Shaped(d) && Current(d)
  }

  lemma StaticLevel(pat: word, slot: nat)
    requires slot < SLOTS && !Moving(pat)
    ensures Lit(pat, slot) == (pat == SOLID)
  {
    StaticIff(pat, pat == SOLID);
  }

  lemma TickKeeps(d: Display)
    requires Inv(d)
    ensures Inv(TickStep(d))
  {
    hide Lit, Render;
    if d.pc.Writing? && d.pc.i < LAMPS && !Moving(d.pc.pats[d.pc.i]) {
      StaticLevel(d.pc.pats[d.pc.i], d.phase);
    }
  }

  lemma StepKeeps(d: Display, e: Event)
    requires Inv(d)
    ensures Inv(Step(d, e))
  {
    hide Lit, Render, TickStep;
    if e.TickGoesOn? {
      TickKeeps(d);
    }
  }

  /** After start-up: the ready lamps dark, and the first tick scheduled. */
  function Start(heartbeat: bool, ready: seq<bool>): (d: Display)
    requires |ready| == LAMPS
    ensures Inv(d)
  {
    Display(heartbeat, ready, [false, false, false, false], 0, {}, true, Idle, 0, 0)
  }

  function Run(heartbeat: bool, ready: seq<bool>, events: seq<Event>): (d: Display)
    requires |ready| == LAMPS
    ensures Inv(d)
  {
    if events == [] then Start(heartbeat, ready)
    else
      var before := Run(heartbeat, ready, events[..|events| - 1]);
      StepKeeps(before, events[|events| - 1]);
      Step(before, events[|events| - 1])
  }

  /**
   In every reachable state, with signals arriving between any two accesses of a tick,
   either a tick or a signal call is pending or under way, or every ready lamp shows the
   level its pattern has in all sixteen slots.
   */
  lemma PendingOrSettled(heartbeat: bool, ready: seq<bool>, events: seq<Event>, lamp: nat)
    requires |ready| == LAMPS && lamp < LAMPS
    ensures var d := Run(heartbeat, ready, events);
            || d.pending || d.early + d.late > 0 || !d.pc.Idle?
            || !d.ready[lamp]
            || Steady(Render(d.signals, heartbeat)[lamp], d.pins[lamp])
  {
    hide Render;
    var d := Run(heartbeat, ready, events);
    assert Current(d);
    RunHeartbeat(heartbeat, ready, events);
    var pat := Render(d.signals, heartbeat)[lamp];
    if !d.pending && d.early + d.late == 0 && d.pc.Idle? && d.ready[lamp] {
      assert !Moving(pat) && d.pins[lamp] == (pat == SOLID);
      StaticIff(pat, d.pins[lamp]);
    }
  }

  lemma {:induction false} RunHeartbeat(heartbeat: bool, ready: seq<bool>, events: seq<Event>)
    requires |ready| == LAMPS
    ensures Run(heartbeat, ready, events).heartbeat == heartbeat
  {
    hide Render, Lit;
    if events != [] {
      RunHeartbeat(heartbeat, ready, events[..|events| - 1]);
    }
  }

  // ----- undisturbed ticks

  predicate AnyMoving(pats: seq<word>) {
    exists k :: 0 <= k < |pats| && Moving(pats[k])
  }

  /** The lamps up to `i` driven to their level for a slot. */
  function Driven(ready: seq<bool>, pins: seq<bool>, pats: seq<word>, slot: nat, i: nat): (r: seq<bool>)
    requires |ready| == |pins| == |pats| == LAMPS && slot < SLOTS && i <= LAMPS
    ensures |r| == LAMPS
  {
    seq(LAMPS, k requires 0 <= k < LAMPS => if k < i && ready[k] then Lit(pats[k], slot) else pins[k])
  }

  /** A whole tick with nothing in between. */
  function Frame(d: Display): (r: Display)
    requires Shaped(d)
    ensures Shaped(d.(pc := Idle)) && (d.pc.Idle? ==> Shaped(r) && r.pc.Idle?)
  {
    var pats := Render(d.signals, d.heartbeat);
    d.(pins := Driven(d.ready, d.pins, pats, d.phase, LAMPS), phase := (d.phase + 1) % SLOTS, pending := AnyMoving(pats))
  }

  function Steps(d: Display, n: nat): (r: Display)
    requires Shaped(d)
    ensures Shaped(r)
  {
    if n == 0 then d else TickStep(Steps(d, n - 1))
  }

  lemma {:induction false} LoopRuns(d: Display, i: nat)
    requires Shaped(d) && d.pc.Dequeued? && i <= LAMPS
    ensures var pats := Render(d.signals, d.heartbeat);
            var r := Steps(d, i + 1);
            && r == d.(pins := Driven(d.ready, d.pins, pats, d.phase, i), pc := r.pc)
            && r.pc.Writing? && r.pc.pats == pats && r.pc.i == i
            && (r.pc.moving <==> exists k :: 0 <= k < i && Moving(pats[k]))
  {
    hide Lit, Render;
    var pats := Render(d.signals, d.heartbeat);
    if i == 0 {
      assert Steps(d, 0) == d;
      assert Driven(d.ready, d.pins, pats, d.phase, 0) == d.pins;
    } else {
      LoopRuns(d, i - 1);
      var before := Driven(d.ready, d.pins, pats, d.phase, i - 1);
      assert Driven(d.ready, d.pins, pats, d.phase, i)
          == if d.ready[i - 1] then before[i - 1 := Lit(pats[i - 1], d.phase)] else before;
    }
  }

  /** The single accesses of an undisturbed tick add up to one frame. */
  lemma WholeTick(d: Display)
    requires Shaped(d) && d.pending && d.pc.Idle?
    ensures Steps(Step(d, Dequeues), LAMPS + 4) == Frame(d)
  {
    hide Lit, Render, Driven;
    var q := Step(d, Dequeues);
    LoopRuns(q, LAMPS);
    var r := Steps(q, LAMPS + 1);
    assert Steps(q, LAMPS + 2) == TickStep(r);
    assert Steps(q, LAMPS + 3) == TickStep(Steps(q, LAMPS + 2));
    assert Steps(q, LAMPS + 4) == TickStep(Steps(q, LAMPS + 3));
  }

  function Frames(d: Display, n: nat): (r: Display)
    requires Shaped(d) && d.pc.Idle?
    ensures Shaped(r) && r.pc.Idle?
  {
    if n == 0 then d else Frame(Frames(d, n - 1))
  }

  /**
   From phase 0, undisturbed ticks drive each ready lamp through its pattern most
   significant bit first, keep themselves scheduled while any pattern moves, and are back
   at phase 0 after sixteen.
   */
  lemma {:induction false} PlaysPattern(d: Display, n: nat)
    requires Shaped(d) && d.pc.Idle? && d.phase == 0 && n < SLOTS
    ensures var pats := Render(d.signals, d.heartbeat);
            var r := Frames(d, n + 1);
            && r.phase == (n + 1) % SLOTS
            && r.signals == d.signals && r.heartbeat == d.heartbeat && r.ready == d.ready
            && r.pending == AnyMoving(pats)
            && (forall k :: 0 <= k < LAMPS && d.ready[k] ==> r.pins[k] == ToBits(pats[k], SLOTS)[n])
  {
    hide Lit, Render, AnyMoving;
    var pats := Render(d.signals, d.heartbeat);
    if n > 0 {
      PlaysPattern(d, n - 1);
    } else {
      assert Frames(d, 0) == d;
    }
    forall k | 0 <= k < LAMPS
      ensures Lit(pats[k], n) == ToBits(pats[k], SLOTS)[n]
    {
      LitIsBit(pats[k], n);
    }
  }

  // ----- the display as it is written

  class Leds {
    const heartbeat: bool
    const ready: seq<bool>
    const pins: array<bool>
    var phase: nat
    var signals: set<nat>
    var pending: bool

    ghost predicate Valid()
      reads this
    {
      |ready| == LAMPS && pins.Length == LAMPS && phase < SLOTS
    }

    ghost function View(): Display
      reads this, pins
    {
      Display(heartbeat, ready, pins[..], phase, signals, pending, Idle, 0, 0)
    }

    constructor (heartbeat: bool, ready: seq<bool>)
      requires |ready| == LAMPS
      ensures Valid() && fresh(pins) && View() == Start(heartbeat, ready)
    {
      this.heartbeat, this.ready := heartbeat, ready;
      pins := new bool[LAMPS](_ => false);
      phase, signals, pending := 0, {}, true;
    }

    /** The scheduled work, taken off the queue and run. */
    method Tick()
      requires Valid()
      modifies this, pins
      ensures Valid() && View() == Frame(old(View()))
    {
      hide Lit, Render;
      pending := false;
      var pats := Render(signals, heartbeat);
      var moving := false;
      ghost var was := pins[..];
      for i := 0 to LAMPS
        invariant pins[..] == Driven(ready, was, pats, phase, i)
        invariant moving <==> exists k :: 0 <= k < i && Moving(pats[k])
        modifies pins
      {
        if ready[i] {
          pins[i] := Lit(pats[i], phase);
        }
        moving := moving || Moving(pats[i]);
      }
      phase := (phase + 1) % SLOTS;
      if moving {
        pending := true;
      }
    }

    method Signal(bits: set<nat>, on: bool)
      requires Valid()
      modifies this`signals, this`phase, this`pending
      ensures Valid()
      ensures View() == Step(Step(SignalStep(old(View()), bits, on), ResetsPhase), Reschedules)
    {
      var before := signals;
      signals := if on then signals + bits else signals - bits;
      if before == signals {
        return;
      }
      phase := 0;
      pending := true;
    }
  }
}
