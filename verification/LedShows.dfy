/**
 What a person sees on the four lamps, told from the signal calls alone: which signals are
 asserted after any run, and which slots of the two-second cycle each lamp is lit in.
 */
module LedShows {
  import opened Bits
  import opened StatusLed

  /** A signal is asserted when the latest call that named it asserted it. */
  predicate Asserted(events: seq<Event>, bit: nat) {
    events != []
    && var e := events[|events| - 1];
       if e.Signals? && bit in e.bits then e.on else Asserted(events[..|events| - 1], bit)
  }

  /**
   Lamp 0 is solid while unlocked and otherwise blips if there is a heartbeat; lamp 1 is
   solid on a fault and else lit every other second until commissioned; lamp 2 blinks four
   times a second while ranging and else once in a session; lamp 3 blinks twice a second
   while an update may come and else is solid in provisioning.
   */
  predicate Shows(events: seq<Event>, heartbeat: bool, lamp: nat, slot: nat) {
    if lamp == 0 then Asserted(events, UNLOCKED) || (heartbeat && slot == 0)
    else if lamp == 1 then Asserted(events, FAULT) || (Asserted(events, UNCOMMISSIONED) && slot < 8)
    else if lamp == 2 then
      if Asserted(events, RANGING) then slot % 2 == 0 else Asserted(events, SESSION) && slot % 8 < 4
    else if Asserted(events, DFU_WINDOW) then slot % 4 < 2
    else Asserted(events, PROV_MODE)
  }

  lemma {:induction false} SignalsAsserted(heartbeat: bool, ready: seq<bool>, events: seq<Event>, bit: nat)
    requires |ready| == LAMPS
    ensures bit in Run(heartbeat, ready, events).signals <==> Asserted(events, bit)
  {
    hide Render, Lit;
    if events != [] {
      SignalsAsserted(heartbeat, ready, events[..|events| - 1], bit);
    }
  }

  // ----- the patterns, a hexadecimal digit at a time

  function Nibble(d: nat): seq<bool> {
    [d / 8 % 2 == 1, d / 4 % 2 == 1, d / 2 % 2 == 1, d % 2 == 1]
  }

  lemma Halving(a: nat, d: nat)
    requires d < 16
    ensures var v := 16 * a + d;
            && v / 2 / 2 / 2 / 2 == a && v % 2 == d % 2 && v / 2 % 2 == d / 2 % 2
            && v / 2 / 2 % 2 == d / 4 % 2 && v / 2 / 2 / 2 % 2 == d / 8 % 2
  {
    var v := 16 * a + d;
    assert v / 2 == 8 * a + d / 2;
    assert v / 2 / 2 == 4 * a + d / 4;
    assert v / 2 / 2 / 2 == 2 * a + d / 8;
  }

  lemma LastFour(v: nat, n: nat)
    ensures ToBits(v, n + 4)
         == ToBits(v / 2 / 2 / 2 / 2, n)
            + [v / 2 / 2 / 2 % 2 == 1, v / 2 / 2 % 2 == 1, v / 2 % 2 == 1, v % 2 == 1]
  {
    assert ToBits(v, n + 4) == ToBits(v / 2, n + 3) + [v % 2 == 1];
    assert ToBits(v / 2, n + 3) == ToBits(v / 2 / 2, n + 2) + [v / 2 % 2 == 1];
    assert ToBits(v / 2 / 2, n + 2) == ToBits(v / 2 / 2 / 2, n + 1) + [v / 2 / 2 % 2 == 1];
  }

  lemma LastDigit(a: nat, d: nat, n: nat)
    requires d < 16
    ensures ToBits(16 * a + d, n + 4) == ToBits(a, n) + Nibble(d)
  {
    hide ToBits;
    Halving(a, d);
    LastFour(16 * a + d, n);
  }

  lemma FourDigits(a: nat, b: nat, c: nat, d: nat)
    requires a < 16 && b < 16 && c < 16 && d < 16
    ensures ToBits(4096 * a + 256 * b + 16 * c + d, SLOTS) == Nibble(a) + Nibble(b) + Nibble(c) + Nibble(d)
  {
    hide Nibble, ToBits;
    LastDigit(256 * a + 16 * b + c, d, 12);
    LastDigit(16 * a + b, c, 8);
    LastDigit(a, b, 4);
    LastDigit(0, a, 0);
    assert ToBits(0, 0) == [] by { NoBits(); }
  }

  lemma NoBits()
    ensures ToBits(0, 0) == []
  {
  }

  lemma LitByDigit(pat: word, a: nat, b: nat, c: nat, d: nat, slot: nat)
    requires a < 16 && b < 16 && c < 16 && d < 16 && pat == 4096 * a + 256 * b + 16 * c + d && slot < SLOTS
    ensures Lit(pat, slot)
         == if slot < 4 then Nibble(a)[slot]
            else if slot < 8 then Nibble(b)[slot - 4]
            else if slot < 12 then Nibble(c)[slot - 8]
            else Nibble(d)[slot - 12]
  {
    hide Lit, ToBits;
    FourDigits(a, b, c, d);
    LitIsBit(pat, slot);
  }

  lemma Flat(slot: nat)
    requires slot < SLOTS
    ensures !Lit(OFF, slot) && Lit(SOLID, slot)
  {
    hide Lit;
    LitByDigit(OFF, 0, 0, 0, 0, slot);
    LitByDigit(SOLID, 15, 15, 15, 15, slot);
  }

  lemma Slow(slot: nat)
    requires slot < SLOTS
    ensures Lit(BLIP, slot) <==> slot == 0
    ensures Lit(HALF_HZ, slot) <==> slot < 8
    ensures Lit(ONE_HZ, slot) <==> slot % 8 < 4
  {
    hide Lit;
    LitByDigit(BLIP, 8, 0, 0, 0, slot);
    LitByDigit(HALF_HZ, 15, 15, 0, 0, slot);
    LitByDigit(ONE_HZ, 15, 0, 15, 0, slot);
  }

  lemma Fast(slot: nat)
    requires slot < SLOTS
    ensures Lit(TWO_HZ, slot) <==> slot % 4 < 2
    ensures Lit(FOUR_HZ, slot) <==> slot % 2 == 0
  {
    hide Lit;
    LitByDigit(TWO_HZ, 12, 12, 12, 12, slot);
    LitByDigit(FOUR_HZ, 10, 10, 10, 10, slot);
  }

  lemma RenderShows(heartbeat: bool, ready: seq<bool>, events: seq<Event>, lamp: nat, slot: nat)
    requires |ready| == LAMPS && lamp < LAMPS && slot < SLOTS
    ensures Lit(Render(Run(heartbeat, ready, events).signals, heartbeat)[lamp], slot)
         == Shows(events, heartbeat, lamp, slot)
  {
    hide Lit, Asserted;
    Flat(slot);
    Slow(slot);
    Fast(slot);
    SignalsAsserted(heartbeat, ready, events, UNLOCKED);
    SignalsAsserted(heartbeat, ready, events, FAULT);
    SignalsAsserted(heartbeat, ready, events, UNCOMMISSIONED);
    SignalsAsserted(heartbeat, ready, events, RANGING);
    SignalsAsserted(heartbeat, ready, events, SESSION);
    SignalsAsserted(heartbeat, ready, events, DFU_WINDOW);
    SignalsAsserted(heartbeat, ready, events, PROV_MODE);
  }

  // ----- what the lamps show

  /**
   After any interleaving of signal calls and ticks, once no tick is left to come every
   ready lamp shows what the calls ask for, in every slot.
   */
  lemma SettledShows(heartbeat: bool, ready: seq<bool>, events: seq<Event>, lamp: nat, slot: nat)
    requires |ready| == LAMPS && lamp < LAMPS && slot < SLOTS && ready[lamp]
    requires var d := Run(heartbeat, ready, events); !d.pending && d.early + d.late == 0 && d.pc.Idle?
    ensures Run(heartbeat, ready, events).pins[lamp] == Shows(events, heartbeat, lamp, slot)
  {
    hide Lit, Render, Shows, Shaped, Inv;
    RunReady(heartbeat, ready, events);
    PendingOrSettled(heartbeat, ready, events, lamp);
    RenderShows(heartbeat, ready, events, lamp, slot);
  }

  lemma {:induction false} RunReady(heartbeat: bool, ready: seq<bool>, events: seq<Event>)
    requires |ready| == LAMPS
    ensures Run(heartbeat, ready, events).ready == ready
  {
    hide Render, Lit;
    if events != [] {
      RunReady(heartbeat, ready, events[..|events| - 1]);
    }
  }

  /** A whole signal call. */
  function Call(bits: set<nat>, on: bool): seq<Event> {
    [Signals(bits, on), ResetsPhase, Reschedules]
  }

  lemma OneMore(heartbeat: bool, ready: seq<bool>, events: seq<Event>, e: Event)
    requires |ready| == LAMPS
    ensures Run(heartbeat, ready, events + [e]) == Step(Run(heartbeat, ready, events), e)
  {
    assert (events + [e])[..|events|] == events;
  }

  lemma CallRestarts(heartbeat: bool, ready: seq<bool>, events: seq<Event>, bits: set<nat>, on: bool, bit: nat)
    requires |ready| == LAMPS
    requires var d := Run(heartbeat, ready, events); d.early + d.late == 0 && d.pc.Idle?
    requires bit in bits && Asserted(events, bit) != on
    ensures var d := Run(heartbeat, ready, events + Call(bits, on));
            d.pending && d.phase == 0 && d.pc.Idle? && d.early + d.late == 0
  {
    hide Render, Lit, Run, Asserted;
    var one, two := events + [Signals(bits, on)], events + [Signals(bits, on)] + [ResetsPhase];
    OneMore(heartbeat, ready, events, Signals(bits, on));
    OneMore(heartbeat, ready, one, ResetsPhase);
    OneMore(heartbeat, ready, two, Reschedules);
    SignalsAsserted(heartbeat, ready, events, bit);
    assert events + Call(bits, on) == two + [Reschedules];
  }

  /**
   A call that changes a signal restarts the cycle: from then on, undisturbed, the tick of
   each slot drives every ready lamp to what all the calls so far ask for in that slot.
   */
  lemma ChangePlays(heartbeat: bool, ready: seq<bool>, events: seq<Event>, bits: set<nat>, on: bool, bit: nat,
                    lamp: nat, slot: nat)
    requires |ready| == LAMPS && lamp < LAMPS && slot < SLOTS && ready[lamp]
    requires var d := Run(heartbeat, ready, events); d.early + d.late == 0 && d.pc.Idle?
    requires bit in bits && Asserted(events, bit) != on
    ensures var all := events + Call(bits, on);
            var d := Run(heartbeat, ready, all);
            d.pending && d.pc.Idle?
            && Frames(d, slot + 1).pins[lamp] == Shows(all, heartbeat, lamp, slot)
  {
    hide Render, Lit, Run, Asserted, Shows, AnyMoving, Frames, Call;
    var all := events + Call(bits, on);
    CallRestarts(heartbeat, ready, events, bits, on, bit);
    RunReady(heartbeat, ready, all);
    RunHeartbeat(heartbeat, ready, all);
    var d := Run(heartbeat, ready, all);
    PlaysPattern(d, slot);
    LitIsBit(Render(d.signals, heartbeat)[lamp], slot);
    RenderShows(heartbeat, ready, all, lamp, slot);
  }

  /** From start-up the lamps play what no call at all asks for. */
  lemma StartPlays(heartbeat: bool, ready: seq<bool>, lamp: nat, slot: nat)
    requires |ready| == LAMPS && lamp < LAMPS && slot < SLOTS && ready[lamp]
    ensures var d := Run(heartbeat, ready, []);
            && d.pending && d.pc.Idle? && d.early + d.late == 0
            && Frames(d, slot + 1).pins[lamp] == Shows([], heartbeat, lamp, slot)
  {
    hide Render, Lit, Shows, AnyMoving, Frames;
    var d := Run(heartbeat, ready, []);
    PlaysPattern(d, slot);
    LitIsBit(Render(d.signals, heartbeat)[lamp], slot);
    RenderShows(heartbeat, ready, [], lamp, slot);
  }

  /** Some lamp is asked to be lit in one slot and dark in another. */
  predicate Blinks(events: seq<Event>, heartbeat: bool) {
    exists lamp: nat, slot: nat, other: nat :: lamp < LAMPS && slot < SLOTS && other < SLOTS
      && Shows(events, heartbeat, lamp, slot) != Shows(events, heartbeat, lamp, other)
  }

  lemma BlinksMoves(heartbeat: bool, ready: seq<bool>, events: seq<Event>, lamp: nat, slot: nat, other: nat)
    requires |ready| == LAMPS && lamp < LAMPS && slot < SLOTS && other < SLOTS
    requires Shows(events, heartbeat, lamp, slot) != Shows(events, heartbeat, lamp, other)
    ensures AnyMoving(Render(Run(heartbeat, ready, events).signals, heartbeat))
  {
    hide Render, Lit, Shows, Run;
    var pat := Render(Run(heartbeat, ready, events).signals, heartbeat)[lamp];
    RenderShows(heartbeat, ready, events, lamp, slot);
    RenderShows(heartbeat, ready, events, lamp, other);
    if !Moving(pat) {
      StaticLevel(pat, slot);
      StaticLevel(pat, other);
    }
  }

  lemma MovesBlinks(heartbeat: bool, ready: seq<bool>, events: seq<Event>)
    requires |ready| == LAMPS && AnyMoving(Render(Run(heartbeat, ready, events).signals, heartbeat))
    ensures Blinks(events, heartbeat)
  {
    hide Render, Lit, Shows, Run, Steady;
    var pats := Render(Run(heartbeat, ready, events).signals, heartbeat);
    var lamp: nat :| lamp < LAMPS && Moving(pats[lamp]);
    StaticIff(pats[lamp], true);
    StaticIff(pats[lamp], false);
    var dark := SlotWith(pats[lamp], true);
    var lit := SlotWith(pats[lamp], false);
    RenderShows(heartbeat, ready, events, lamp, dark);
    RenderShows(heartbeat, ready, events, lamp, lit);
    assert Shows(events, heartbeat, lamp, dark) != Shows(events, heartbeat, lamp, lit);
  }

  /** A slot in which a pattern does not have the level. */
  lemma SlotWith(pat: word, level: bool) returns (slot: nat)
    requires !Steady(pat, level)
    ensures slot < SLOTS && Lit(pat, slot) != level
  {
    hide Lit;
    slot :| slot < SLOTS && Lit(pat, slot) != level;
  }

  /** An undisturbed tick schedules the next exactly when what the calls ask for blinks. */
  lemma TickGoesOnIff(heartbeat: bool, ready: seq<bool>, events: seq<Event>)
    requires |ready| == LAMPS && Run(heartbeat, ready, events).pc.Idle?
    ensures Frame(Run(heartbeat, ready, events)).pending <==> Blinks(events, heartbeat)
  {
    hide Render, Lit, Shows, Run, AnyMoving;
    RunHeartbeat(heartbeat, ready, events);
    if AnyMoving(Render(Run(heartbeat, ready, events).signals, heartbeat)) {
      MovesBlinks(heartbeat, ready, events);
    }
    if Blinks(events, heartbeat) {
      var lamp: nat, slot: nat, other: nat :| lamp < LAMPS && slot < SLOTS && other < SLOTS
        && Shows(events, heartbeat, lamp, slot) != Shows(events, heartbeat, lamp, other);
      BlinksMoves(heartbeat, ready, events, lamp, slot, other);
    }
  }

  lemma QuietStep(d: Display, e: Event)
    requires Shaped(d) && !d.pending && d.early + d.late == 0 && d.pc.Idle? && !e.Signals?
    ensures Step(d, e) == d
  {
    hide Render, Lit;
  }

  /** Once settled, nothing but a signal call wakes the display. */
  lemma {:induction false} SettledStays(heartbeat: bool, ready: seq<bool>, events: seq<Event>, more: seq<Event>)
    requires |ready| == LAMPS
    requires var d := Run(heartbeat, ready, events); !d.pending && d.early + d.late == 0 && d.pc.Idle?
    requires forall e <- more :: !e.Signals?
    ensures Run(heartbeat, ready, events + more) == Run(heartbeat, ready, events)
  {
    hide Render, Lit, Run, Step;
    if more == [] {
      assert events + more == events;
    } else {
      var before, last := more[..|more| - 1], more[|more| - 1];
      SettledStays(heartbeat, ready, events, before);
      assert events + more == events + before + [last];
      OneMore(heartbeat, ready, events + before, last);
      QuietStep(Run(heartbeat, ready, events), last);
    }
  }

  lemma UnreadyStep(d: Display, e: Event, lamp: nat)
    requires Shaped(d) && lamp < LAMPS && !d.ready[lamp]
    ensures Step(d, e).pins[lamp] == d.pins[lamp]
  {
    hide Render, Lit;
  }

  /** A lamp that was never brought up stays dark. */
  lemma {:induction false} UnreadyStaysDark(heartbeat: bool, ready: seq<bool>, events: seq<Event>, lamp: nat)
    requires |ready| == LAMPS && lamp < LAMPS && !ready[lamp]
    ensures !Run(heartbeat, ready, events).pins[lamp]
  {
    hide Render, Lit, Step;
    if events != [] {
      var before := events[..|events| - 1];
      UnreadyStaysDark(heartbeat, ready, before, lamp);
      RunReady(heartbeat, ready, before);
      UnreadyStep(Run(heartbeat, ready, before), events[|events| - 1], lamp);
    }
  }
}
