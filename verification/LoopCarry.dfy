/**
 Two parts of the reader loop that bridge a credential session that flaps: the latch
 session carried through a gap, and the bolt held open before the departure fallback.
 */
module LoopCarry {

  // ----- the latch session

  const NOBODY := 0
  const CARRY_MS := 30000

  /** One pass: the clock, and the credential the reader can name, if any. */
  datatype Seen = Seen(now: int, cred: nat)

  datatype LatchCall = Closed | Opened(cred: nat)

  /** `session` is history: whose session the latch itself has open, after the calls made on it. */
  datatype Latch = Latch(cred: nat, gapMs: int, session: nat)

  const UNUSED := Latch(NOBODY, 0, NOBODY)

  /** What the witness link is told. */
  datatype Edge = Still | Up | Down

  datatype LatchPassed = LatchPassed(latch: Latch, calls: seq<LatchCall>, edge: Edge)

  function LatchPass(l: Latch, s: Seen): LatchPassed {
    if s.cred == l.cred then LatchPassed(l.(gapMs := 0), [], if l.gapMs != 0 then Up else Still)
    else if s.cred == NOBODY then
      if l.gapMs == 0 then LatchPassed(l.(gapMs := s.now), [], Down)
      else if s.now - l.gapMs > CARRY_MS then LatchPassed(Latch(NOBODY, 0, NOBODY), [Closed], Still)
      else LatchPassed(l, [], Still)
    else
      LatchPassed(Latch(s.cred, 0, s.cred), (if l.cred != NOBODY then [Closed] else []) + [Opened(s.cred)], Up)
  }

  function LatchAfter(h: seq<Seen>): Latch {
    if h == [] then UNUSED else LatchPass(LatchAfter(h[..|h| - 1]), h[|h| - 1]).latch
  }

  function CallsOfLast(h: seq<Seen>): seq<LatchCall>
    requires h != []
  {
    LatchPass(LatchAfter(h[..|h| - 1]), h[|h| - 1]).calls
  }

  function Apply(session: nat, calls: seq<LatchCall>): nat
    decreases |calls|
  {
    if calls == [] then session
    else Apply(match calls[0] case Closed => NOBODY case Opened(cred) => cred, calls[1..])
  }

  /** The calls close an open session before opening another, and never close one that is not open. */
  predicate WellFormed(session: nat, calls: seq<LatchCall>)
    decreases |calls|
  {
    calls == [] ||
    match calls[0]
    case Closed => session != NOBODY && WellFormed(NOBODY, calls[1..])
    case Opened(cred) => session == NOBODY && cred != NOBODY && WellFormed(cred, calls[1..])
  }

  lemma CallsBy(l: Latch, s: Seen)
    requires l.session == l.cred && (l.gapMs != 0 ==> l.cred != NOBODY)
    ensures var p := LatchPass(l, s);
            && WellFormed(l.session, p.calls) && Apply(l.session, p.calls) == p.latch.session
            && p.latch.session == p.latch.cred && (p.latch.gapMs != 0 ==> p.latch.cred != NOBODY)
  {
    if s.cred != l.cred && s.cred != NOBODY && l.cred != NOBODY {
      var p := LatchPass(l, s);
      assert p.calls == [Closed, Opened(s.cred)];
      assert p.calls[1..] == [Opened(s.cred)] && p.calls[1..][1..] == [];
      assert WellFormed(NOBODY, p.calls[1..]) && Apply(NOBODY, p.calls[1..]) == s.cred;
    }
  }

  /** Over every run the latch's open session belongs to exactly the credential the loop names. */
  lemma {:induction false} OneOwner(h: seq<Seen>)
    ensures var l := LatchAfter(h); l.session == l.cred && (l.gapMs != 0 ==> l.cred != NOBODY)
    ensures h != [] ==> var before := LatchAfter(h[..|h| - 1]).session;
                        WellFormed(before, CallsOfLast(h)) && Apply(before, CallsOfLast(h)) == LatchAfter(h).session
  {
    hide LatchPass;
    if h != [] {
      OneOwner(h[..|h| - 1]);
      CallsBy(LatchAfter(h[..|h| - 1]), h[|h| - 1]);
    }
  }

  /** Nobody was named after pass `j`, who was named there. */
  predicate LastNamed(h: seq<Seen>, j: nat) {
    j < |h| && h[j].cred != NOBODY && forall i :: j < i < |h| ==> h[i].cred == NOBODY
  }

  /** The pass the gap after `j` is measured from: its first with a clock that is not zero. */
  function GapFrom(h: seq<Seen>, j: nat): (g: nat)
    requires j < |h|
    ensures j < g <= |h|
    ensures forall i :: j < i < g ==> h[i].now == 0
    ensures g < |h| ==> h[g].now != 0
    decreases |h|
  {
    if j + 1 == |h| then |h|
    else
      var g := GapFrom(h[..|h| - 1], j);
      if g < |h| - 1 || h[|h| - 1].now != 0 then g else |h|
  }

  /** No pass of the gap came more than the carry after the one it is measured from. */
  predicate GapCarried(h: seq<Seen>, j: nat)
    requires j < |h|
  {
    var g := GapFrom(h, j);
    forall i :: g < i < |h| ==> h[i].now - h[g].now <= 30000
  }

  /** What the latch holds at every pass of a gap. */
  lemma {:induction false} AfterGap(h: seq<Seen>, j: nat)
    requires LastNamed(h, j)
    ensures var l, g := LatchAfter(h), GapFrom(h, j);
            if GapCarried(h, j) then l.cred == h[j].cred && l.gapMs == (if g < |h| then h[g].now else 0)
            else l.cred == NOBODY && l.gapMs == 0
  {
    var p := h[..|h| - 1];
    if j + 1 < |h| {
      AfterGap(p, j);
      GapGrows(h, j);
    }
  }

  lemma GapGrows(h: seq<Seen>, j: nat)
    requires j + 1 < |h|
    ensures var p := h[..|h| - 1];
            var g := GapFrom(p, j);
            && (g < |p| ==> GapFrom(h, j) == g)
            && (GapCarried(h, j) <==> GapCarried(p, j) && (g < |p| ==> h[|h| - 1].now - h[g].now <= 30000))
  {
    var p := h[..|h| - 1];
    assert forall i :: 0 <= i < |p| ==> p[i] == h[i];
    var g := GapFrom(p, j);
    if g < |p| && GapCarried(p, j) && h[|h| - 1].now - h[g].now <= 30000 {
      forall i | g < i < |h|
        ensures h[i].now - h[g].now <= 30000
      {
        if i < |p| {
          assert p[i] == h[i];
        }
      }
    }
    if g < |p| && GapCarried(h, j) {
      assert forall i :: g < i < |p| ==> p[i].now - p[g].now <= 30000;
    }
  }

  /**
   For every history: a credential named after a gap finds its session still open, with
   nothing closed or opened, if and only if it is the one the session belongs to and no pass
   came more than 30 s into the gap, measured from its first pass at a clock other than zero.
   */
  lemma SurvivesIff(h: seq<Seen>, j: nat, back: Seen)
    requires LastNamed(h, j) && back.cred != NOBODY
    ensures CallsOfLast(h + [back]) == [] <==> back.cred == h[j].cred && GapCarried(h, j)
    ensures LatchAfter(h + [back]).session == back.cred
  {
    AfterGap(h, j);
    OneOwner(h);
    assert (h + [back])[..|h|] == h;
  }

  // ----- the witness link's own session edges

  /** Whether the link was last told its session is up. */
  function LinkAfter(h: seq<Seen>): bool {
    if h == [] then false
    else
      var edge := LatchPass(LatchAfter(h[..|h| - 1]), h[|h| - 1]).edge;
      match edge case Up => true case Down => false case Still => LinkAfter(h[..|h| - 1])
  }

  /** The last pass names somebody whose return from a gap at clock zero went unnoticed. */
  predicate Unnoticed(h: seq<Seen>) {
    h != [] &&
    var p, s := h[..|h| - 1], h[|h| - 1];
    && s.cred != NOBODY && LatchAfter(p).cred == s.cred && LatchAfter(p).gapMs == 0
    && (if p[|p| - 1].cred == NOBODY then true else Unnoticed(p))
  }

  /** The link is told that a session is up exactly while a credential is named, but for a return nobody noticed. */
  lemma {:induction false} LinkFollowsCredential(h: seq<Seen>)
    ensures LinkAfter(h) <==> h != [] && h[|h| - 1].cred != NOBODY && !Unnoticed(h)
    ensures h != [] && h[|h| - 1].cred != NOBODY ==> LatchAfter(h).cred == h[|h| - 1].cred && LatchAfter(h).gapMs == 0
  {
    if h != [] {
      LinkFollowsCredential(h[..|h| - 1]);
    }
  }

  // ----- the flap hold and the departure fallback

  const FLAP_HOLD_MS := 10000
  const FEED_FRESH_MS := 3000

  /** What the approach controller and the reader know when a session is found gone. */
  datatype Evidence = Evidence(lastFeedMs: int, lastCm: int, relockCm: int, closedEstablished: bool)

  predicate Earns(e: Evidence, now: int) {
    e.lastFeedMs != 0 && !e.closedEstablished && e.lastCm < e.relockCm && now - e.lastFeedMs <= FEED_FRESH_MS
  }

  /** What the loop has decided when it comes to the fallback: `present` and `granted` may have been set. */
  datatype Turn = Turn(now: int, fed: bool, decision: Decision, active: bool, evidence: Evidence)

  datatype Decision = Keep | Grant | Relock

  datatype Hold = Hold(present: bool, granted: bool, holdMs: int)

  function Decided(s: Hold, t: Turn): Hold {
    s.(present := s.present || t.fed,
       granted := match t.decision case Keep => s.granted case Grant => true case Relock => false)
  }

  predicate Gone(s: Hold, t: Turn) {
    Decided(s, t).present && !t.active
  }

  /** The hold: cleared by a session, and judged only where none is running. */
  function Judged(s: Hold, t: Turn): Hold {
    var d := Decided(s, t);
    if !Gone(s, t) then d.(holdMs := 0)
    else if d.holdMs == 0 && d.granted && Earns(t.evidence, t.now) then d.(holdMs := t.now)
    else d
  }

  function HoldPass(s: Hold, t: Turn): Hold {
    var j := Judged(s, t);
    if Gone(s, t) && (j.holdMs == 0 || t.now - j.holdMs > FLAP_HOLD_MS) then Hold(false, false, 0) else j
  }

  function HoldAfter(h: seq<Turn>): Hold {
    if h == [] then Hold(false, false, 0) else HoldPass(HoldAfter(h[..|h| - 1]), h[|h| - 1])
  }

  predicate GoneAt(h: seq<Turn>, i: nat)
    requires i < |h|
  {
    Gone(HoldAfter(h[..i]), h[i])
  }

  /** The hold running after `h` was judged at pass `g`, the session has been gone since, and 10 s are not over. */
  predicate HoldsSince(h: seq<Turn>, g: nat) {
    && g < |h|
    && HoldAfter(h).holdMs == h[g].now
    && HoldAfter(h[..g]).holdMs == 0
    && Earns(h[g].evidence, h[g].now) && Decided(HoldAfter(h[..g]), h[g]).granted
    && (forall i :: g <= i < |h| ==> GoneAt(h, i) && h[i].now - h[g].now <= FLAP_HOLD_MS)
  }

  lemma StillHolding(s: Hold, t: Turn)
    requires s.holdMs != 0 && HoldPass(s, t).holdMs != 0
    ensures Gone(s, t) && HoldPass(s, t).holdMs == s.holdMs && t.now - s.holdMs <= FLAP_HOLD_MS
  {
  }

  lemma HoldsOn(h: seq<Turn>, g: nat)
    requires h != [] && HoldsSince(h[..|h| - 1], g) && HoldAfter(h[..|h| - 1]).holdMs != 0 && HoldAfter(h).holdMs != 0
    ensures HoldsSince(h, g)
  {
    hide HoldPass, Gone, Earns, Decided, HoldAfter, GoneAt;
    var p := h[..|h| - 1];
    OnePass(h);
    StillHolding(HoldAfter(p), h[|h| - 1]);
    SameBefore(h, g);
    forall i | g <= i < |h|
      ensures GoneAt(h, i) && h[i].now - h[g].now <= FLAP_HOLD_MS
    {
      if i < |p| {
        SameBefore(h, i);
      } else {
        GoneAtLast(h);
      }
    }
  }

  lemma SameBefore(h: seq<Turn>, i: nat)
    requires i < |h| - 1
    ensures h[..|h| - 1][..i] == h[..i] && GoneAt(h[..|h| - 1], i) == GoneAt(h, i)
  {
    assert h[..|h| - 1][..i] == h[..i];
  }

  lemma GoneAtLast(h: seq<Turn>)
    requires h != []
    ensures GoneAt(h, |h| - 1) == Gone(HoldAfter(h[..|h| - 1]), h[|h| - 1])
  {
  }

  lemma OnePass(h: seq<Turn>)
    requires h != []
    ensures HoldAfter(h) == HoldPass(HoldAfter(h[..|h| - 1]), h[|h| - 1])
  {
  }

  /** Every running hold was judged once, at the pass that found the session gone. */
  lemma {:induction false} HoldHasStart(h: seq<Turn>) returns (g: nat)
    ensures HoldAfter(h).holdMs != 0 ==> HoldsSince(h, g)
  {
    g := 0;
    if h != [] {
      var p := h[..|h| - 1];
      var last := h[|h| - 1];
      g := HoldHasStart(p);
      if HoldAfter(h).holdMs != 0 {
        if HoldAfter(p).holdMs != 0 {
          HoldsOn(h, g);
        } else {
          g := |h| - 1;
          assert h[..g] == p;
          assert GoneAt(h, g);
        }
      }
    }
  }

  /**
   After every pass that finds the session gone, the bolt is closed and the credential
   forgotten, or a hold judged at pass `g` of this gap is running and not 10 s old.
   */
  lemma GoneIsRelockedOrHeld(h: seq<Turn>) returns (g: nat)
    requires h != [] && GoneAt(h, |h| - 1)
    ensures (HoldAfter(h) == Hold(false, false, 0)) || HoldsSince(h, g)
  {
    g := HoldHasStart(h);
  }

  /** A gap in which nothing is fed or decided: the passes that find the session gone and only wait. */
  predicate QuietGap(s: Hold, gap: seq<Turn>) {
    && gap != [] && s.present && s.holdMs == 0
    && forall t <- gap :: !t.fed && t.decision == Keep && !t.active
  }

  function HoldFrom(s: Hold, gap: seq<Turn>): Hold {
    if gap == [] then s else HoldPass(HoldFrom(s, gap[..|gap| - 1]), gap[|gap| - 1])
  }

  /**
   A session found gone looks like a flap when the last range is no older than 3 s and was
   taken inside the relock distance, and the session did not close in good order.
   */
  predicate LooksLikeFlap(t: Turn) {
    var e := t.evidence;
    t.now != 0 && e.lastFeedMs != 0 && t.now - e.lastFeedMs <= 3000 && e.lastCm < e.relockCm && !e.closedEstablished
  }

  /**
   What any pass makes of any history: with a session, or with nobody there, the decision
   stands and no hold runs; a session found gone relocks at once or starts a hold; and a
   running hold keeps the decision until it is more than 10 s old.
   */
  lemma PassRules(h: seq<Turn>, t: Turn)
    ensures var s, r := HoldAfter(h), HoldAfter(h + [t]);
            var here := s.present || t.fed;
            var open := t.decision == Grant || (t.decision == Keep && s.granted);
            && (t.active || !here ==> r == Hold(here, open, 0))
            && (!t.active && here && s.holdMs == 0
                ==> r == if open && LooksLikeFlap(t) then Hold(true, true, t.now) else Hold(false, false, 0))
            && (!t.active && here && s.holdMs != 0
                ==> r == if t.now - s.holdMs <= 10000 then Hold(true, open, s.holdMs) else Hold(false, false, 0))
  {
    assert (h + [t])[..|h|] == h;
  }

  /** The hold a gap earned, as long as it lasts. */
  predicate StillHeld(s: Hold, gap: seq<Turn>)
    requires gap != []
  {
    && s.granted && LooksLikeFlap(gap[0])
    && forall t <- gap :: t.now - gap[0].now <= 10000
  }

  /**
   Through a gap of any length, found at its first pass with any evidence: the bolt is open
   after its last pass if and only if it was open before, the first pass found fresh
   evidence of a flap, and no pass came more than 10 s after the first. Otherwise it is
   closed and the credential forgotten, whatever the later evidence.
   */
  lemma {:induction false} ThroughGap(s: Hold, gap: seq<Turn>)
    requires QuietGap(s, gap)
    ensures HoldFrom(s, gap) == if StillHeld(s, gap) then s.(holdMs := gap[0].now) else Hold(false, false, 0)
  {
    var n := |gap| - 1;
    var before := gap[..n];
    if n == 0 {
      assert HoldFrom(s, before) == s;
      assert forall t <- gap :: t == gap[0];
    } else {
      ThroughGap(s, before);
      assert before[0] == gap[0];
      assert gap == before + [gap[n]];
      assert StillHeld(s, gap) <==> StillHeld(s, before) && gap[n].now - gap[0].now <= 10000;
    }
  }

  /** A running hold is never judged again: the evidence of later passes changes nothing, and the pass past 10 s relocks. */
  lemma JudgedOnce(s: Hold, t: Turn, other: Evidence)
    requires s.holdMs != 0
    ensures HoldPass(s, t) == HoldPass(s, t.(evidence := other))
    ensures Gone(s, t) && t.now - s.holdMs > FLAP_HOLD_MS ==> HoldPass(s, t) == Hold(false, false, 0)
    ensures Gone(s, t) && t.now - s.holdMs <= FLAP_HOLD_MS ==> HoldPass(s, t) == Decided(s, t)
  {
  }

  // ----- the loop's own variables

  class ReaderLoop {
    var latchCred: nat
    var latchGapMs: int
    var flapHoldMs: int
    var present: bool
    var granted: bool
    ghost var latchSession: nat

    ghost function LatchView(): Latch
      reads this
    {
      Latch(latchCred, latchGapMs, latchSession)
    }

    ghost function HoldView(): Hold
      reads this
    {
      Hold(present, granted, flapHoldMs)
    }

    constructor ()
      ensures LatchView() == UNUSED && HoldView() == Hold(false, false, 0)
    {
      latchCred, latchGapMs, flapHoldMs, present, granted := NOBODY, 0, 0, false, false;
      latchSession := NOBODY;
    }

    method FollowCredential(s: Seen) returns (edge: Edge)
      modifies this`latchCred, this`latchGapMs, this`latchSession
      ensures var p := LatchPass(old(LatchView()), s); LatchView() == p.latch && edge == p.edge
    {
      edge := Still;
      if s.cred == latchCred {
        if latchGapMs != 0 {
          latchGapMs := 0;
          edge := Up;
        }
      } else if s.cred == NOBODY {
        if latchGapMs == 0 {
          latchGapMs := s.now;
          edge := Down;
        } else if s.now - latchGapMs > CARRY_MS {
          latchSession := NOBODY;
          latchCred := NOBODY;
          latchGapMs := 0;
        }
      } else {
        latchSession := s.cred;
        edge := Up;
        latchCred := s.cred;
        latchGapMs := 0;
      }
    }

    method Fallback(t: Turn)
      modifies this`flapHoldMs, this`present, this`granted
      ensures HoldView() == HoldPass(old(HoldView()), t)
    {
      if t.fed {
        present := true;
      }
      match t.decision {
        case Keep =>
        case Grant => granted := true;
        case Relock => granted := false;
      }
      var gone := present && !t.active;
      if !gone {
        flapHoldMs := 0;
      } else if flapHoldMs == 0 && granted && Earns(t.evidence, t.now) {
        flapHoldMs := t.now;
      }
      if gone && (flapHoldMs == 0 || t.now - flapHoldMs > FLAP_HOLD_MS) {
        flapHoldMs := 0;
        granted := false;
        present := false;
      }
    }
  }
}
