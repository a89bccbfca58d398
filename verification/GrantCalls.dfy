/**
 What a pass of the grant decision calls and reports, told from the inputs of the whole run
 alone: which ranges are fed, which are only observed for departure, when the session's
 edges are passed on and when the ranging lamp is lit.
 */
module GrantCalls {
  import opened Grant

  /** Some pass has found this generation trusted. */
  predicate WasTrusted(turns: seq<Turn>, gen: nat) {
    exists t <- turns :: t.input.gen == gen && t.input.trustedValid
  }

  predicate SessionWasUp(turns: seq<Turn>) {
    turns != [] && turns[|turns| - 1].input.sessionActive
  }

  /** A credential is present from a feed until the departure that follows it. */
  predicate PresentIn(calls: seq<Call>) {
    calls != [] && (calls[|calls| - 1].Fed? || (!calls[|calls| - 1].Gone? && PresentIn(calls[..|calls| - 1])))
  }

  /** The range a pass passes on: fed once it is trusted, and before that observed once, for departure only. */
  function RangeCalls(gen: nat, turns: seq<Turn>, i: Input): seq<Call> {
    if i.trustedValid && i.gen != gen && !WasTrusted(turns, i.gen) then [Fed(i.gen, i.trustedCm)]
    else if !i.trustedValid && i.rawValid && i.gen !in Gens(gen, turns) then [Observed(i.gen, i.rawCm), Ticked]
    else [Ticked]
  }

  function SessionCalls(turns: seq<Turn>, i: Input, present: bool): seq<Call> {
    (if i.sessionActive && !SessionWasUp(turns) then [SessionUp] else [])
    + if present && !i.sessionActive then [Gone] else []
  }

  /** When the generation last changed; 0 if it never has. */
  function LastChange(gen: nat, turns: seq<Turn>): int {
    if turns == [] then 0
    else
      var before, i := turns[..|turns| - 1], turns[|turns| - 1].input;
      var gens := Gens(gen, before);
      if gens != [] && i.gen != gens[|gens| - 1] then i.now else LastChange(gen, before)
  }

  // ----- what the context remembers

  ghost predicate Knows(c: Ctx, calls: seq<Call>, gen: nat, turns: seq<Turn>) {
    var gens := Gens(gen, turns);
    && gens != []
    && var cur := gens[|gens| - 1];
    && c.genObserved == cur && c.genLed == cur
    && c.genTrusted in gens
    && (c.genTrusted == cur <==> cur == gen || WasTrusted(turns, cur))
    && gen in gens
    && c.sessionWasUp == SessionWasUp(turns)
    && c.present == PresentIn(calls)
    && c.lastRangeMs == LastChange(gen, turns)
  }

  lemma {:induction false} TurnGens(gen: nat, turns: seq<Turn>, t: Turn)
    requires t in turns
    ensures t.input.gen in Gens(gen, turns)
  {
    var before := turns[..|turns| - 1];
    if t != turns[|turns| - 1] {
      assert t in before;
      TurnGens(gen, before, t);
    }
  }

  lemma UnseenIsUntrusted(gen: nat, turns: seq<Turn>, g: nat)
    requires g !in Gens(gen, turns)
    ensures !WasTrusted(turns, g)
  {
    forall t <- turns
      ensures t.input.gen != g
    {
      TurnGens(gen, turns, t);
    }
  }

  lemma TrustedMore(turns: seq<Turn>, t: Turn, g: nat)
    ensures WasTrusted(turns + [t], g) <==> WasTrusted(turns, g) || (t.input.gen == g && t.input.trustedValid)
  {
    var all := turns + [t];
    if WasTrusted(turns, g) {
      var u :| u in turns && u.input.gen == g && u.input.trustedValid;
      assert u in all;
    }
    assert t in all;
  }

  lemma SenseIs(c: Ctx, calls: seq<Call>, gen: nat, turns: seq<Turn>, i: Input)
    requires Knows(c, calls, gen, turns)
    requires var gens := Gens(gen, turns); i.gen == gens[|gens| - 1] || i.gen !in gens
    ensures Sense(c, i).1 == RangeCalls(gen, turns, i)
  {
    hide WasTrusted, SessionWasUp, PresentIn, LastChange;
    if i.gen !in Gens(gen, turns) {
      UnseenIsUntrusted(gen, turns, i.gen);
    }
  }

  lemma SensedTrust(c: Ctx, calls: seq<Call>, gen: nat, turns: seq<Turn>, t: Turn)
    requires Knows(c, calls, gen, turns)
    requires var gens := Gens(gen, turns); t.input.gen == gens[|gens| - 1] || t.input.gen !in gens
    ensures var d := Sense(c, t.input).0;
            && d.genObserved == t.input.gen
            && d.genTrusted in Gens(gen, turns) + [t.input.gen]
            && (d.genTrusted == t.input.gen <==> t.input.gen == gen || WasTrusted(turns + [t], t.input.gen))
  {
    hide WasTrusted, SessionWasUp, PresentIn, LastChange;
    TrustedMore(turns, t, t.input.gen);
    if t.input.gen !in Gens(gen, turns) {
      UnseenIsUntrusted(gen, turns, t.input.gen);
    }
  }

  lemma {:induction false} PresentMore(calls: seq<Call>, more: seq<Call>)
    ensures PresentIn(calls + more)
         == if more == [] then PresentIn(calls)
            else if more[|more| - 1].Fed? then true
            else if more[|more| - 1].Gone? then false
            else PresentIn(calls + more[..|more| - 1])
  {
    var all := calls + more;
    if more == [] {
      assert all == calls;
    } else {
      assert all[..|all| - 1] == calls + more[..|more| - 1];
    }
  }

  /** The three parts of a pass's calls, and who is present after each. */
  lemma PresentSensed(c: Ctx, calls: seq<Call>, i: Input)
    requires c.present == PresentIn(calls)
    ensures Sense(c, i).0.present == PresentIn(calls + Sense(c, i).1)
  {
    hide PresentIn;
    var made := Sense(c, i).1;
    PresentMore(calls, made);
    if |made| == 2 {
      assert made[..1] == [made[0]];
      PresentMore(calls, [made[0]]);
      assert [made[0]][..0] == [];
    }
    assert made[..0] == [];
    PresentMore(calls, []);
  }

  lemma PresentFollowed(calls: seq<Call>, turns: seq<Turn>, i: Input)
    ensures var present := PresentIn(calls);
            PresentIn(calls + SessionCalls(turns, i, present)) == (present && i.sessionActive)
  {
    hide PresentIn, SessionWasUp;
    var present := PresentIn(calls);
    var made := SessionCalls(turns, i, present);
    PresentMore(calls, made);
    assert made != [] ==> made[..|made| - 1] == [];
    PresentMore(calls, []);
  }

  lemma FollowIs(c: Ctx, out: Output, turns: seq<Turn>, i: Input)
    requires c.sessionWasUp == SessionWasUp(turns)
    ensures var p := FollowSession(c, out, i);
            && p.calls == SessionCalls(turns, i, c.present)
            && p.ctx == c.(sessionWasUp := i.sessionActive, present := c.present && i.sessionActive,
                           granted := c.granted && !(c.present && !i.sessionActive))
  {
  }

  lemma PassIs(c: Ctx, i: Input, a: Action, turns: seq<Turn>)
    requires c.sessionWasUp == SessionWasUp(turns)
    ensures var p := Pass(c, i, a);
            var (sensed, made) := Sense(c, i);
            && p.calls == made + SessionCalls(turns, i, sensed.present)
            && p.ctx.genTrusted == sensed.genTrusted && p.ctx.genObserved == sensed.genObserved
            && p.ctx.present == (sensed.present && i.sessionActive) && p.ctx.sessionWasUp == i.sessionActive
            && p.ctx.genLed == i.gen
            && p.ctx.lastRangeMs == if i.gen != c.genLed then i.now else c.lastRangeMs
  {
    hide SessionWasUp, FollowSession, SessionCalls;
    var (sensed, made) := Sense(c, i);
    var (decided, out) := Decide(sensed, a);
    FollowIs(decided, out, turns, i);
  }

  /** One more pass on what is known. */
  lemma PassKnows(c: Ctx, calls: seq<Call>, gen: nat, turns: seq<Turn>, t: Turn)
    requires Knows(c, calls, gen, turns)
    requires var gens := Gens(gen, turns); t.input.gen == gens[|gens| - 1] || t.input.gen !in gens
    ensures var p := Pass(c, t.input, t.action);
            && Knows(p.ctx, calls + p.calls, gen, turns + [t])
            && p.calls == RangeCalls(gen, turns, t.input)
                          + SessionCalls(turns, t.input, PresentIn(calls + RangeCalls(gen, turns, t.input)))
  {
    hide Sense, Pass, SessionCalls, RangeCalls, PresentIn, WasTrusted;
    var all := turns + [t];
    assert all[..|all| - 1] == turns && all[|all| - 1] == t;
    PassIs(c, t.input, t.action, turns);
    SenseIs(c, calls, gen, turns, t.input);
    SensedTrust(c, calls, gen, turns, t);
    PresentSensed(c, calls, t.input);
    var made := Sense(c, t.input).1;
    PresentFollowed(calls + made, turns, t.input);
    var p := Pass(c, t.input, t.action);
    assert calls + p.calls == calls + made + SessionCalls(turns, t.input, PresentIn(calls + made));
  }

  lemma {:induction false} RunKnows(gen: nat, turns: seq<Turn>)
    requires NeverRepeats(Gens(gen, turns))
    ensures var s := Run(gen, turns); Knows(s.ctx, s.calls, gen, turns)
  {
    hide Pass, Knows, NeverRepeats;
    if turns == [] {
      StartKnows(gen);
    } else {
      var before, t := turns[..|turns| - 1], turns[|turns| - 1];
      PrefixNeverRepeats(Gens(gen, before), t.input.gen);
      RunKnows(gen, before);
      GensShape(gen, before);
      NewOrCurrent(Gens(gen, before), t.input.gen);
      PassKnows(Run(gen, before).ctx, Run(gen, before).calls, gen, before, t);
      assert before + [t] == turns;
    }
  }

  lemma StartKnows(gen: nat)
    ensures Knows(Initial(gen), [], gen, [])
  {
  }

  lemma LastTurn(gen: nat, turns: seq<Turn>, t: Turn)
    requires NeverRepeats(Gens(gen, turns + [t]))
    ensures Knows(Run(gen, turns).ctx, Run(gen, turns).calls, gen, turns)
    ensures var gens := Gens(gen, turns); gens != [] && (t.input.gen == gens[|gens| - 1] || t.input.gen !in gens)
    ensures Run(gen, turns + [t]) == Next(Run(gen, turns), t)
  {
    hide Pass, Knows, NeverRepeats;
    var all := turns + [t];
    assert all[..|all| - 1] == turns;
    PrefixNeverRepeats(Gens(gen, turns), t.input.gen);
    RunKnows(gen, turns);
    GensShape(gen, turns);
    NewOrCurrent(Gens(gen, turns), t.input.gen);
  }

  /**
   After any run, a pass makes exactly these calls and in this order: the range by the
   first rule that fits, then the session's rising edge, then the departure of a
   credential whose session has ended.
   */
  lemma CallsMade(gen: nat, turns: seq<Turn>, t: Turn)
    requires NeverRepeats(Gens(gen, turns + [t]))
    ensures var before := Run(gen, turns).calls;
            var sensed := before + RangeCalls(gen, turns, t.input);
            Run(gen, turns + [t]).calls == sensed + SessionCalls(turns, t.input, PresentIn(sensed))
  {
    hide Pass, Knows, NeverRepeats, RangeCalls, SessionCalls, PresentIn;
    LastTurn(gen, turns, t);
    PassKnows(Run(gen, turns).ctx, Run(gen, turns).calls, gen, turns, t);
  }

  /** The ranging lamp is lit for the second after the last change of generation. */
  lemma RangingIff(gen: nat, turns: seq<Turn>, t: Turn)
    requires NeverRepeats(Gens(gen, turns + [t]))
    ensures var last := LastChange(gen, turns + [t]);
            Pass(Run(gen, turns).ctx, t.input, t.action).out.ranging <==> last != 0 && t.input.now - last < 1000
  {
    hide Knows, NeverRepeats, FollowSession, Sense, Decide;
    LastTurn(gen, turns, t);
    PassKnows(Run(gen, turns).ctx, Run(gen, turns).calls, gen, turns, t);
    KnowsLast(Pass(Run(gen, turns).ctx, t.input, t.action).ctx, Run(gen, turns + [t]).calls, gen, turns + [t]);
  }

  lemma KnowsLast(c: Ctx, calls: seq<Call>, gen: nat, turns: seq<Turn>)
    requires Knows(c, calls, gen, turns)
    ensures c.lastRangeMs == LastChange(gen, turns)
  {
  }

  /**
   What a pass reports: the action it was answered with, the bolt as it is now left, an
   edge exactly when the bolt moves or a departure closes one just opened, and a departure
   fallback exactly when one closes it.
   */
  lemma Reports(gen: nat, turns: seq<Turn>, t: Turn)
    ensures var was, now := Run(gen, turns), Run(gen, turns + [t]);
            var out := Pass(was.ctx, t.input, t.action).out;
            var open := || t.action == UnlockPredict || t.action == UnlockThreshold
                        || (t.action == Hold && was.bolt);
            var gone := Gone in now.calls[|was.calls|..];
            && out.action == t.action
            && now.bolt == (open && !gone)
            && out.unlocked == now.bolt
            && out.departureFallback == (open && gone)
            && (out.lockChanged <==> now.bolt != was.bolt || out.departureFallback)
  {
    hide Sense, FollowSession;
    var all := turns + [t];
    assert all[..|all| - 1] == turns;
    BoltIsGranted(gen, turns);
    BoltIsGranted(gen, turns + [t]);
    var was := Run(gen, turns);
    var p := Pass(was.ctx, t.input, t.action);
    assert Run(gen, turns + [t]).calls[|was.calls|..] == p.calls;
    PassOut(was.ctx, t.input, t.action);
  }

  lemma PassOut(c: Ctx, i: Input, a: Action)
    ensures var p := Pass(c, i, a);
            var open := Unlocks(a) || (!Relocks(a) && c.granted);
            && p.out.action == a
            && p.ctx.granted == (open && Gone !in p.calls)
            && p.out.unlocked == p.ctx.granted
            && p.out.departureFallback == (open && Gone in p.calls)
            && (p.out.lockChanged <==> p.ctx.granted != c.granted || p.out.departureFallback)
  {
    hide Sense;
    var (sensed, made) := Sense(c, i);
    SenseLeaves(c, i);
  }

  lemma SenseLeaves(c: Ctx, i: Input)
    ensures Sense(c, i).0.granted == c.granted && Gone !in Sense(c, i).1
  {
  }
}
