/**
 The grant decision: one pass of the reader loop turns what it observed into bolt edges.
 The approach controller is arbitrary: each pass carries the action it answers with.
 */
module Grant {
  const RANGE_HOLD_MS := 1000

  datatype Action = Hold | UnlockPredict | UnlockThreshold | RelockDepart | RelockAbort

  datatype Input = Input(now: int, gen: nat, trustedValid: bool, trustedCm: int,
                         rawValid: bool, rawCm: int, sessionActive: bool)

  datatype Output = Output(lockChanged: bool, unlocked: bool, ranging: bool, departureFallback: bool, action: Action)

  datatype Ctx = Ctx(genTrusted: nat, genObserved: nat, genLed: nat, lastRangeMs: int,
                     present: bool, granted: bool, sessionWasUp: bool)

  /** The calls a pass makes on the controller. */
  datatype Call = Fed(gen: nat, cm: int) | Observed(gen: nat, cm: int) | Ticked | SessionUp | Gone

  function Initial(gen: nat): Ctx {
    Ctx(gen, gen, gen, 0, false, false, false)
  }

  datatype Passed = Passed(ctx: Ctx, out: Output, calls: seq<Call>)

  /** Feed a newly trusted range; otherwise note a fresh raw one, and tick. */
  function Sense(c: Ctx, i: Input): (Ctx, seq<Call>) {
    if i.gen != c.genTrusted && i.trustedValid then
      (c.(genTrusted := i.gen, genObserved := i.gen, present := true), [Fed(i.gen, i.trustedCm)])
    else if i.gen != c.genObserved then
      (c.(genObserved := i.gen), (if i.rawValid then [Observed(i.gen, i.rawCm)] else []) + [Ticked])
    else (c, [Ticked])
  }

  predicate Unlocks(a: Action) {
    a.UnlockPredict? || a.UnlockThreshold?
  }

  predicate Relocks(a: Action) {
    a.RelockDepart? || a.RelockAbort?
  }

  function Decide(c: Ctx, a: Action): (Ctx, Output) {
    var out := Output(false, c.granted, false, false, a);
    if Unlocks(a) then (c.(granted := true), out.(lockChanged := !c.granted, unlocked := true))
    else if Relocks(a) then (c.(granted := false), out.(lockChanged := c.granted, unlocked := false))
    else (c, out)
  }

  /** The session's rising edge, then the departure fallback. */
  function FollowSession(c: Ctx, out: Output, i: Input): Passed {
    var up := if i.sessionActive && !c.sessionWasUp then [SessionUp] else [];
    var d := c.(sessionWasUp := i.sessionActive);
    if !d.present || i.sessionActive then Passed(d, out, up)
    else
      Passed(d.(granted := false, present := false),
             out.(departureFallback := d.granted,
                  lockChanged := out.lockChanged || d.granted,
                  unlocked := if d.granted then false else out.unlocked),
             up + [Gone])
  }

  function Lamp(c: Ctx, i: Input): Ctx {
    if i.gen != c.genLed then c.(genLed := i.gen, lastRangeMs := i.now) else c
  }

  function Pass(c: Ctx, i: Input, a: Action): Passed {
    var (sensed, calls) := Sense(c, i);
    var (decided, out) := Decide(sensed, a);
    var p := FollowSession(decided, out, i);
    var lit := Lamp(p.ctx, i);
    Passed(lit,
           p.out.(ranging := lit.lastRangeMs != 0 && i.now - lit.lastRangeMs < RANGE_HOLD_MS),
           calls + p.calls)
  }

  /** The context as the source keeps it, updated in place. */
  class Granter {
    var genTrusted: nat
    var genObserved: nat
    var genLed: nat
    var lastRangeMs: int
    var present: bool
    var granted: bool
    var sessionWasUp: bool
    ghost var calls: seq<Call>

    function View(): Ctx
      reads this
    {
      Ctx(genTrusted, genObserved, genLed, lastRangeMs, present, granted, sessionWasUp)
    }

    constructor (gen: nat)
      ensures View() == Initial(gen) && calls == []
    {
      genTrusted, genObserved, genLed, lastRangeMs := gen, gen, gen, 0;
      present, granted, sessionWasUp := false, false, false;
      calls := [];
    }

    method TakeRange(i: Input)
      modifies this`genTrusted, this`genObserved, this`present, this`calls
      ensures var (c, made) := Sense(old(View()), i); View() == c && calls == old(calls) + made
    {
      if i.gen != genTrusted && i.trustedValid {
        genTrusted := i.gen;
        genObserved := i.gen;
        present := true;
        calls := calls + [Fed(i.gen, i.trustedCm)];
      } else {
        if i.gen != genObserved {
          genObserved := i.gen;
          if i.rawValid {
            calls := calls + [Observed(i.gen, i.rawCm)];
          }
        }
        calls := calls + [Ticked];
      }
    }

    method Apply(act: Action) returns (out: Output)
      modifies this`granted
      ensures (View(), out) == Decide(old(View()), act)
    {
      out := Output(false, granted, false, false, act);
      match act {
        case UnlockPredict | UnlockThreshold =>
          if !granted {
            out := out.(lockChanged := true);
          }
          granted := true;
          out := out.(unlocked := true);
        case RelockDepart | RelockAbort =>
          if granted {
            out := out.(lockChanged := true);
          }
          granted := false;
          out := out.(unlocked := false);
        case Hold =>
      }
    }

    method WatchSession(i: Input, decided: Output) returns (out: Output)
      modifies this`sessionWasUp, this`granted, this`present, this`calls
      ensures var p := FollowSession(old(View()), decided, i);
              View() == p.ctx && out == p.out && calls == old(calls) + p.calls
    {
      out := decided;
      if i.sessionActive && !sessionWasUp {
        calls := calls + [SessionUp];
      }
      sessionWasUp := i.sessionActive;
      if present && !i.sessionActive {
        out := out.(departureFallback := granted);
        calls := calls + [Gone];
        if granted {
          granted := false;
          out := out.(lockChanged := true, unlocked := false);
        }
        present := false;
      }
    }

    method Step(i: Input, act: Action) returns (out: Output)
      modifies this
      ensures var p := Pass(old(View()), i, act);
              View() == p.ctx && out == p.out && calls == old(calls) + p.calls
    {
      hide Sense, Decide, FollowSession;
      TakeRange(i);
      out := Apply(act);
      out := WatchSession(i, out);
      if i.gen != genLed {
        genLed := i.gen;
        lastRangeMs := i.now;
      }
      out := out.(ranging := lastRangeMs != 0 && i.now - lastRangeMs < RANGE_HOLD_MS);
    }
  }

  // ----- runs

  datatype Turn = Turn(input: Input, action: Action)

  /** `bolt` is held by a caller that applies only the edges it is given. */
  datatype Sys = Sys(ctx: Ctx, calls: seq<Call>, bolt: bool)

  function Next(s: Sys, t: Turn): Sys {
    var p := Pass(s.ctx, t.input, t.action);
    Sys(p.ctx, s.calls + p.calls, if p.out.lockChanged then p.out.unlocked else s.bolt)
  }

  function Run(gen: nat, turns: seq<Turn>): Sys {
    if turns == [] then Sys(Initial(gen), [], false)
    else Next(Run(gen, turns[..|turns| - 1]), turns[|turns| - 1])
  }

  function Gens(gen: nat, turns: seq<Turn>): seq<nat> {
    if turns == [] then [gen]
    else Gens(gen, turns[..|turns| - 1]) + [turns[|turns| - 1].input.gen]
  }

  /** A generation that has been left behind never comes back. */
  predicate NeverRepeats(gens: seq<nat>) {
    forall i, j, k :: 0 <= i < j < k < |gens| && gens[i] != gens[j] ==> gens[i] != gens[k]
  }

  predicate Names(c: Call, gen: nat) {
    (c.Fed? || c.Observed?) && c.gen == gen
  }

  /** The only two calls that may name one generation are an observation and, later, a feed. */
  predicate Orderly(calls: seq<Call>) {
    forall i, j :: 0 <= i < j < |calls| && (calls[j].Fed? || calls[j].Observed?) && Names(calls[i], calls[j].gen)
      ==> calls[i].Observed? && calls[j].Fed?
  }

  /** What the two epochs remember of the calls, at the generation `gens` ends with. */
  predicate Remembers(c: Ctx, calls: seq<Call>, gens: seq<nat>)
    requires gens != []
  {
    var cur := gens[|gens| - 1];
    && (forall x <- calls :: x.Fed? || x.Observed? ==> x.gen in gens)
    && (forall x <- calls :: x.Fed? && x.gen == cur ==> c.genTrusted == cur)
    && (forall x <- calls :: Names(x, cur) ==> c.genObserved == cur)
  }

  lemma {:induction false} GensShape(gen: nat, turns: seq<Turn>)
    ensures |Gens(gen, turns)| == |turns| + 1
    ensures turns != [] ==> Gens(gen, turns)[..|turns|] == Gens(gen, turns[..|turns| - 1])
  {
    if turns != [] {
      GensShape(gen, turns[..|turns| - 1]);
    }
  }

  /** The next generation is the current one or one never seen. */
  lemma NewOrCurrent(gens: seq<nat>, gen: nat)
    requires gens != [] && NeverRepeats(gens + [gen])
    ensures gen == gens[|gens| - 1] || gen !in gens
  {
    var all := gens + [gen];
    if gen != gens[|gens| - 1] {
      forall i | 0 <= i < |gens|
        ensures gens[i] != gen
      {
        assert all[|gens| - 1] != all[|gens|];
        assert all[i] != all[|gens| - 1] ==> all[i] != all[|gens|];
      }
    }
  }

  lemma PrefixNeverRepeats(gens: seq<nat>, gen: nat)
    requires NeverRepeats(gens + [gen])
    ensures NeverRepeats(gens)
  {
    var all := gens + [gen];
    forall i, j, k | 0 <= i < j < k < |gens| && gens[i] != gens[j]
      ensures gens[i] != gens[k]
    {
      assert all[i] != all[j] && all[k] == gens[k];
    }
  }

  /** Only sensing names a generation, and it names the current one at most once. */
  lemma PassCalls(c: Ctx, i: Input, a: Action)
    ensures var p := Pass(c, i, a);
            && p.calls == Sense(c, i).1 + p.calls[|Sense(c, i).1|..]
            && (forall x <- p.calls[|Sense(c, i).1|..] :: x.SessionUp? || x.Gone?)
            && p.ctx.genTrusted == Sense(c, i).0.genTrusted && p.ctx.genObserved == Sense(c, i).0.genObserved
  {
    hide Sense;
    var (sensed, calls) := Sense(c, i);
    var (decided, out) := Decide(sensed, a);
    var p := FollowSession(decided, out, i);
    assert (calls + p.calls)[|calls|..] == p.calls;
  }

  lemma AppendQuiet(calls: seq<Call>, more: seq<Call>)
    requires Orderly(calls) && forall x <- more :: !x.Fed? && !x.Observed?
    ensures Orderly(calls + more)
  {
  }

  lemma AppendNamed(calls: seq<Call>, c: Call)
    requires Orderly(calls) && (c.Fed? || c.Observed?)
    requires forall x <- calls :: Names(x, c.gen) ==> x.Observed? && c.Fed?
    ensures Orderly(calls + [c])
  {
    var all := calls + [c];
    forall i, j | 0 <= i < j < |all| && (all[j].Fed? || all[j].Observed?) && Names(all[i], all[j].gen)
      ensures all[i].Observed? && all[j].Fed?
    {
      if j == |calls| {
        assert all[i] in calls;
      }
    }
  }

  lemma SenseKeeps(c: Ctx, calls: seq<Call>, gens: seq<nat>, i: Input)
    requires gens != [] && (i.gen == gens[|gens| - 1] || i.gen !in gens)
    requires Remembers(c, calls, gens) && Orderly(calls)
    ensures var (d, more) := Sense(c, i);
            Remembers(d, calls + more, gens + [i.gen]) && Orderly(calls + more)
  {
    var (d, more) := Sense(c, i);
    if i.gen != c.genTrusted && i.trustedValid {
      AppendNamed(calls, Fed(i.gen, i.trustedCm));
    } else if i.gen != c.genObserved && i.rawValid {
      AppendNamed(calls, Observed(i.gen, i.rawCm));
      AppendQuiet(calls + [Observed(i.gen, i.rawCm)], [Ticked]);
      assert calls + more == calls + [Observed(i.gen, i.rawCm)] + [Ticked];
    } else {
      AppendQuiet(calls, more);
    }
  }

  lemma {:induction false} RunRemembers(gen: nat, turns: seq<Turn>)
    requires NeverRepeats(Gens(gen, turns))
    ensures var s := Run(gen, turns); Remembers(s.ctx, s.calls, Gens(gen, turns)) && Orderly(s.calls)
  {
    hide Sense, Pass, NeverRepeats;
    if turns != [] {
      var before := turns[..|turns| - 1];
      var t := turns[|turns| - 1];
      var gens := Gens(gen, before);
      PrefixNeverRepeats(gens, t.input.gen);
      RunRemembers(gen, before);
      NewOrCurrent(gens, t.input.gen);
      var s := Run(gen, before);
      SenseKeeps(s.ctx, s.calls, gens, t.input);
      PassCalls(s.ctx, t.input, t.action);
      var named := Sense(s.ctx, t.input).1;
      var p := Pass(s.ctx, t.input, t.action);
      var rest := p.calls[|named|..];
      AppendQuiet(s.calls + named, rest);
      assert s.calls + p.calls == s.calls + named + rest;
    }
  }

  /**
   However the controller answers, no generation is fed as trusted twice, observed for
   departure twice, or observed after it has been fed.
   */
  lemma EachGenerationOnce(gen: nat, turns: seq<Turn>, i: nat, j: nat)
    requires NeverRepeats(Gens(gen, turns))
    requires i < j < |Run(gen, turns).calls|
    ensures var calls := Run(gen, turns).calls;
            (calls[j].Fed? || calls[j].Observed?) && Names(calls[i], calls[j].gen)
            ==> calls[i].Observed? && calls[j].Fed?
  {
    RunRemembers(gen, turns);
  }

  /** One pass: the edge, if any, takes the bolt to what is now granted. */
  lemma EdgeIsGrant(c: Ctx, i: Input, a: Action)
    ensures var p := Pass(c, i, a);
            p.ctx.granted == if p.out.lockChanged then p.out.unlocked else c.granted
  {
  }

  /** A caller that applies only the edges always holds the bolt the decision believes in. */
  lemma {:induction false} BoltIsGranted(gen: nat, turns: seq<Turn>)
    ensures Run(gen, turns).bolt == Run(gen, turns).ctx.granted
  {
    hide Pass;
    if turns != [] {
      BoltIsGranted(gen, turns[..|turns| - 1]);
      EdgeIsGrant(Run(gen, turns[..|turns| - 1]).ctx, turns[|turns| - 1].input, turns[|turns| - 1].action);
    }
  }

  /** After every pass an open bolt with a credential present has its session, and a session's end closes it. */
  lemma GrantedNeedsSession(gen: nat, turns: seq<Turn>)
    requires turns != []
    ensures var s := Run(gen, turns);
            && (s.ctx.present && s.ctx.granted ==> turns[|turns| - 1].input.sessionActive)
            && (!turns[|turns| - 1].input.sessionActive
                && Sense(Run(gen, turns[..|turns| - 1]).ctx, turns[|turns| - 1].input).0.present
                ==> !s.bolt && !s.ctx.granted && !s.ctx.present)
  {
    BoltIsGranted(gen, turns);
  }

  /** What the trusted epoch holds is the starting generation or one that has been fed. */
  lemma {:induction false} EpochWasFed(gen: nat, turns: seq<Turn>)
    ensures var s := Run(gen, turns);
            s.ctx.genTrusted == gen || exists c <- s.calls :: c.Fed? && c.gen == s.ctx.genTrusted
  {
    hide Pass, Sense;
    if turns != [] {
      var before, t := turns[..|turns| - 1], turns[|turns| - 1];
      EpochWasFed(gen, before);
      SenseFeeds(Run(gen, before).ctx, t.input);
      PassCalls(Run(gen, before).ctx, t.input, t.action);
    }
  }

  lemma SenseFeeds(c: Ctx, i: Input)
    ensures var (d, calls) := Sense(c, i);
            && (d.genTrusted != c.genTrusted ==> Fed(i.gen, i.trustedCm) in calls && d.genTrusted == i.gen)
            && (i.trustedValid ==> d.genTrusted == i.gen)
  {
  }

  /** Every generation but the first that a pass finds trusted is fed, then or earlier. */
  lemma TrustedIsFed(gen: nat, turns: seq<Turn>, t: Turn)
    requires t.input.trustedValid && t.input.gen != gen
    ensures exists c <- Run(gen, turns + [t]).calls :: c.Fed? && c.gen == t.input.gen
  {
    hide Pass, Sense;
    var all := turns + [t];
    assert all[..|all| - 1] == turns;
    EpochWasFed(gen, all);
    SenseFeeds(Run(gen, turns).ctx, t.input);
    PassCalls(Run(gen, turns).ctx, t.input, t.action);
  }

  /** While the session lasts the bolt does what the controller says, and nothing else moves it. */
  lemma ControllerMovesBolt(gen: nat, turns: seq<Turn>, t: Turn)
    requires t.input.sessionActive
    ensures Run(gen, turns + [t]).bolt
         == (Unlocks(t.action) || (!Relocks(t.action) && Run(gen, turns).bolt))
  {
    var all := turns + [t];
    assert all[..|all| - 1] == turns;
    BoltIsGranted(gen, turns);
    BoltIsGranted(gen, all);
  }
}
