/**
 The sealed witness link: reports from the inside, outside and threshold witnesses are
 kept one per role, and a fresh inside/outside pair is published as one window of
 evidence. Reports arrive on the receive callback and the challenge is rolled by the main
 loop, with no lock between them, so each is a sequence of single accesses. The seal, the
 picker and the random draw are choices carried by the events.
 */
module WitnessLink {
  import opened Options

  const STALE_MS := 4000
  const INSIDE := 1
  const OUTSIDE := 2
  const THRESHOLD := 3

  type challenge = n: nat | n > 0 witness 1

  datatype Tuple = Tuple(dbm: int, packets: nat)

  datatype Report = Report(role: nat, bootId: nat, ctr: nat, echo: nat, tuples: map<nat, Tuple>)

  /** The replay window of one witness. */
  datatype Seen = Unseen | SeenAt(bootId: nat, ctr: nat)

  /**
   `id`, `stored` and `swept` are history: the place of the kept report among all accepted
   ones, the last roll to have swept the slot, and which that was when the standing of the
   kept report was stored.
   */
  datatype Slot = Slot(provisioned: bool, seen: Seen, msg: Report, ms: int, have: bool, nonceOk: bool,
                       id: nat, stored: nat, swept: nat)

  /** A report a window rests on, and the last roll to have swept its slot when its standing was stored and read. */
  datatype Basis = Basis(id: nat, stored: nat, swept: nat)

  /** The window published, the challenge in force when its flag was decided, and the two reports it rests on. */
  datatype Window = Window(seqNo: nat, now: int, rangeMm: int, hash: nat,
                           inside: Option<Tuple>, outside: Option<Tuple>, threshold: Option<Tuple>,
                           degraded: bool, challenge: nat, epoch: nat, inner: Basis, outer: Basis)

  /** A report accepted, and the challenge it was compared with. */
  datatype Acceptance = Acceptance(msg: Report, ms: int, epoch: nat)

  /** Where the receive callback is: its report compared, the standing stored, the inside report's standing read. */
  datatype Rx = Quiet | Judged(role: nat, ok: bool, now: int) | Stored(now: int) | ReadIn(hash: nat, now: int, ok: bool, swept: nat)

  /** Where the main loop is in a roll: about to draw, or to sweep slot `i`. */
  datatype MainLoop = Resting | Drawing(now: int) | Clearing(i: nat)

  /**
   `draws`, `log` and `windows` are history: every value the challenge has had, everything
   accepted and everything published.
   */
  datatype Link = Link(slots: seq<Slot>, nonce: nat, nonceMs: int, session: bool, rangeMm: int,
                       rx: Rx, main: MainLoop, draws: seq<nat>, log: seq<Acceptance>, windows: seq<Window>)
  {
    /** The number of the current challenge. */
    function Epoch(): nat {
      if draws == [] then 0 else |draws| - 1
    }
  }

  predicate Accepts(seen: Seen, msg: Report) {
    !(seen.SeenAt? && seen.bootId == msg.bootId && msg.ctr <= seen.ctr)
  }

  function Find(msg: Report, hash: nat): Option<Tuple> {
    if hash in msg.tuples then Some(msg.tuples[hash]) else None
  }

  // ----- the receive callback

  /** Whether one of the enrolled keys opens the datagram. */
  predicate Opened(slots: seq<Slot>, opens: seq<bool>) {
    exists i :: 0 <= i < |slots| && i < |opens| && slots[i].provisioned && opens[i]
  }

  predicate Admits(slots: seq<Slot>, msg: Report) {
    && INSIDE <= msg.role <= |slots|
    && slots[msg.role - 1].provisioned && Accepts(slots[msg.role - 1].seen, msg)
  }

  /** The report is kept and its echo compared; the slot still has the standing of the one before. */
  function Keep(l: Link, msg: Report, now: int): Link
    requires Admits(l.slots, msg)
  {
    var slot := l.slots[msg.role - 1];
    var kept := slot.(seen := SeenAt(msg.bootId, msg.ctr), msg := msg, ms := now, have := true, id := |l.log|);
    l.(slots := l.slots[msg.role - 1 := kept], log := l.log + [Acceptance(msg, now, l.Epoch())],
       rx := Judged(msg.role, msg.echo == l.nonce && l.nonce != 0, now))
  }

  /** `opens[i]`: the datagram unseals under slot i's key; `decoded`: what it then says. */
  function Accept(l: Link, opens: seq<bool>, decoded: Option<Report>, now: int): Link {
    if l.rx.Quiet? && Opened(l.slots, opens) && decoded.Some? && Admits(l.slots, decoded.value)
    then Keep(l, decoded.value, now)
    else l
  }

  function StoreStanding(l: Link): Link
    requires l.rx.Judged?
  {
    if !(INSIDE <= l.rx.role <= |l.slots|) then l.(rx := Quiet)
    else
      var k := l.rx.role - 1;
      l.(slots := l.slots[k := l.slots[k].(nonceOk := l.rx.ok, stored := l.slots[k].swept)], rx := Stored(l.rx.now))
  }

  predicate HasPair(slots: seq<Slot>, now: int) {
    && |slots| >= OUTSIDE
    && slots[INSIDE - 1].have && slots[OUTSIDE - 1].have
    && now - slots[INSIDE - 1].ms <= STALE_MS && now - slots[OUTSIDE - 1].ms <= STALE_MS
  }

  /** A fresh pair, and a label the picker vouches for: the first of the two standings is read. */
  function Pair(l: Link, pick: Option<nat>): Link
    requires l.rx.Stored?
  {
    if !HasPair(l.slots, l.rx.now) || pick.None? then l.(rx := Quiet)
    else l.(rx := ReadIn(pick.value, l.rx.now, l.slots[INSIDE - 1].nonceOk, l.slots[INSIDE - 1].swept))
  }

  function ThresholdOf(slots: seq<Slot>, hash: nat, now: int): Option<Tuple> {
    if |slots| >= THRESHOLD && slots[THRESHOLD - 1].have && now - slots[THRESHOLD - 1].ms <= STALE_MS
    then Find(slots[THRESHOLD - 1].msg, hash) else None
  }

  function WindowOf(l: Link): Window
    requires l.rx.ReadIn? && |l.slots| >= OUTSIDE
  {
    var inner, outer, hash := l.slots[INSIDE - 1], l.slots[OUTSIDE - 1], l.rx.hash;
    Window(|l.windows| + 1, l.rx.now, l.rangeMm, hash, Find(inner.msg, hash), Find(outer.msg, hash),
           ThresholdOf(l.slots, hash, l.rx.now), !l.rx.ok || !outer.nonceOk, l.nonce, l.Epoch(),
           Basis(inner.id, inner.stored, l.rx.swept), Basis(outer.id, outer.stored, outer.swept))
  }

  /** The other standing is read, the window published, and the pair used up. */
  function Publish(l: Link): Link
    requires l.rx.ReadIn?
  {
    if |l.slots| < OUTSIDE then l.(rx := Quiet)
    else
      l.(windows := l.windows + [WindowOf(l)], rx := Quiet,
         slots := l.slots[INSIDE - 1 := l.slots[INSIDE - 1].(have := false)]
                         [OUTSIDE - 1 := l.slots[OUTSIDE - 1].(have := false)])
  }

  function RxStep(l: Link, pick: Option<nat>): Link {
    match l.rx
    case Quiet => l
    case Judged(_, _, _) => StoreStanding(l)
    case Stored(_) => Pair(l, pick)
    case ReadIn(_, _, _, _) => Publish(l)
  }

  // ----- the main loop

  function Session(l: Link, up: bool, now: int): Link {
    if up == l.session || !l.main.Resting? then l else l.(session := up, main := Drawing(now))
  }

  /** `period` is the configured life of a challenge. */
  function Tick(l: Link, period: int, now: int): Link {
    if !l.session || now - l.nonceMs < period || !l.main.Resting? then l else l.(main := Drawing(now))
  }

  /** A zero is drawn again, but has been the challenge meanwhile. */
  function MainStep(l: Link, draw: nat): Link {
    match l.main
    case Resting => l
    case Drawing(now) =>
      var drawn := l.(nonce := draw, draws := l.draws + [draw]);
      if draw == 0 then drawn else drawn.(nonceMs := now, main := Clearing(0))
    case Clearing(i) =>
      if i >= |l.slots| then l.(main := Resting)
      else l.(slots := l.slots[i := l.slots[i].(nonceOk := false, swept := l.Epoch())], main := Clearing(i + 1))
  }

  datatype Event =
    | Receives(opens: seq<bool>, decoded: Option<Report>, now: int)
    | RxGoesOn(pick: Option<nat>)
    | SessionIs(up: bool, now: int)
    | Ticks(period: int, now: int)
    | MainGoesOn(draw: nat)
    | Ranges(mm: int)

  function Step(l: Link, e: Event): Link {
    match e
    case Receives(opens, decoded, now) => Accept(l, opens, decoded, now)
    case RxGoesOn(pick) => RxStep(l, pick)
    case SessionIs(up, now) => Session(l, up, now)
    case Ticks(period, now) => Tick(l, period, now)
    case MainGoesOn(draw) => MainStep(l, draw)
    case Ranges(mm) => l.(rangeMm := mm)
  }

  const NO_REPORT := Report(0, 0, 0, 0, map[])

  function Enrolled(keys: seq<bool>): seq<Slot> {
    seq(|keys|, i requires 0 <= i < |keys| => Slot(keys[i], Unseen, NO_REPORT, 0, false, false, 0, 0, 0))
  }

  /** After start-up: one slot per configured role, some with keys, and a first challenge. */
  function Initial(keys: seq<bool>, draw: challenge, now: int): Link {
    Link(Enrolled(keys), draw, now, false, -1, Quiet, Resting, [draw], [], [])
  }

  function Run(start: Link, events: seq<Event>): Link {
    if events == [] then start
    else Step(Run(start, events[..|events| - 1]), events[|events| - 1])
  }

  // ----- what every run keeps

  /** At its compare the report echoed the challenge of that moment. */
  predicate Passed(a: Acceptance, draws: seq<nat>) {
    a.epoch < |draws| && a.msg.echo == draws[a.epoch] && draws[a.epoch] != 0
  }

  predicate Clocked(l: Link) {
    && l.draws != [] && l.nonce == l.draws[|l.draws| - 1]
    && (forall a <- l.log :: a.epoch < |l.draws|)
  }

  /** Which slots the roll of the current challenge has swept. */
  predicate Sweeps(l: Link) {
    match l.main
    case Resting => forall i :: 0 <= i < |l.slots| ==> l.slots[i].swept == l.Epoch()
    case Drawing(_) => forall i :: 0 <= i < |l.slots| ==> l.slots[i].swept <= l.Epoch()
    case Clearing(n) =>
      forall i :: 0 <= i < |l.slots| ==>
        if i < n then l.slots[i].swept == l.Epoch() else l.slots[i].swept < l.Epoch()
  }

  predicate KeptTrue(s: Slot, role: nat, log: seq<Acceptance>) {
    s.id < |log| && log[s.id].msg == s.msg && log[s.id].ms == s.ms && s.msg.role == role
  }

  /** A kept report is the accepted one it says it is, in good standing if it passed and was not swept since. */
  predicate SlotTrue(s: Slot, role: nat, l: Link) {
    s.stored <= s.swept &&
    (s.have ==>
      && KeptTrue(s, role, l.log)
      && ((l.rx.Judged? && l.rx.role == role) || (s.nonceOk <==> Passed(l.log[s.id], l.draws) && s.stored == s.swept)))
  }

  predicate SlotsTrue(l: Link) {
    forall i :: 0 <= i < |l.slots| ==> SlotTrue(l.slots[i], i + 1, l)
  }

  predicate RxTrue(l: Link) {
    match l.rx
    case Judged(role, ok, _) =>
      && INSIDE <= role <= |l.slots| && l.slots[role - 1].have
      && l.slots[role - 1].id < |l.log| && ok == Passed(l.log[l.slots[role - 1].id], l.draws)
    case ReadIn(_, now, ok, swept) =>
      && HasPair(l.slots, now)
      && var s := l.slots[INSIDE - 1];
         s.stored <= swept <= l.Epoch() && s.id < |l.log|
         && (ok <==> Passed(l.log[s.id], l.draws) && s.stored == swept)
    case _ => true
  }

  /** The report a window rests on: accepted in its role, at most 4000 ms before. */
  predicate Rests(b: Basis, role: nat, w: Window, log: seq<Acceptance>) {
    && b.id < |log| && log[b.id].msg.role == role && w.now - log[b.id].ms <= 4000
    && b.stored <= b.swept <= w.epoch && log[b.id].epoch <= w.epoch
  }

  /** A roll swept the slot between the store of the standing and its being read. */
  predicate Swept(b: Basis) {
    b.stored < b.swept
  }

  /** What a window says and what it rests on. */
  predicate WindowTrue(w: Window, draws: seq<nat>, log: seq<Acceptance>) {
    && w.epoch < |draws| && w.challenge == draws[w.epoch]
    && Rests(w.inner, INSIDE, w, log) && Rests(w.outer, OUTSIDE, w, log)
    && w.inside == Find(log[w.inner.id].msg, w.hash) && w.outside == Find(log[w.outer.id].msg, w.hash)
    && (!w.degraded <==> && Passed(log[w.inner.id], draws) && !Swept(w.inner)
                         && Passed(log[w.outer.id], draws) && !Swept(w.outer))
  }

  predicate WindowsTrue(l: Link) {
    forall k :: 0 <= k < |l.windows| ==> WindowTrue(l.windows[k], l.draws, l.log)
  }

  /** Later windows rest on later reports, and a report still kept is later than all that were used. */
  predicate UsedOnce(l: Link) {
    && (forall j, k :: 0 <= j < k < |l.windows| ==>
          l.windows[j].inner.id < l.windows[k].inner.id && l.windows[j].outer.id < l.windows[k].outer.id)
    && (|l.slots| >= OUTSIDE ==> forall k :: 0 <= k < |l.windows| ==>
          && (l.slots[INSIDE - 1].have ==> l.windows[k].inner.id < l.slots[INSIDE - 1].id)
          && (l.slots[OUTSIDE - 1].have ==> l.windows[k].outer.id < l.slots[OUTSIDE - 1].id))
  }

  predicate Inv(l: Link) {
    Clocked(l) && Sweeps(l) && SlotsTrue(l) && RxTrue(l) && WindowsTrue(l) && UsedOnce(l)
  }

  lemma InitialInv(keys: seq<bool>, draw: challenge, now: int)
    ensures Inv(Initial(keys, draw, now))
  {
  }

  lemma MoreLog(w: Window, draws: seq<nat>, log: seq<Acceptance>, a: Acceptance)
    requires WindowTrue(w, draws, log)
    ensures WindowTrue(w, draws, log + [a])
  {
  }

  lemma MoreDraws(w: Window, draws: seq<nat>, log: seq<Acceptance>, draw: nat)
    requires WindowTrue(w, draws, log) && (forall a <- log :: a.epoch < |draws|)
    ensures WindowTrue(w, draws + [draw], log)
  {
  }

  lemma KeepKeeps(l: Link, msg: Report, now: int)
    requires Inv(l) && l.rx.Quiet? && Admits(l.slots, msg)
    ensures Inv(Keep(l, msg, now))
  {
    var l' := Keep(l, msg, now);
    assert WindowsTrue(l') by {
      hide WindowTrue;
      forall k | 0 <= k < |l.windows|
        ensures WindowTrue(l'.windows[k], l'.draws, l'.log)
      {
        MoreLog(l.windows[k], l.draws, l.log, Acceptance(msg, now, l.Epoch()));
      }
    }
    assert UsedOnce(l') by {
      forall k | 0 <= k < |l.windows|
        ensures l.windows[k].inner.id < |l.log| && l.windows[k].outer.id < |l.log|
      {
        assert WindowTrue(l.windows[k], l.draws, l.log);
      }
    }
    hide WindowTrue, UsedOnce;
    assert SlotsTrue(l') by {
      forall i | 0 <= i < |l.slots|
        ensures SlotTrue(l'.slots[i], i + 1, l')
      {
        assert SlotTrue(l.slots[i], i + 1, l);
      }
    }
  }

  lemma StoreKeeps(l: Link)
    requires Inv(l) && l.rx.Judged?
    ensures Inv(StoreStanding(l))
  {
    hide WindowTrue, Passed;
    var l' := StoreStanding(l);
    forall i | 0 <= i < |l.slots|
      ensures SlotTrue(l'.slots[i], i + 1, l')
    {
      assert SlotTrue(l.slots[i], i + 1, l);
    }
  }

  lemma PairKeeps(l: Link, pick: Option<nat>)
    requires Inv(l) && l.rx.Stored?
    ensures Inv(Pair(l, pick))
  {
    hide WindowTrue, Passed;
    var l' := Pair(l, pick);
    forall i | 0 <= i < |l.slots|
      ensures SlotTrue(l'.slots[i], i + 1, l')
    {
      assert SlotTrue(l.slots[i], i + 1, l);
    }
    if l'.rx.ReadIn? {
      assert SlotTrue(l.slots[INSIDE - 1], INSIDE, l);
    }
  }

  lemma NewWindowTrue(l: Link)
    requires Inv(l) && l.rx.ReadIn?
    ensures |l.slots| >= OUTSIDE && WindowTrue(WindowOf(l), l.draws, l.log)
  {
    hide Passed, UsedOnce, WindowsTrue;
    assert SlotTrue(l.slots[INSIDE - 1], INSIDE, l);
    assert SlotTrue(l.slots[OUTSIDE - 1], OUTSIDE, l);
  }

  lemma PublishKeeps(l: Link)
    requires Inv(l) && l.rx.ReadIn?
    ensures Inv(Publish(l))
  {
    hide WindowTrue, Passed;
    NewWindowTrue(l);
    var l' := Publish(l);
    forall i | 0 <= i < |l.slots|
      ensures SlotTrue(l'.slots[i], i + 1, l')
    {
      assert SlotTrue(l.slots[i], i + 1, l);
    }
  }

  lemma DrawKeeps(l: Link, draw: nat)
    requires Inv(l) && l.main.Drawing?
    ensures Inv(MainStep(l, draw))
  {
    var l' := MainStep(l, draw);
    assert WindowsTrue(l') by {
      hide WindowTrue;
      forall k | 0 <= k < |l.windows|
        ensures WindowTrue(l'.windows[k], l'.draws, l'.log)
      {
        MoreDraws(l.windows[k], l.draws, l.log, draw);
      }
    }
    hide WindowTrue, UsedOnce;
    assert SlotsTrue(l') by {
      forall i | 0 <= i < |l.slots|
        ensures SlotTrue(l'.slots[i], i + 1, l')
      {
        assert SlotTrue(l.slots[i], i + 1, l);
      }
    }
  }

  lemma SweepSlots(l: Link, draw: nat)
    requires Inv(l) && l.main.Clearing?
    ensures SlotsTrue(MainStep(l, draw)) && Sweeps(MainStep(l, draw))
  {
    hide WindowsTrue, Passed, UsedOnce, RxTrue;
    var l' := MainStep(l, draw);
    forall i | 0 <= i < |l.slots|
      ensures SlotTrue(l'.slots[i], i + 1, l')
    {
      assert SlotTrue(l.slots[i], i + 1, l);
    }
  }

  lemma SweepKeeps(l: Link, draw: nat)
    requires Inv(l) && l.main.Clearing?
    ensures Inv(MainStep(l, draw))
  {
    hide WindowTrue, Passed, SlotsTrue, Sweeps;
    SweepSlots(l, draw);
  }

  /** What neither thread's history depends on. */
  lemma OthersKeep(l: Link, e: Event)
    requires Inv(l) && (e.SessionIs? || e.Ticks? || e.Ranges?)
    ensures Inv(Step(l, e))
  {
    hide WindowTrue, Passed, KeptTrue;
    var l' := Step(l, e);
    forall i | 0 <= i < |l.slots|
      ensures SlotTrue(l'.slots[i], i + 1, l')
    {
      assert SlotTrue(l.slots[i], i + 1, l);
    }
  }

  lemma StepKeeps(l: Link, e: Event)
    requires Inv(l)
    ensures Inv(Step(l, e))
  {
    hide Inv, Keep, StoreStanding, Pair, Publish, Opened;
    match e
    case Receives(opens, decoded, now) =>
      if l.rx.Quiet? && Opened(l.slots, opens) && decoded.Some? && Admits(l.slots, decoded.value) {
        KeepKeeps(l, decoded.value, now);
      }
    case RxGoesOn(pick) =>
      match l.rx {
        case Quiet =>
        case Judged(_, _, _) => StoreKeeps(l);
        case Stored(_) => PairKeeps(l, pick);
        case ReadIn(_, _, _, _) => PublishKeeps(l);
      }
    case MainGoesOn(draw) =>
      match l.main {
        case Resting =>
        case Drawing(_) => DrawKeeps(l, draw);
        case Clearing(_) => SweepKeeps(l, draw);
      }
    case _ => OthersKeep(l, e);
  }

  lemma {:induction false} RunInv(start: Link, events: seq<Event>)
    requires Inv(start)
    ensures Inv(Run(start, events))
  {
    hide Inv, Step;
    if events != [] {
      RunInv(start, events[..|events| - 1]);
      StepKeeps(Run(start, events[..|events| - 1]), events[|events| - 1]);
    }
  }

  lemma Extend(start: Link, events: seq<Event>, e: Event)
    ensures Run(start, events + [e]) == Step(Run(start, events), e)
  {
    assert (events + [e])[..|events|] == events;
  }

  // ----- with nothing in between

  /** A datagram received and worked through. */
  function Receive(l: Link, opens: seq<bool>, decoded: Option<Report>, pick: Option<nat>, now: int): Link {
    RxStep(RxStep(RxStep(Accept(l, opens, decoded, now), pick), pick), pick)
  }

  function SweptTo(slots: seq<Slot>, n: nat, epoch: nat): seq<Slot> {
    seq(|slots|, i requires 0 <= i < |slots| => if i < n then slots[i].(nonceOk := false, swept := epoch) else slots[i])
  }

  function ZeroDraws(n: nat): seq<nat> {
    if n == 0 then [] else ZeroDraws(n - 1) + [0]
  }

  /** A whole roll, which drew so many zeros first. */
  function Roll(l: Link, zeros: nat, draw: challenge, now: int): Link {
    var drawn := l.(nonce := draw, nonceMs := now, draws := l.draws + ZeroDraws(zeros) + [draw], main := Resting);
    drawn.(slots := SweptTo(l.slots, |l.slots|, drawn.Epoch()))
  }

  function MainSteps(l: Link, draw: nat, n: nat): Link {
    if n == 0 then l else MainStep(MainSteps(l, draw, n - 1), draw)
  }

  lemma {:induction false} DrawsZeros(l: Link, zeros: nat)
    requires l.main.Drawing?
    ensures var r := MainSteps(l, 0, zeros);
            r == l.(nonce := r.nonce, draws := l.draws + ZeroDraws(zeros))
  {
    if zeros == 0 {
      assert l.draws + [] == l.draws;
    } else {
      DrawsZeros(l, zeros - 1);
      assert l.draws + ZeroDraws(zeros - 1) + [0] == l.draws + ZeroDraws(zeros);
    }
  }

  lemma {:induction false} SweepsInTurn(l: Link, draw: nat, n: nat)
    requires l.main == Clearing(0) && n <= |l.slots|
    ensures MainSteps(l, draw, n) == l.(slots := SweptTo(l.slots, n, l.Epoch()), main := Clearing(n))
  {
    if n == 0 {
      assert SweptTo(l.slots, 0, l.Epoch()) == l.slots;
    } else {
      SweepsInTurn(l, draw, n - 1);
      var before := SweptTo(l.slots, n - 1, l.Epoch());
      assert before[n - 1 := before[n - 1].(nonceOk := false, swept := l.Epoch())] == SweptTo(l.slots, n, l.Epoch());
    }
  }

  /** The single accesses of an undisturbed roll add up to one roll. */
  lemma WholeRoll(l: Link, zeros: nat, draw: challenge, now: int)
    requires l.main.Resting?
    ensures var drawn := MainStep(MainSteps(l.(main := Drawing(now)), 0, zeros), draw);
            MainSteps(drawn, draw, |l.slots| + 1) == Roll(l, zeros, draw, now)
  {
    hide ZeroDraws;
    var start := l.(main := Drawing(now));
    DrawsZeros(start, zeros);
    var drawn := MainStep(MainSteps(start, 0, zeros), draw);
    assert drawn.main == Clearing(0);
    SweepsInTurn(drawn, draw, |l.slots|);
  }
}
