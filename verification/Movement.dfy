/**
 The movement filter: a noisy velocity becomes APPROACHING, LEAVING or STATIONARY, and a
 report changes only once the new class has been confirmed.
 */
module Movement {
  import opened Options

  const ENTER_CM_S := 20
  const STATIONARY_CM_S := 8
  const CONFIRM_SAMPLES := 2
  const HOLD_MS := 300
  const STATIONARY_MS := 500

  datatype Motion = Unknown | Approaching | Leaving | Stationary

  datatype Sample = Sample(velocity: int, now: int)

  datatype Filter = Filter(state: Motion, candidate: Motion, samples: nat, since: int, holdUntil: int)

  const RESET := Filter(Unknown, Unknown, 0, 0, 0)

  /** The class of a velocity; between the two thresholds it has none. */
  function Class(velocity: int): Option<Motion> {
    if velocity >= ENTER_CM_S then Some(Approaching)
    else if velocity <= -ENTER_CM_S then Some(Leaving)
    else if -STATIONARY_CM_S <= velocity <= STATIONARY_CM_S then Some(Stationary)
    else None
  }

  function Dwell(m: Motion): nat {
    if m.Stationary? then STATIONARY_MS else 0
  }

  /** The filter as the source keeps it, changed in place by every sample. */
  class MovementFilter {
    var f: Filter
    ghost var history: seq<Sample>

    ghost predicate Valid()
      reads this
    {
      f == Filtered(history)
    }

    constructor ()
      ensures Valid() && history == []
    {
      f := RESET;
      history := [];
    }

    method Reset()
      modifies this
      ensures Valid() && history == []
    {
      f := RESET;
      history := [];
    }

    method Update(velocity: int, now: int) returns (reported: Motion)
      requires Valid()
      modifies this
      ensures Valid() && history == old(history) + [Sample(velocity, now)]
      ensures reported == Reported(history)
    {
      hide Class;
      history := history + [Sample(velocity, now)];
      assert history[..|history| - 1] == old(history);
      var c := Class(velocity);
      if c.None? || c.value == f.state {
        f := f.(candidate := f.state, samples := 0, since := now);
        return f.state;
      }
      var candidate := c.value;
      if candidate != f.candidate {
        f := f.(candidate := candidate, samples := 1, since := now);
      } else if f.samples < 255 {
        f := f.(samples := f.samples + 1);
      }
      if f.samples >= CONFIRM_SAMPLES && now >= f.holdUntil && now - f.since >= Dwell(candidate) {
        f := f.(state := candidate, samples := 0, holdUntil := now + HOLD_MS);
      }
      return f.state;
    }
  }

  function Counted(f: Filter, c: Motion, now: int): Filter {
    if c != f.candidate then f.(candidate := c, samples := 1, since := now)
    else if f.samples < 255 then f.(samples := f.samples + 1)
    else f
  }

  function Take(f: Filter, s: Sample): Filter {
    var c := Class(s.velocity);
    if c.None? || c.value == f.state then f.(candidate := f.state, samples := 0, since := s.now)
    else
      var g := Counted(f, c.value, s.now);
      if g.samples >= CONFIRM_SAMPLES && s.now >= g.holdUntil && s.now - g.since >= Dwell(c.value)
      then g.(state := c.value, samples := 0, holdUntil := s.now + HOLD_MS)
      else g
  }

  // ----- the filter read off the samples since the last reset

  function Filtered(h: seq<Sample>): Filter {
    if h == [] then RESET else Take(Filtered(h[..|h| - 1]), h[|h| - 1])
  }

  function Reported(h: seq<Sample>): Motion {
    Filtered(h).state
  }

  predicate Changed(h: seq<Sample>) {
    h != [] && Reported(h) != Reported(h[..|h| - 1])
  }

  function ClassAt(h: seq<Sample>, i: nat): Option<Motion>
    requires i < |h|
  {
    Class(h[i].velocity)
  }

  /** Where the run of samples of the last one's class begins. */
  function RunStart(h: seq<Sample>): (i: nat)
    requires h != []
    ensures i < |h|
  {
    if |h| >= 2 && ClassAt(h, |h| - 2) == ClassAt(h, |h| - 1) then RunStart(h[..|h| - 1]) else |h| - 1
  }

  /** When the hold of the last change ends; 0 before any change. */
  function HeldUntil(h: seq<Sample>): int {
    if h == [] then 0
    else if Changed(h) then h[|h| - 1].now + 300
    else HeldUntil(h[..|h| - 1])
  }

  lemma {:induction false} RunIsMaximal(h: seq<Sample>)
    requires h != []
    ensures forall i :: RunStart(h) <= i < |h| ==> ClassAt(h, i) == ClassAt(h, |h| - 1)
    ensures RunStart(h) > 0 ==> ClassAt(h, RunStart(h) - 1) != ClassAt(h, |h| - 1)
  {
    hide Class;
    if |h| >= 2 && ClassAt(h, |h| - 2) == ClassAt(h, |h| - 1) {
      var p := h[..|h| - 1];
      RunIsMaximal(p);
      assert forall i :: 0 <= i < |p| ==> ClassAt(h, i) == ClassAt(p, i);
    }
  }

  function Capped(n: nat): nat {
    if n < 255 then n else 255
  }

  /** What the filter's fields stand for. */
  predicate Means(h: seq<Sample>, f: Filter) {
    && f.holdUntil == HeldUntil(h)
    && (h == [] ==> f == RESET)
    && (h != [] ==>
          var c := ClassAt(h, |h| - 1);
          if c.Some? && c.value != f.state
          then f.candidate == c.value && f.samples == Capped(|h| - RunStart(h)) && f.since == h[RunStart(h)].now
          else f.candidate == f.state)
  }

  lemma ClassIsKnown(velocity: int)
    ensures Class(velocity) != Some(Unknown)
  {
  }

  /** What it takes to change, in terms of the samples alone. */
  predicate Confirmed(h: seq<Sample>)
    requires h != []
  {
    var c := ClassAt(h, |h| - 1);
    var p := h[..|h| - 1];
    && c.Some? && c.value != Reported(p)
    && |h| - RunStart(h) >= CONFIRM_SAMPLES
    && h[|h| - 1].now - h[RunStart(h)].now >= Dwell(c.value)
    && h[|h| - 1].now >= HeldUntil(p)
  }

  lemma {:induction false} FilterMeans(h: seq<Sample>)
    ensures Means(h, Filtered(h))
    ensures h != [] ==> (Changed(h) <==> Confirmed(h))
    ensures h != [] && Changed(h) ==> ClassAt(h, |h| - 1) == Some(Reported(h))
  {
    hide Class;
    if h != [] {
      var p := h[..|h| - 1];
      FilterMeans(p);
      ClassIsKnown(h[|h| - 1].velocity);
      RunGrows(h);
    }
  }

  lemma RunGrows(h: seq<Sample>)
    requires h != []
    ensures var p := h[..|h| - 1];
            if p != [] && ClassAt(p, |p| - 1) == ClassAt(h, |h| - 1)
            then RunStart(h) == RunStart(p) && h[RunStart(h)] == p[RunStart(p)]
            else RunStart(h) == |h| - 1
  {
    hide Class;
  }

  /** A velocity that speaks for a state: at 20 cm/s and more, or within 8 of rest. */
  predicate Speaks(velocity: int, m: Motion) {
    match m
    case Approaching => velocity >= 20
    case Leaving => velocity <= -20
    case Stationary => -8 <= velocity <= 8
    case Unknown => false
  }

  lemma SpeaksIff(velocity: int, m: Motion)
    ensures Speaks(velocity, m) <==> Class(velocity) == Some(m)
  {
  }

  /** Every sample from `j` on speaks for `m`, over at least 500 ms if that is STATIONARY. */
  predicate RunSince(h: seq<Sample>, j: nat, m: Motion)
    requires j < |h|
  {
    && (forall i :: j <= i < |h| ==> Speaks(h[i].velocity, m))
    && (m.Stationary? ==> h[|h| - 1].now - h[j].now >= 500)
  }

  /** The last two samples or more speak for `m`. */
  predicate Calls(h: seq<Sample>, m: Motion) {
    exists j: nat :: j + 1 < |h| && RunSince(h, j, m)
  }

  /**
   The report changes to a state at a sample if and only if it was another, at least two
   consecutive samples that end there speak for the state, over at least 500 ms if it is
   STATIONARY, and the hold of the last change is over.
   */
  lemma ChangesIff(h: seq<Sample>, m: Motion)
    requires h != [] && NonDecreasing(h)
    ensures Changed(h) && Reported(h) == m <==>
              m != Reported(h[..|h| - 1]) && Calls(h, m) && h[|h| - 1].now >= HeldUntil(h[..|h| - 1])
  {
    hide Class, Changed, Reported;
    FilterMeans(h);
    RunIsMaximal(h);
    ChangedIs(h);
    var last := |h| - 1;
    SpeaksIff(h[last].velocity, m);
    var s := RunStart(h);
    if Confirmed(h) && ClassAt(h, last) == Some(m) {
      RunSpeaks(h, s, m);
      assert RunSince(h, s, m);
    }
    if Calls(h, m) {
      var j: nat :| j + 1 < |h| && RunSince(h, j, m);
      RunWithin(h, j, m);
    }
  }

  lemma ChangedIs(h: seq<Sample>)
    requires h != []
    ensures Changed(h) <==> Reported(h) != Reported(h[..|h| - 1])
    ensures !Changed(h) ==> Reported(h) == Reported(h[..|h| - 1])
  {
  }

  predicate NonDecreasing(h: seq<Sample>) {
    forall i, j :: 0 <= i <= j < |h| ==> h[i].now <= h[j].now
  }

  lemma RunSpeaks(h: seq<Sample>, s: nat, m: Motion)
    requires s < |h| && forall i :: s <= i < |h| ==> ClassAt(h, i) == Some(m)
    ensures forall i :: s <= i < |h| ==> Speaks(h[i].velocity, m)
  {
    hide Class, Speaks;
    forall i | s <= i < |h|
      ensures Speaks(h[i].velocity, m)
    {
      assert ClassAt(h, i) == Some(m);
      SpeaksIff(h[i].velocity, m);
    }
  }

  /** A run that ends with the last sample lies within the longest one. */
  lemma RunWithin(h: seq<Sample>, j: nat, m: Motion)
    requires j < |h| && RunSince(h, j, m)
    ensures ClassAt(h, |h| - 1) == Some(m) && RunStart(h) <= j
  {
    hide Class, Speaks;
    forall i | j <= i < |h|
      ensures ClassAt(h, i) == Some(m)
    {
      SpeaksIff(h[i].velocity, m);
    }
    RunIsMaximal(h);
  }

  /** A change ends at least two samples in a row that speak for the new state, over 500 ms if it is STATIONARY. */
  lemma ChangeEndsRun(h: seq<Sample>)
    requires Changed(h)
    ensures Calls(h, Reported(h))
  {
    hide Class;
    FilterMeans(h);
    RunIsMaximal(h);
    RunSpeaks(h, RunStart(h), Reported(h));
    assert RunSince(h, RunStart(h), Reported(h));
  }

  lemma {:induction false} HoldAfterChange(h: seq<Sample>, i: nat)
    requires i < |h| && Changed(h[..i + 1])
    ensures HeldUntil(h) >= h[i].now + 300
  {
    var p := h[..|h| - 1];
    if i + 1 == |h| {
      assert h[..i + 1] == h;
    } else {
      assert p[..i + 1] == h[..i + 1];
      HoldAfterChange(p, i);
      if Changed(h) {
        FilterMeans(h);
      }
    }
  }

  /** Any two changes between resets are at least 300 ms apart. */
  lemma ChangesApart(h: seq<Sample>, i: nat, j: nat)
    requires i < j < |h| && Changed(h[..i + 1]) && Changed(h[..j + 1])
    ensures h[j].now - h[i].now >= 300
  {
    var q := h[..j + 1];
    FilterMeans(q);
    var p := q[..j];
    assert p[..i + 1] == h[..i + 1];
    HoldAfterChange(p, i);
  }
}
