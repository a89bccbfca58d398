/**
 Which reports the witness link accepts: those that some enrolled key opens, from an
 enrolled role, and newer than the last one accepted from it.
 */
module WitnessReplay {
  import opened Options
  import opened WitnessLink

  /** The place after the last report of a role, 0 if there is none. */
  function LastOf(log: seq<Acceptance>, role: nat): (n: nat)
    ensures n <= |log|
    ensures n > 0 ==> log[n - 1].msg.role == role
    ensures forall k :: n <= k < |log| ==> log[k].msg.role != role
  {
    if log == [] then 0
    else if log[|log| - 1].msg.role == role then |log|
    else LastOf(log[..|log| - 1], role)
  }

  /** No report of the role yet, or the last of another boot, or with a smaller counter. */
  predicate Newer(log: seq<Acceptance>, msg: Report) {
    var n := LastOf(log, msg.role);
    n == 0 || log[n - 1].msg.bootId != msg.bootId || log[n - 1].msg.ctr < msg.ctr
  }

  /** What a slot remembers of the reports of its role. */
  predicate Remembers(s: Slot, role: nat, log: seq<Acceptance>) {
    var n := LastOf(log, role);
    s.seen == if n == 0 then Unseen else SeenAt(log[n - 1].msg.bootId, log[n - 1].msg.ctr)
  }

  predicate AllNewer(log: seq<Acceptance>) {
    forall j :: 0 <= j < |log| ==> Newer(log[..j], log[j].msg)
  }

  predicate SlotsWatch(slots: seq<Slot>, keys: seq<bool>, log: seq<Acceptance>) {
    && |slots| == |keys|
    && forall i :: 0 <= i < |keys| ==> slots[i].provisioned == keys[i] && Remembers(slots[i], i + 1, log)
  }

  predicate Watched(l: Link, keys: seq<bool>) {
    SlotsWatch(l.slots, keys, l.log) && AllNewer(l.log)
  }

  lemma LastOfMore(log: seq<Acceptance>, a: Acceptance, role: nat)
    ensures LastOf(log + [a], role) == if a.msg.role == role then |log| + 1 else LastOf(log, role)
  {
    assert (log + [a])[..|log|] == log;
  }

  lemma AcceptsIff(s: Slot, log: seq<Acceptance>, msg: Report)
    requires Remembers(s, msg.role, log)
    ensures Accepts(s.seen, msg) <==> Newer(log, msg)
  {
  }

  lemma MoreNewer(log: seq<Acceptance>, a: Acceptance)
    requires AllNewer(log) && Newer(log, a.msg)
    ensures AllNewer(log + [a])
  {
    hide Newer;
    var more := log + [a];
    forall j | 0 <= j < |more|
      ensures Newer(more[..j], more[j].msg)
    {
      assert more[..j] == log[..j];
      if j == |log| {
        assert log[..j] == log;
      }
    }
  }

  lemma MoreWatched(slots: seq<Slot>, keys: seq<bool>, log: seq<Acceptance>, a: Acceptance, s: Slot)
    requires SlotsWatch(slots, keys, log) && 1 <= a.msg.role <= |slots|
    requires s.provisioned == keys[a.msg.role - 1] && s.seen == SeenAt(a.msg.bootId, a.msg.ctr)
    ensures SlotsWatch(slots[a.msg.role - 1 := s], keys, log + [a])
  {
    hide LastOf;
    var now := slots[a.msg.role - 1 := s];
    forall i | 0 <= i < |now|
      ensures Remembers(now[i], i + 1, log + [a])
    {
      LastOfMore(log, a, i + 1);
      assert Remembers(slots[i], i + 1, log);
    }
  }

  lemma KeepWatches(l: Link, keys: seq<bool>, msg: Report, now: int)
    requires Watched(l, keys) && Admits(l.slots, msg)
    ensures Watched(Keep(l, msg, now), keys)
  {
    hide Accepts, Newer, AllNewer;
    var a := Acceptance(msg, now, l.Epoch());
    AcceptsIff(l.slots[msg.role - 1], l.log, msg);
    MoreNewer(l.log, a);
    hide SlotsWatch;
    MoreWatched(l.slots, keys, l.log, a, Keep(l, msg, now).slots[msg.role - 1]);
  }

  /** Nothing else touches what the slots remember. */
  lemma OthersLeave(l: Link, e: Event)
    requires !e.Receives?
    ensures var l' := Step(l, e);
            && l'.log == l.log && |l'.slots| == |l.slots|
            && forall i :: 0 <= i < |l.slots| ==>
                 l'.slots[i].seen == l.slots[i].seen && l'.slots[i].provisioned == l.slots[i].provisioned
  {
  }

  lemma StepWatches(l: Link, keys: seq<bool>, e: Event)
    requires Watched(l, keys)
    ensures Watched(Step(l, e), keys)
  {
    hide Accepts, AllNewer, Opened, LastOf, Keep;
    if e.Receives? {
      if l.rx.Quiet? && Opened(l.slots, e.opens) && e.decoded.Some? && Admits(l.slots, e.decoded.value) {
        KeepWatches(l, keys, e.decoded.value, e.now);
      }
    } else {
      OthersLeave(l, e);
      hide Step;
    }
  }

  lemma {:induction false} RunWatches(keys: seq<bool>, draw: challenge, now: int, events: seq<Event>)
    ensures Watched(Run(Initial(keys, draw, now), events), keys)
  {
    if events != [] {
      hide Watched, Step;
      RunWatches(keys, draw, now, events[..|events| - 1]);
      StepWatches(Run(Initial(keys, draw, now), events[..|events| - 1]), keys, events[|events| - 1]);
    }
  }

  lemma LastIs(log: seq<Acceptance>, i: nat, role: nat)
    requires i < |log| && log[i].msg.role == role && forall k :: i < k < |log| ==> log[k].msg.role != role
    ensures LastOf(log, role) == i + 1
  {
  }

  /**
   In every run: of two accepted reports of one role and one boot, with no other of that role
   between them, the later has the larger counter.
   */
  lemma CountersGrow(keys: seq<bool>, draw: challenge, now: int, events: seq<Event>, i: nat, j: nat)
    requires var log := Run(Initial(keys, draw, now), events).log;
             && i < j < |log| && log[i].msg.role == log[j].msg.role && log[i].msg.bootId == log[j].msg.bootId
             && forall k :: i < k < j ==> log[k].msg.role != log[j].msg.role
    ensures var log := Run(Initial(keys, draw, now), events).log; log[i].msg.ctr < log[j].msg.ctr
  {
    RunWatches(keys, draw, now, events);
    hide Run;
    var log := Run(Initial(keys, draw, now), events).log;
    LastIs(log[..j], i, log[j].msg.role);
    assert Newer(log[..j], log[j].msg);
  }

  /** Some accepted report of the role between two places came of another boot. */
  predicate Rebooted(log: seq<Acceptance>, i: nat, j: nat)
    requires i < j < |log|
  {
    exists k :: i < k < j && log[k].msg.role == log[i].msg.role && log[k].msg.bootId != log[i].msg.bootId
  }

  lemma LastNewer(before: seq<Acceptance>, msg: Report, i: nat) returns (m: nat)
    requires i < |before| && before[i].msg.role == msg.role && Newer(before, msg)
    ensures i <= m < |before| && before[m].msg.role == msg.role
    ensures before[m].msg.bootId == msg.bootId ==> before[m].msg.ctr < msg.ctr
  {
    m := LastOf(before, msg.role) - 1;
  }

  /** The report of the role before the one at `j`, given one at `i`. */
  lemma Previous(log: seq<Acceptance>, i: nat, j: nat) returns (m: nat)
    requires i < j < |log| && log[i].msg.role == log[j].msg.role && AllNewer(log)
    ensures i <= m < j && log[m].msg.role == log[j].msg.role
    ensures log[m].msg.bootId == log[j].msg.bootId ==> log[m].msg.ctr < log[j].msg.ctr
  {
    hide Newer;
    assert Newer(log[..j], log[j].msg);
    m := LastNewer(log[..j], log[j].msg, i);
  }

  lemma {:induction false} GrowsTo(log: seq<Acceptance>, i: nat, j: nat)
    requires i < j < |log| && AllNewer(log)
    requires log[i].msg.role == log[j].msg.role && log[i].msg.bootId == log[j].msg.bootId && !Rebooted(log, i, j)
    ensures log[i].msg.ctr < log[j].msg.ctr
    decreases j
  {
    hide AllNewer, Rebooted;
    var m := Previous(log, i, j);
    if m > i {
      NotRebooted(log, i, m, j);
      GrowsTo(log, i, m);
    }
  }

  lemma NotRebooted(log: seq<Acceptance>, i: nat, m: nat, j: nat)
    requires i < m < j < |log| && !Rebooted(log, i, j) && log[m].msg.role == log[i].msg.role
    ensures !Rebooted(log, i, m) && log[m].msg.bootId == log[i].msg.bootId
  {
  }

  /** The same report is accepted twice only if one of another boot came in between. */
  lemma ReplayNeedsReboot(keys: seq<bool>, draw: challenge, now: int, events: seq<Event>, i: nat, j: nat)
    requires var log := Run(Initial(keys, draw, now), events).log; i < j < |log| && log[i].msg == log[j].msg
    ensures Rebooted(Run(Initial(keys, draw, now), events).log, i, j)
  {
    RunWatches(keys, draw, now, events);
    hide Run;
    var log := Run(Initial(keys, draw, now), events).log;
    if !Rebooted(log, i, j) {
      GrowsTo(log, i, j);
    }
  }

  /**
   In every reachable state with the callback at rest: a datagram is accepted, and as what
   it says, if and only if some enrolled key opens it and what it says is a report of an
   enrolled role, newer than the last accepted from it.
   */
  lemma AcceptedIff(keys: seq<bool>, draw: challenge, now: int, events: seq<Event>,
                    opens: seq<bool>, decoded: Option<Report>, at: int)
    requires Run(Initial(keys, draw, now), events).rx.Quiet?
    ensures var l := Run(Initial(keys, draw, now), events);
            var l' := Step(l, Receives(opens, decoded, at));
            var good := && (exists i :: 0 <= i < |keys| && i < |opens| && keys[i] && opens[i])
                        && decoded.Some? && 1 <= decoded.value.role <= |keys| && keys[decoded.value.role - 1]
                        && Newer(l.log, decoded.value);
            if good then l'.log == l.log + [Acceptance(decoded.value, at, l.Epoch())] else l' == l
  {
    RunWatches(keys, draw, now, events);
    hide Run, Newer, Accepts;
    var l := Run(Initial(keys, draw, now), events);
    assert Opened(l.slots, opens) <==> exists i :: 0 <= i < |keys| && i < |opens| && keys[i] && opens[i] by {
      hide Watched;
      OpenedIff(l, keys, opens);
    }
    if decoded.Some? && 1 <= decoded.value.role <= |keys| {
      AcceptsIff(l.slots[decoded.value.role - 1], l.log, decoded.value);
    }
  }

  lemma OpenedIff(l: Link, keys: seq<bool>, opens: seq<bool>)
    requires Watched(l, keys)
    ensures Opened(l.slots, opens) <==> exists i :: 0 <= i < |keys| && i < |opens| && keys[i] && opens[i]
  {
    hide Newer;
    if Opened(l.slots, opens) {
      var i :| 0 <= i < |l.slots| && i < |opens| && l.slots[i].provisioned && opens[i];
      assert keys[i] && opens[i];
    }
    if i :| 0 <= i < |keys| && i < |opens| && keys[i] && opens[i] {
      assert l.slots[i].provisioned && opens[i];
    }
  }
}
