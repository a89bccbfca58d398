/**
 Whom the bound-lock client talks to: the first binding whose fabric is held, by the first
 slot that carries its index, and in every run a command goes only where a binding said.
 */
module MatterTarget {
  import opened Options
  import opened ClientSchedule
  import opened MatterMachine
  import opened MatterSafety

  /** Slot `k` is the first with this index; index 0 names no fabric. */
  predicate FirstSlot(fabrics: seq<Fabric>, index: nat, k: nat) {
    index != 0 && k < |fabrics| && fabrics[k].index == index && forall j :: 0 <= j < k ==> fabrics[j].index != index
  }

  lemma {:induction false} SlotFromIff(fabrics: seq<Fabric>, index: nat, i: nat, k: nat)
    requires i <= |fabrics| && forall j :: 0 <= j < i ==> fabrics[j].index != index
    ensures SlotFrom(fabrics, index, i) == Some(k)
            <==> i <= k < |fabrics| && fabrics[k].index == index && forall j :: 0 <= j < k ==> fabrics[j].index != index
    decreases |fabrics| - i
  {
    if i < |fabrics| && fabrics[i].index != index {
      SlotFromIff(fabrics, index, i + 1, k);
    }
  }

  lemma SlotIff(fabrics: seq<Fabric>, index: nat, k: nat)
    ensures SlotOf(fabrics, index) == Some(k) <==> FirstSlot(fabrics, index, k)
  {
    SlotFromIff(fabrics, index, 0, k);
    if k < |fabrics| && SlotOf(fabrics, index).Some? {
      SlotFromFinds(fabrics, index, 0);
    }
  }

  /** The slot is the one its index names, holds a credential, and belongs to fabric `id`. */
  lemma HeldIff(info: Info, slot: nat, id: nat)
    ensures Held(info, slot, id)
            <==> && slot < |info.fabrics| && FirstSlot(info.fabrics, info.fabrics[slot].index, slot)
                 && info.fabrics[slot].nocLen != 0 && info.fabrics[slot].id == id
  {
    hide SlotOf;
    if slot < |info.fabrics| {
      SlotIff(info.fabrics, info.fabrics[slot].index, slot);
    }
  }

  /** A binding can be served from slot `k`. */
  predicate Serves(info: Info, t: Target, k: nat) {
    && FirstSlot(info.fabrics, t.fabricIndex, k)
    && info.fabrics[k].nocLen != 0 && info.fabrics[k].derives
  }

  lemma UsableIff(info: Info, t: Target)
    ensures Usable(info, t) <==> exists k :: Serves(info, t, k)
  {
    hide FirstSlot, SlotOf;
    var slot := SlotOf(info.fabrics, t.fabricIndex);
    if slot.Some? {
      SlotIff(info.fabrics, t.fabricIndex, slot.value);
    }
    if k :| Serves(info, t, k) {
      SlotIff(info.fabrics, t.fabricIndex, k);
      SlotBound(info.fabrics, t.fabricIndex, k);
    }
    if Usable(info, t) {
      assert Serves(info, t, slot.value);
    }
  }

  lemma SlotBound(fabrics: seq<Fabric>, index: nat, k: nat)
    requires FirstSlot(fabrics, index, k)
    ensures k < |fabrics|
  {
  }

  ghost predicate NoneServed(info: Info, before: nat)
    requires before <= |info.targets|
  {
    forall j, k :: 0 <= j < before ==> !Serves(info, info.targets[j], k)
  }

  lemma {:induction false} FirstServed(info: Info, i: nat, j: nat, k: nat)
    requires i <= j < |info.targets| && NoneServed(info, j) && Serves(info, info.targets[j], k)
    ensures FirstUsable(info, i) == Some(info.targets[j])
    decreases j - i
  {
    hide Usable, Serves;
    UsableIff(info, info.targets[i]);
    if i < j {
      FirstServed(info, i + 1, j, k);
    }
  }

  lemma {:induction false} NobodyServed(info: Info, i: nat)
    requires i <= |info.targets| && NoneServed(info, |info.targets|)
    ensures FirstUsable(info, i) == None
    decreases |info.targets| - i
  {
    hide Usable, Serves;
    if i < |info.targets| {
      UsableIff(info, info.targets[i]);
      NobodyServed(info, i + 1);
    }
  }

  /** The binding's endpoint, or 1 if it names none. */
  function EndpointOf(t: Target): nat {
    if t.endpoint.Some? then t.endpoint.value else 1
  }

  /** The first binding that can be served is chosen, with its own node and endpoint. */
  lemma ChoosesFirst(s: State, j: nat, k: nat)
    requires j < |s.info.targets| && NoneServed(s.info, j) && Serves(s.info, s.info.targets[j], k)
    ensures var t := s.info.targets[j];
            Choose(s) == (s.(peer := Peer(Some(k), s.info.fabrics[k].id, t.node, EndpointOf(t), s.peer.located)), true)
  {
    var t := s.info.targets[j];
    FirstServed(s.info, 0, j, k);
    UsableIff(s.info, t);
    SlotIff(s.info.fabrics, t.fabricIndex, k);
  }

  /** If none can be served, none is. */
  lemma ChoosesNone(s: State)
    requires NoneServed(s.info, |s.info.targets|)
    ensures Choose(s) == (s, false)
  {
    NobodyServed(s.info, 0);
  }

  // ----- where commands go

  /** Every table the run has had. */
  function Infos(info: Info, events: seq<Event>): seq<Info> {
    if events == [] then [info]
    else
      var e := events[|events| - 1];
      Infos(info, events[..|events| - 1]) + if e.Tables? then [e.info] else []
  }

  predicate Binds(info: Info, node: nat, endpoint: nat) {
    exists t <- info.targets :: t.node == node && EndpointOf(t) == endpoint
  }

  predicate EverBound(infos: seq<Info>, node: nat, endpoint: nat) {
    exists info <- infos :: Binds(info, node, endpoint)
  }

  predicate PeerBound(p: Peer, infos: seq<Info>) {
    p.fabric.Some? ==> EverBound(infos, p.node, p.endpoint)
  }

  lemma {:induction false} FirstUsableListed(info: Info, i: nat)
    requires i <= |info.targets|
    ensures FirstUsable(info, i).Some? ==> FirstUsable(info, i).value in info.targets
    decreases |info.targets| - i
  {
    hide Usable;
    if i < |info.targets| && !Usable(info, info.targets[i]) {
      FirstUsableListed(info, i + 1);
    }
  }

  /** Choosing takes node and endpoint from the table in force. */
  lemma ChosenBound(s: State)
    ensures var (c, ok) := Choose(s);
            if ok then Binds(s.info, c.peer.node, c.peer.endpoint) else c == s
  {
    hide Usable;
    FirstUsableListed(s.info, 0);
    FirstUsableIs(s.info, 0);
  }

  /** A peer is kept, forgotten or chosen from the table in force. */
  predicate PeerFrom(p: Peer, before: Peer, info: Info) {
    || p.fabric.None?
    || (p.fabric == before.fabric && p.node == before.node && p.endpoint == before.endpoint)
    || Binds(info, p.node, p.endpoint)
  }

  lemma ActPeer(s: State, action: Action, now: ms, c: PollChoices)
    ensures var (r, _) := Act(s, action, now, c); PeerFrom(r.peer, s.peer, s.info) && r.info == s.info
  {
    hide Held, SlotOf, FirstUsable, Usable, Choose, Binds, BackoffMs, Later;
    ChosenBound(s);
    ChosenIsHeld(s);
  }

  lemma PollOnPeer(s: State, now: ms, c: PollChoices)
    ensures PeerFrom(PollOn(s, now, c).s.peer, s.peer, s.info)
  {
    hide Held, Act, Poll, Binds, BackoffMs, Later;
    var (sm, action) := Poll(s.sm, now);
    ActPeer(s.(sm := sm), action, now, c);
  }

  lemma PollPeer(s: State, now: ms, c: PollChoices)
    ensures PeerFrom(PollStep(s, now, c).s.peer, s.peer, s.info)
  {
    hide Held, PollOn, Binds, BackoffMs, Later, Reached;
    var t := ForgetLostFabric(TakeLookup(s, now));
    PollOnPeer(t, now, c);
    PollOnPeer(DropAndFail(t, now), now, c);
  }

  lemma StepPeer(s: State, e: Event)
    ensures PeerFrom(Step(s, e).s.peer, s.peer, s.info)
    ensures Step(s, e).s.info == if e.Tables? && !s.faulted then e.info else s.info
  {
    hide Held, PollStep, Binds, BackoffMs, Later, Reached;
    if e.Polled? {
      PollPeer(s, e.now, e.choices);
      PollInfo(s, e.now, e.choices);
    }
  }

  lemma PollInfo(s: State, now: ms, c: PollChoices)
    ensures PollStep(s, now, c).s.info == s.info
  {
    hide Held, PollOn, BackoffMs, Later, Reached;
    var t := ForgetLostFabric(TakeLookup(s, now));
    PollOnInfo(t, now, c);
    PollOnInfo(DropAndFail(t, now), now, c);
  }

  lemma PollOnInfo(s: State, now: ms, c: PollChoices)
    ensures PollOn(s, now, c).s.info == s.info
  {
    hide Held, Act, Poll, BackoffMs, Later;
    var (sm, action) := Poll(s.sm, now);
    ActPeer(s.(sm := sm), action, now, c);
  }

  lemma MoreInfos(infos: seq<Info>, more: seq<Info>, p: Peer)
    requires PeerBound(p, infos)
    ensures PeerBound(p, infos + more)
  {
    hide Binds;
    if p.fabric.Some? {
      var info :| info in infos && Binds(info, p.node, p.endpoint);
      assert info in infos + more;
    }
  }

  lemma {:induction false} RunBound(info: Info, events: seq<Event>)
    ensures var s := Run(info, events).s;
            PeerBound(s.peer, Infos(info, events)) && (!s.faulted ==> s.info in Infos(info, events))
  {
    hide Step, Binds, PeerBound, Held, Safe;
    if events == [] {
      NobodyBound(info);
    } else {
      var before, e := events[..|events| - 1], events[|events| - 1];
      RunBound(info, before);
      var s := Run(info, before).s;
      StepPeer(s, e);
      StillFaulted(s, e);
      NextBound(s, Step(s, e).s.peer, Infos(info, before));
      MoreInfos(Infos(info, before), if e.Tables? then [e.info] else [], Step(s, e).s.peer);
    }
  }

  lemma NobodyBound(info: Info)
    ensures PeerBound(NOBODY, [info])
  {
  }

  lemma StillFaulted(s: State, e: Event)
    ensures s.faulted ==> Step(s, e) == Out(s, [], false)
  {
  }

  lemma NextBound(s: State, p: Peer, infos: seq<Info>)
    requires PeerBound(s.peer, infos) && PeerFrom(p, s.peer, s.info) && (s.faulted ==> p == s.peer)
    requires !s.faulted ==> s.info in infos
    ensures PeerBound(p, infos)
  {
    hide Binds;
  }

  /**
   In every run, whatever becomes of the tables, a command on the wire goes to a node and
   endpoint that some binding of the run named together.
   */
  lemma CommandsGoWhereBound(info: Info, events: seq<Event>, e: Event, w: Wire)
    requires w in Step(Run(info, events).s, e).wire && w.InvokeRequest?
    ensures EverBound(Infos(info, events), w.node, w.endpoint)
  {
    hide Binds, Held, PollStep, UnsecuredStep;
    RunBound(info, events);
    RunInv(info, events);
    var s := Run(info, events).s;
    if e.Polled? {
      PollCommands(s, e.now, e.choices);
    }
    if e.Handles? && s.routed.Some? {
      UnsecuredCommands(s.(routed := None), s.routed.value, e.now);
    }
  }

  lemma PollCommands(s: State, now: ms, c: PollChoices)
    ensures forall w <- PollStep(s, now, c).wire :: !w.InvokeRequest?
  {
    hide Held, SlotOf, FirstUsable, Poll, BackoffMs, Later, Reached;
  }

  lemma UnsecuredCommands(s: State, m: Unsecured, now: ms)
    ensures forall w <- UnsecuredStep(s, m, now).wire :: !w.InvokeRequest?
  {
    hide Held, BackoffMs, Later;
  }
}
