/**
 The bound-lock client as it is written: file-scope state that every entry point updates
 in place. Each method is held to the step of `MatterMachine` it performs.
 */
module MatterClient {
  import opened Options
  import opened ClientSchedule
  import opened MatterMachine

  /** The read and the write of an accepted response, with nothing between. */
  function Applying(s: State, ok: bool): State {
    var r := LoadRearm(s, ok);
    if r.response.Loaded? then StoreSynced(r, r.response.rearm) else r
  }

  class Client {
    var sm: Schedule
    var info: Info
    var peer: Peer
    var hs: Handshake
    var invoke: InvokeStep
    var bolt: Bolt
    var lookup: Lookup
    /** A null fabric has been followed. */
    var faulted: bool

    /** The wire since the client was made, and how many sessions it has established. */
    ghost var sent: seq<Wire>
    ghost var sessions: nat

    ghost function View(): State
      reads this
    {
      State(sm, info, peer, hs, invoke, bolt, AtRest, lookup, Free, None, faulted)
    }

    ghost predicate Did(o: Out, sent0: seq<Wire>, sessions0: nat)
      reads this
    {
      View() == o.s && sent == sent0 + o.wire && sessions == sessions0 + if o.established then 1 else 0
    }

    constructor (tables: Info)
      ensures View() == Initial(tables) && sent == [] && sessions == 0
    {
      sm, info, peer, hs, invoke := START, tables, NOBODY, NO_HANDSHAKE, NoInvoke;
      bolt, lookup, faulted := Bolt(false, false, false, false), NoAnswer, false;
      sent, sessions := [], 0;
    }

    // ----- the peer this attempt is for

    method FabricOf(index: nat) returns (slot: Option<nat>)
      ensures slot == SlotOf(info.fabrics, index)
    {
      if index == 0 {
        return None;
      }
      for i := 0 to |info.fabrics|
        invariant SlotFrom(info.fabrics, index, i) == SlotOf(info.fabrics, index)
      {
        if info.fabrics[i].index == index {
          return Some(i);
        }
      }
      return None;
    }

    method FabricStillHeld() returns (held: bool)
      ensures held == StillHeld(View())
    {
      if peer.fabric.None? || peer.fabric.value >= |info.fabrics| {
        return false;
      }
      var f := info.fabrics[peer.fabric.value];
      var slot := FabricOf(f.index);
      return slot == peer.fabric && f.nocLen != 0 && f.id == peer.id;
    }

    method ChooseTarget() returns (ok: bool)
      modifies this`peer
      ensures (View(), ok) == Choose(old(View()))
    {
      hide Held;
      for i := 0 to |info.targets|
        invariant peer == old(peer)
        invariant FirstUsable(info, i) == FirstUsable(info, 0)
      {
        var t := info.targets[i];
        var slot := FabricOf(t.fabricIndex);
        if slot.Some? && slot.value < |info.fabrics| {
          var f := info.fabrics[slot.value];
          if f.nocLen != 0 && f.derives {
            peer := Peer(slot, f.id, t.node, if t.endpoint.Some? then t.endpoint.value else 1, peer.located);
            return true;
          }
        }
      }
      return false;
    }

    method DropSession()
      modifies this`hs, this`invoke, this`sm
      ensures View() == Drop(old(View()))
    {
      hs := hs.(session := false, active := false, linger := 0, kept := None, key := 0);
      invoke := NoInvoke;
      sm := SessionLost(sm);
    }

    // ----- the poll

    method SendSigma1Message(draw: Draw) returns (ok: bool)
      modifies this`hs, this`sent
      ensures var (s, done, wire) := SendSigma1Now(old(View()), draw);
              View() == s && ok == done && sent == old(sent) + wire
    {
      if !peer.located || peer.fabric.None? {
        return false;
      }
      hs := hs.(linger := 0, kept := None, exchange := draw.exchange, key := 0);
      if !draw.entropy || !draw.sent {
        return false;
      }
      var m := Message(Sigma1Message, peer.fabric.value, peer.id);
      hs := hs.(active := true, kept := Some(m), serial := hs.serial + 1, key := hs.serial + 1);
      sent := sent + [First(m)];
      return true;
    }

    method ApplyLookup(now: ms)
      modifies this`lookup, this`peer, this`sm
      ensures View() == TakeLookup(old(View()), now)
    {
      var answer := lookup;
      lookup := NoAnswer;
      if !sm.phase.Resolving? {
        answer := NoAnswer;
      }
      if answer.Found? {
        peer := peer.(located := true);
        sm := Resolved(sm, true, now);
      } else if answer.NotFound? {
        peer := peer.(located := false);
        sm := Resolved(sm, false, now);
      }
    }

    method CheckFabric()
      modifies this`peer, this`hs, this`invoke, this`sm
      ensures View() == ForgetLostFabric(old(View()))
    {
      hide Held, SlotOf;
      if peer.fabric.None? {
        return;
      }
      var held := FabricStillHeld();
      if !held {
        peer := peer.(fabric := None);
        if hs.session || hs.active {
          DropSession();
        }
      }
    }

    method Perform(action: Action, now: ms, c: PollChoices)
      modifies this
      ensures var (s, wire) := Act(old(View()), action, now, c);
              View() == s && sent == old(sent) + wire && sessions == old(sessions)
    {
      hide Held, SlotOf, FirstUsable, BackoffMs, Later;
      match action
      case Nothing =>
      case Resolve =>
        var ok := ChooseTarget();
        if ok && c.resolveStarts {
          lookup := NoAnswer;
        } else {
          sm := Resolved(sm, false, now);
        }
      case SendSigma1 =>
        var ok := FabricStillHeld();
        if !ok {
          ok := ChooseTarget();
        }
        if ok {
          ok := SendSigma1Message(c.draw);
          sm := if ok then Sent(sm, now) else Failed(sm, now);
        } else {
          sm := Failed(sm, now);
        }
      case Invoke =>
        if !hs.session {
          sm := SessionLost(sm);
        } else if c.timedSent {
          if peer.fabric.Some? {
            sent := sent + [TimedRequest(peer.fabric.value, peer.id)];
          }
          invoke := WindowAsked(c.now2);
        } else {
          DropSession();
          sm := Failed(sm, now);
        }
    }

    method ResendOrGiveUp(now: ms, mrp: Mrp)
      modifies this`hs, this`invoke, this`sm, this`sent
      ensures var (s, wire) := Resend(old(View()), now, mrp); View() == s && sent == old(sent) + wire
    {
      hide BackoffMs, Later;
      if hs.active {
        match mrp
        case Quiet =>
        case GiveUp =>
          DropSession();
          sm := Failed(sm, now);
        case Retransmit(resent) =>
          if resent && hs.kept.Some? {
            sent := sent + [Again(hs.kept.value)];
          }
      }
    }

    method FinishPoll(now: ms, c: PollChoices)
      modifies this
      ensures Did(PollOn(old(View()), now, c), old(sent), old(sessions))
    {
      hide Act, Resend, Drop, ClientSchedule.Poll;
      var (next, action) := ClientSchedule.Poll(sm, now);
      sm := next;
      Perform(action, now, c);
      ResendOrGiveUp(now, c.mrp);
      if hs.active && !sm.phase.Sigma1? && !sm.phase.Sigma3? {
        DropSession();
      }
    }

    method Poll(now: ms, c: PollChoices)
      modifies this
      ensures Did(PollStep(old(View()), now, c), old(sent), old(sessions))
    {
      hide TakeLookup, ForgetLostFabric, PollOn, Drop, Reached, Later, BackoffMs;
      ApplyLookup(now);
      CheckFabric();
      if !invoke.NoInvoke? {
        if Reached(now, Later(invoke.since, STEP_MS)) {
          DropSession();
          sm := Failed(sm, now);
        } else {
          return;
        }
      }
      FinishPoll(now, c);
    }

    // ----- the walk-up path

    method WantUnlocked(unlocked: bool, now: ms)
      modifies this`bolt, this`sm
      ensures View() == WantStep(old(View()), unlocked, now)
    {
      if unlocked {
        bolt := bolt.(rearm := false);
      }
      bolt := bolt.(desired := unlocked);
      if bolt.desired == bolt.synced {
        return;
      }
      sm := Want(sm, now);
    }

    method RearmUnlock()
      modifies this`bolt
      ensures View() == WalkStep(RearmStep(old(View())), 0)
    {
      bolt := bolt.(rearm := true, synced := false);
    }

    // ----- inbound

    /** Which unsecured messages are routed to `OnUnsecured`. */
    method Owns(exchange: nat, now: ms) returns (mine: bool)
      ensures mine == OwnsExchange(hs, exchange, now)
    {
      hide Reached;
      if exchange != hs.exchange {
        return false;
      }
      if hs.active {
        return true;
      }
      return hs.linger != 0 && !Reached(now, hs.linger);
    }

    method HandleSigma2(m: Unsecured, now: ms)
      requires m.Sigma2?
      modifies this
      ensures Did(Sigma2Step(old(View()), m, now), old(sent), old(sessions))
    {
      hide BackoffMs, Later;
      if hs.active && hs.session && sm.phase.Sigma3? {
        if m.counter == hs.sigma2Counter && m.fits && hs.kept.Some? {
          sent := sent + [Again(hs.kept.value)];
        }
        return;
      }
      sm := GotSigma2(sm, now);
      if m.readable && peer.fabric.None? {
        faulted := true;
      } else if m.readable && Opens(hs, m) {
        var reply := Message(Sigma3Message, peer.fabric.value, peer.id);
        hs := hs.(session := true, sigma2Counter := m.counter, kept := if m.keeps then Some(reply) else None, key := 0);
        sent := sent + [First(reply)];
        sm := Sent(sm, now);
      } else {
        DropSession();
        sm := Failed(sm, now);
      }
    }

    method HandleReport(success: bool, now: ms)
      modifies this
      ensures Did(ReportStep(old(View()), success, now), old(sent), old(sessions))
    {
      hide BackoffMs, Later;
      if !hs.active {
        return;
      }
      if hs.session && success {
        sm := Established(sm);
        hs := hs.(active := false, linger := LingerUntil(now));
        sessions := sessions + 1;
      } else {
        DropSession();
        sm := Failed(sm, now);
      }
    }

    method OnUnsecured(m: Unsecured, now: ms)
      modifies this
      ensures Did(UnsecuredStep(old(View()), m, now), old(sent), old(sessions))
    {
      hide Held, SlotOf, Sigma2Step, ReportStep, Drop;
      if peer.fabric.Some? {
        var held := FabricStillHeld();
        if !held {
          peer := peer.(fabric := None);
          DropSession();
          return;
        }
      }
      match m
      case Sigma2(_, _, _, _, _, _) => HandleSigma2(m, now);
      case StatusReport(success) => HandleReport(success, now);
      case OtherUnsecured =>
    }

    method OnStatusResponse(granted: bool, framed: bool, now: ms, now2: ms)
      modifies this
      ensures Did(WindowStep(old(View()), granted, framed, now, now2), old(sent), old(sessions))
    {
      hide BackoffMs, Later;
      if !invoke.WindowAsked? {
        return;
      }
      if granted {
        bolt := bolt.(inflight := bolt.desired);
        if framed {
          sent := sent + [InvokeRequest(peer.node, peer.endpoint, if bolt.inflight then UnlockDoor else LockDoor)];
          invoke := InvokeOut(now2);
        } else {
          DropSession();
          sm := Failed(sm, now);
        }
      } else {
        invoke := NoInvoke;
        sm := Invoked(sm, false);
      }
    }

    method OnInvokeResponse(ok: bool, now: ms)
      modifies this
      ensures View() == Recheck(ClearWant(Applying(old(View()), ok), ok), ok, now)
      ensures sent == old(sent) && sessions == old(sessions)
    {
      if ok {
        bolt := bolt.(synced := if bolt.rearm then false else bolt.inflight);
      }
      invoke := NoInvoke;
      sm := Invoked(sm, ok);
      if ok && !bolt.rearm && bolt.desired != bolt.synced {
        sm := Want(sm, now);
      }
    }
  }
}
