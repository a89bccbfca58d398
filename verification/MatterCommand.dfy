/**
 What the client tells the bound lock: every command it sends is the state the bolt was
 wanted in when it was framed, to the target chosen for the attempt.
 */
module MatterCommand {
  import opened Options
  import opened ClientSchedule
  import opened MatterMachine
  import opened MatterSafety

  /** A command sent, with what was wanted and whom the attempt was for at that moment. */
  datatype Order = Order(command: Command, node: nat, endpoint: nat, wish: bool, peer: Peer)

  function CommandsIn(wire: seq<Wire>, s: State): seq<Order> {
    if wire == [] then []
    else
      var w := wire[|wire| - 1];
      CommandsIn(wire[..|wire| - 1], s)
      + if w.InvokeRequest? then [Order(w.command, w.node, w.endpoint, s.bolt.desired, s.peer)] else []
  }

  /** All commands of a run, in order. */
  function Commands(info: Info, events: seq<Event>): seq<Order> {
    if events == [] then []
    else
      var before := events[..|events| - 1];
      var s := Run(info, before).s;
      Commands(info, before) + CommandsIn(Step(s, events[|events| - 1]).wire, s)
  }

  predicate Apt(c: Order) {
    c.command == (if c.wish then UnlockDoor else LockDoor) && c.node == c.peer.node && c.endpoint == c.peer.endpoint
  }

  predicate Says(command: Command, unlock: bool) {
    command == if unlock then UnlockDoor else LockDoor
  }

  lemma {:induction false} Quiet(wire: seq<Wire>, s: State)
    requires forall w <- wire :: !w.InvokeRequest?
    ensures CommandsIn(wire, s) == []
  {
    if wire != [] {
      assert forall w <- wire[..|wire| - 1] :: w in wire;
      Quiet(wire[..|wire| - 1], s);
    }
  }

  lemma PollIsQuiet(s: State, now: ms, c: PollChoices)
    ensures forall w <- PollStep(s, now, c).wire :: !w.InvokeRequest?
    ensures PollStep(s, now, c).s.bolt == s.bolt
    ensures PollStep(s, now, c).s.invoke.InvokeOut? ==> s.invoke.InvokeOut?
  {
    hide Held, SlotOf, FirstUsable, Poll, BackoffMs, Later, Reached, PollOn;
    var r := ForgetLostFabric(TakeLookup(s, now));
    PollOnIsQuiet(r, now, c);
    PollOnIsQuiet(DropAndFail(r, now), now, c);
  }

  lemma PollOnIsQuiet(s: State, now: ms, c: PollChoices)
    ensures forall w <- PollOn(s, now, c).wire :: !w.InvokeRequest?
    ensures PollOn(s, now, c).s.bolt == s.bolt
    ensures PollOn(s, now, c).s.invoke.InvokeOut? ==> s.invoke.InvokeOut?
  {
    hide Held, Poll, BackoffMs, Later, Act;
    var (sm, action) := Poll(s.sm, now);
    ActIsQuiet(s.(sm := sm), action, now, c);
  }

  lemma ActIsQuiet(s: State, action: Action, now: ms, c: PollChoices)
    ensures var (r, wire) := Act(s, action, now, c);
            && (forall w <- wire :: !w.InvokeRequest?) && r.bolt == s.bolt
            && (r.invoke.InvokeOut? ==> s.invoke.InvokeOut?)
  {
    hide Held, SlotOf, FirstUsable, BackoffMs, Later, Usable, Failed, Sent, Resolved, SessionLost;
  }

  lemma UnsecuredIsQuiet(s: State, m: Unsecured, now: ms)
    ensures var o := UnsecuredStep(s, m, now);
            && (forall w <- o.wire :: !w.InvokeRequest?) && o.s.bolt == s.bolt
            && (o.s.invoke.InvokeOut? ==> s.invoke.InvokeOut?)
  {
    hide Held, BackoffMs, Later;
  }

  /** A step sends at most one command, the one wanted, and that is then the one in flight. */
  lemma StepCommands(s: State, e: Event)
    ensures var o := Step(s, e);
            var sent := CommandsIn(o.wire, s);
            && |sent| <= 1 && (forall c <- sent :: Apt(c) && Says(c.command, o.s.bolt.inflight))
            && (o.s.invoke.InvokeOut? ==> |sent| == 1 || (s.invoke.InvokeOut? && o.s.bolt.inflight == s.bolt.inflight))
  {
    hide Held, PollStep, UnsecuredStep, BackoffMs, Later;
    var o := Step(s, e);
    match e
    case Polled(now, c) =>
      PollIsQuiet(s, now, c);
      Quiet(o.wire, s);
    case Handles(now) =>
      if s.routed.Some? {
        UnsecuredIsQuiet(s.(routed := None), s.routed.value, now);
      }
      Quiet(o.wire, s);
    case ArrivesWindow(_, _, _, _) =>
      if o.wire != [] {
        assert o.wire[..|o.wire| - 1] == [];
      }
    case _ =>
  }

  /**
   In every run, every command sent is UnlockDoor if the bolt was wanted unlocked when it was
   framed and LockDoor if not, to the node and endpoint of the target then chosen; and the
   command in flight is the last one sent.
   */
  lemma {:induction false} CommandsAreWishes(info: Info, events: seq<Event>)
    ensures forall c <- Commands(info, events) :: Apt(c)
    ensures var s, sent := Run(info, events).s, Commands(info, events);
            s.invoke.InvokeOut? ==> sent != [] && Says(sent[|sent| - 1].command, s.bolt.inflight)
  {
    hide Step, CommandsIn, Apt, Says;
    if events != [] {
      var before := events[..|events| - 1];
      CommandsAreWishes(info, before);
      StepCommands(Run(info, before).s, events[|events| - 1]);
      NextIs(Run(info, before), events[|events| - 1]);
    }
  }

  lemma NextIs(sys: Sys, e: Event)
    ensures Next(sys, e).s == Step(sys.s, e).s
  {
  }

  /** So an accepted response to a command in flight is logged as the command that was sent. */
  lemma AcceptedWasSent(info: Info, events: seq<Event>)
    requires var r := Run(info, events);
             r.s.invoke.InvokeOut? && Receiving(r.s) && r.s.hs.session && !r.s.faulted
    ensures var r, sent := Run(info, events), Commands(info, events);
            && sent != []
            && Next(r, ArrivesResponse(true)).log == r.log + [Accepted(sent[|sent| - 1].command == UnlockDoor)]
  {
    CommandsAreWishes(info, events);
    hide Run, Commands, SendsSigma1;
  }
}
