/**
 The bound-lock client as a state machine: the state its entry points share, and what
 each entry point makes of it. Key derivation, the network, the retransmission timer and
 the peer are choices carried by the events.
 */
module MatterMachine {
  import opened Options
  import opened ClientSchedule

  const LINGER_MS := 3000

  // ----- the fabric and binding tables, which others may rewrite between any two steps

  /** One slot; index 0 is an empty slot. `derives` says whether its keys can be derived. */
  datatype Fabric = Fabric(index: nat, id: nat, nocLen: nat, derives: bool)

  /** A bound door-lock target. */
  datatype Target = Target(fabricIndex: nat, node: nat, endpoint: Option<nat>)

  datatype Info = Info(fabrics: seq<Fabric>, targets: seq<Target>)

  /** The first slot carrying a fabric index. */
  function SlotFrom(fabrics: seq<Fabric>, index: nat, i: nat): Option<nat>
    requires i <= |fabrics|
    decreases |fabrics| - i
  {
    if i == |fabrics| then None
    else if fabrics[i].index == index then Some(i)
    else SlotFrom(fabrics, index, i + 1)
  }

  function SlotOf(fabrics: seq<Fabric>, index: nat): Option<nat> {
    if index == 0 then None else SlotFrom(fabrics, index, 0)
  }

  /** The slot is still the one its index names, and still belongs to fabric `id`. */
  predicate Held(info: Info, slot: nat, id: nat) {
    && slot < |info.fabrics|
    && SlotOf(info.fabrics, info.fabrics[slot].index) == Some(slot)
    && info.fabrics[slot].nocLen != 0
    && info.fabrics[slot].id == id
  }

  // ----- the client's state

  /** Who the attempt is for. */
  datatype Peer = Peer(fabric: Option<nat>, id: nat, node: nat, endpoint: nat, located: bool)

  /** A handshake message and the fabric slot and id it was built from. */
  datatype Message = Message(opcode: Opcode, slot: nat, id: nat)

  datatype Opcode = Sigma1Message | Sigma3Message

  /**
   `serial` numbers the Sigma1s that have left, and `key` is the one whose ephemeral key is
   still held, 0 if none is.
   */
  datatype Handshake = Handshake(session: bool, active: bool, linger: ms, kept: Option<Message>,
                                 sigma2Counter: nat, exchange: nat, serial: nat, key: nat)

  datatype InvokeStep = NoInvoke | WindowAsked(since: ms) | InvokeOut(since: ms)

  datatype Bolt = Bolt(desired: bool, synced: bool, rearm: bool, inflight: bool)

  datatype Lookup = NoAnswer | Found | NotFound

  /**
   How far an InvokeResponse has been worked through; others may run in between. `Loaded`
   holds the rearm flag as it was read, before the synced flag is written.
   */
  datatype Response = Free | Loaded(rearm: bool) | Applied(ok: bool) | Cleared(ok: bool)

  /**
   Where the walk-up path is between its writes, which take no lock: the wanted state
   written and not yet compared, the want written and not yet its time, the rearm flag
   written and not yet the synced one.
   */
  datatype Walk = AtRest | Comparing | Timing(now: ms) | Rearming

  /**
   `routed` is an unsecured message found to be the client's own and not yet handled.
   `faulted` is a null fabric followed; nothing is said of what comes after.
   */
  datatype State = State(sm: Schedule, info: Info, peer: Peer, hs: Handshake, invoke: InvokeStep,
                         bolt: Bolt, walk: Walk, lookup: Lookup, response: Response, routed: Option<Unsecured>,
                         faulted: bool)

  const NOBODY := Peer(None, 0, 0, 0, false)
  const NO_HANDSHAKE := Handshake(false, false, 0, None, 0, 0, 0, 0)

  function Initial(info: Info): State {
    State(START, info, NOBODY, NO_HANDSHAKE, NoInvoke, Bolt(false, false, false, false), AtRest, NoAnswer, Free,
          None, false)
  }

  /** What a step did on the wire, and whether it established a session. */
  datatype Wire =
    | First(message: Message)
    | Again(message: Message)
    | TimedRequest(slot: nat, id: nat)
    | InvokeRequest(node: nat, endpoint: nat, command: Command)

  datatype Command = LockDoor | UnlockDoor

  datatype Out = Out(s: State, wire: seq<Wire>, established: bool)

  predicate StillHeld(s: State) {
    s.peer.fabric.Some? && Held(s.info, s.peer.fabric.value, s.peer.id)
  }

  function Drop(s: State): State {
    s.(hs := s.hs.(session := false, active := false, linger := 0, kept := None, key := 0),
       invoke := NoInvoke,
       sm := SessionLost(s.sm))
  }

  function DropAndFail(s: State, now: ms): State {
    var d := Drop(s);
    d.(sm := Failed(d.sm, now))
  }

  // ----- choosing a target

  predicate Usable(info: Info, t: Target) {
    var slot := SlotOf(info.fabrics, t.fabricIndex);
    slot.Some? && slot.value < |info.fabrics|
    && info.fabrics[slot.value].nocLen != 0 && info.fabrics[slot.value].derives
  }

  /** The first target from `i` on whose fabric is held and whose keys derive. */
  function FirstUsable(info: Info, i: nat): Option<Target>
    requires i <= |info.targets|
    decreases |info.targets| - i
  {
    if i == |info.targets| then None
    else if Usable(info, info.targets[i]) then Some(info.targets[i])
    else FirstUsable(info, i + 1)
  }

  function PeerOf(info: Info, t: Target, located: bool): Peer
    requires Usable(info, t)
  {
    var slot := SlotOf(info.fabrics, t.fabricIndex).value;
    Peer(Some(slot), info.fabrics[slot].id, t.node, if t.endpoint.Some? then t.endpoint.value else 1, located)
  }

  function Choose(s: State): (State, bool) {
    var t := FirstUsable(s.info, 0);
    if t.Some? && Usable(s.info, t.value) then (s.(peer := PeerOf(s.info, t.value, s.peer.located)), true)
    else (s, false)
  }

  // ----- the poll

  /** What building and sending a Sigma1 meets: entropy, the ids drawn, and the send. */
  datatype Draw = Draw(entropy: bool, exchange: nat, sent: bool)

  datatype Mrp = Retransmit(resent: bool) | GiveUp | Quiet

  /** `now2` is the clock as read when the Sigma1 or TimedRequest has left. */
  datatype PollChoices = PollChoices(resolveStarts: bool, draw: Draw, timedSent: bool, now2: ms, mrp: Mrp)

  function SendSigma1Now(s: State, draw: Draw): (State, bool, seq<Wire>) {
    if !s.peer.located || s.peer.fabric.None? then (s, false, [])
    else
      var cleared := s.hs.(linger := 0, kept := None, exchange := draw.exchange, key := 0);
      if !draw.entropy || !draw.sent then (s.(hs := cleared), false, [])
      else
        var m := Message(Sigma1Message, s.peer.fabric.value, s.peer.id);
        var n := s.hs.serial + 1;
        (s.(hs := cleared.(active := true, kept := Some(m), serial := n, key := n)), true, [First(m)])
  }

  function TakeLookup(s: State, now: ms): State {
    var lookup := if s.sm.phase.Resolving? then s.lookup else NoAnswer;
    var taken := s.(lookup := NoAnswer);
    match lookup
    case NoAnswer => taken
    case Found => taken.(peer := taken.peer.(located := true), sm := Resolved(taken.sm, true, now))
    case NotFound => taken.(peer := taken.peer.(located := false), sm := Resolved(taken.sm, false, now))
  }

  function ForgetLostFabric(s: State): State {
    if s.peer.fabric.None? || StillHeld(s) then s
    else
      var gone := s.(peer := s.peer.(fabric := None));
      if s.hs.session || s.hs.active then Drop(gone) else gone
  }

  function Act(s: State, action: Action, now: ms, c: PollChoices): (State, seq<Wire>) {
    match action
    case Nothing => (s, [])
    case Resolve =>
      var (chosen, ok) := Choose(s);
      if ok && c.resolveStarts then (chosen.(lookup := NoAnswer), [])
      else (chosen.(sm := Resolved(chosen.sm, false, now)), [])
    case SendSigma1 =>
      var (chosen, ok) := if StillHeld(s) then (s, true) else Choose(s);
      if !ok then (chosen.(sm := Failed(chosen.sm, now)), [])
      else
        var (tried, sent, wire) := SendSigma1Now(chosen, c.draw);
        (tried.(sm := if sent then Sent(tried.sm, now) else Failed(tried.sm, now)), wire)
    case Invoke =>
      if !s.hs.session then (s.(sm := SessionLost(s.sm)), [])
      else if !c.timedSent then (DropAndFail(s, now), [])
      else (s.(invoke := WindowAsked(c.now2)),
            if s.peer.fabric.Some? then [TimedRequest(s.peer.fabric.value, s.peer.id)] else [])
  }

  function Resend(s: State, now: ms, mrp: Mrp): (State, seq<Wire>) {
    if !s.hs.active then (s, [])
    else
      match mrp
      case Quiet => (s, [])
      case GiveUp => (DropAndFail(s, now), [])
      case Retransmit(resent) => (s, if resent && s.hs.kept.Some? then [Again(s.hs.kept.value)] else [])
  }

  function Abandon(s: State): State {
    if s.hs.active && !s.sm.phase.Sigma1? && !s.sm.phase.Sigma3? then Drop(s) else s
  }

  /** The part of a poll past an interaction still in flight. */
  function PollOn(s: State, now: ms, c: PollChoices): Out {
    var (sm, action) := Poll(s.sm, now);
    var (acted, wire1) := Act(s.(sm := sm), action, now, c);
    var (resent, wire2) := Resend(acted, now, c.mrp);
    Out(Abandon(resent), wire1 + wire2, false)
  }

  function PollStep(s: State, now: ms, c: PollChoices): Out {
    var ready := ForgetLostFabric(TakeLookup(s, now));
    if ready.invoke.NoInvoke? then PollOn(ready, now, c)
    else if Reached(now, Later(ready.invoke.since, STEP_MS)) then PollOn(DropAndFail(ready, now), now, c)
    else Out(ready, [], false)
  }

  // ----- the walk-up path, which takes no lock

  function DesireStep(s: State, unlocked: bool): State {
    s.(bolt := s.bolt.(rearm := if unlocked then false else s.bolt.rearm, desired := unlocked), walk := Comparing)
  }

  function RearmStep(s: State): State {
    s.(bolt := s.bolt.(rearm := true), walk := Rearming)
  }

  /** The next write of the walk-up path. */
  function WalkStep(s: State, now: ms): State {
    match s.walk
    case AtRest => s
    case Comparing =>
      if s.bolt.desired == s.bolt.synced then s.(walk := AtRest)
      else s.(sm := s.sm.(want := true), walk := Timing(now))
    case Timing(t) => s.(sm := s.sm.(wantMs := t), walk := AtRest)
    case Rearming => s.(bolt := s.bolt.(synced := false), walk := AtRest)
  }

  /** A want, with nothing between its writes. */
  function WantStep(s: State, unlocked: bool, now: ms): State {
    WalkStep(WalkStep(DesireStep(s, unlocked), now), now)
  }

  // ----- inbound messages

  predicate OwnsExchange(hs: Handshake, exchange: nat, now: ms) {
    exchange == hs.exchange && (hs.active || (hs.linger != 0 && !Reached(now, hs.linger)))
  }

  /**
   `readable`: the Sigma2 decodes; `answers`: the Sigma1 it was made for; `good`: with that
   Sigma1's key it verifies, and a Sigma3 and a session come of it; `keeps`: that Sigma3
   fits the retransmit buffer; `fits`: the kept one fits the reply.
   */
  datatype Unsecured =
    | Sigma2(counter: nat, readable: bool, answers: nat, good: bool, keeps: bool, fits: bool)
    | StatusReport(success: bool)
    | OtherUnsecured

  function LingerUntil(now: ms): ms {
    if Later(now, LINGER_MS) == 0 then 1 else Later(now, LINGER_MS)
  }

  /** A repeat of the Sigma2 whose Sigma3 is kept. */
  predicate Repeated(s: State) {
    s.hs.active && s.hs.session && s.sm.phase.Sigma3?
  }

  /** A Sigma2 opens only with the ephemeral key of the Sigma1 it answers. */
  predicate Opens(hs: Handshake, m: Unsecured) {
    m.Sigma2? && m.good && hs.key != 0 && m.answers == hs.key
  }

  function Sigma2Step(s: State, m: Unsecured, now: ms): Out
    requires m.Sigma2?
  {
    var waited := s.(sm := GotSigma2(s.sm, now));
    if Repeated(s) then
      Out(s, if m.counter == s.hs.sigma2Counter && m.fits && s.hs.kept.Some? then [Again(s.hs.kept.value)] else [], false)
    else if !m.readable then Out(DropAndFail(waited, now), [], false)
    else if s.peer.fabric.None? then Out(waited.(faulted := true), [], false)
    else if Opens(s.hs, m) then
      var reply := Message(Sigma3Message, s.peer.fabric.value, s.peer.id);
      Out(s.(hs := s.hs.(session := true, sigma2Counter := m.counter, kept := if m.keeps then Some(reply) else None,
                         key := 0),
             sm := Sent(GotSigma2(s.sm, now), now)),
          [First(reply)], false)
    else Out(DropAndFail(waited, now), [], false)
  }

  function ReportStep(s: State, success: bool, now: ms): Out {
    if !s.hs.active then Out(s, [], false)
    else if s.hs.session && success then
      Out(s.(sm := Established(s.sm), hs := s.hs.(active := false, linger := LingerUntil(now))), [], true)
    else Out(DropAndFail(s, now), [], false)
  }

  /** A routed message: the fabric is looked at again only where one is recorded. */
  function UnsecuredStep(s: State, m: Unsecured, now: ms): Out {
    if s.peer.fabric.Some? && !StillHeld(s) then Out(Drop(s.(peer := s.peer.(fabric := None))), [], false)
    else
      match m
      case Sigma2(_, _, _, _, _, _) => Sigma2Step(s, m, now)
      case StatusReport(success) => ReportStep(s, success, now)
      case OtherUnsecured => Out(s, [], false)
  }

  /** The peer's answer to the TimedRequest; `framed`: the InvokeRequest could be built. */
  function WindowStep(s: State, granted: bool, framed: bool, now: ms, now2: ms): Out {
    if !s.invoke.WindowAsked? then Out(s, [], false)
    else if !granted then Out(s.(invoke := NoInvoke, sm := Invoked(s.sm, false)), [], false)
    else
      var sending := s.(bolt := s.bolt.(inflight := s.bolt.desired));
      if !framed then Out(DropAndFail(sending, now), [], false)
      else
        Out(sending.(invoke := InvokeOut(now2)),
            [InvokeRequest(s.peer.node, s.peer.endpoint, if sending.bolt.inflight then UnlockDoor else LockDoor)], false)
  }

  /** An InvokeResponse: if it accepts, first the rearm flag is read ... */
  function LoadRearm(s: State, ok: bool): State {
    s.(response := if ok then Loaded(s.bolt.rearm) else Applied(false))
  }

  /** ... then what the peer is now known to hold is written ... */
  function StoreSynced(s: State, rearm: bool): State {
    s.(bolt := s.bolt.(synced := if rearm then false else s.bolt.inflight), response := Applied(true))
  }

  /** ... then the want it settles ... */
  function ClearWant(s: State, ok: bool): State {
    s.(invoke := NoInvoke, sm := Invoked(s.sm, ok), response := Cleared(ok))
  }

  /** ... then whether the bolt has moved again meanwhile. */
  function Recheck(s: State, ok: bool, now: ms): State {
    s.(response := Free,
       sm := if ok && !s.bolt.rearm && s.bolt.desired != s.bolt.synced then Want(s.sm, now) else s.sm)
  }

  // ----- every interleaving

  datatype Event =
    | Wanted(unlocked: bool)
    | Rearmed
    | WalkGoesOn(now: ms)
    | Tables(info: Info)
    | LookedUp(found: bool)
    | Polled(now: ms, choices: PollChoices)
    | Routes(exchange: nat, message: Unsecured, now: ms)
    | Handles(now: ms)
    | FindsLockTaken
    | ArrivesWindow(granted: bool, framed: bool, now: ms, now2: ms)
    | ArrivesResponse(ok: bool)
    | Resumes(now: ms)

  /** The receive thread is at leisure: it works on one message at a time. */
  predicate Receiving(s: State) {
    s.response.Free? && s.routed.None?
  }

  /**
   One event. The walk-up path's writes and the tables take no lock and come at any time; a poll
   waits for a response being worked through; routing a message reads the state without the
   lock and handling it comes later, so a poll may fall between.
   */
  function Step(s: State, e: Event): Out {
    if s.faulted then Out(s, [], false)
    else
      match e
      case Wanted(unlocked) => Out(if s.walk.AtRest? then DesireStep(s, unlocked) else s, [], false)
      case Rearmed => Out(if s.walk.AtRest? then RearmStep(s) else s, [], false)
      case WalkGoesOn(now) => Out(WalkStep(s, now), [], false)
      case Tables(info) => Out(s.(info := info), [], false)
      case LookedUp(found) => Out(s.(lookup := if found then Found else NotFound), [], false)
      case Polled(now, choices) => if s.response.Free? then PollStep(s, now, choices) else Out(s, [], false)
      case Routes(exchange, m, now) =>
        Out(if Receiving(s) && OwnsExchange(s.hs, exchange, now) then s.(routed := Some(m)) else s, [], false)
      case Handles(now) =>
        if s.routed.Some? && s.response.Free? then UnsecuredStep(s.(routed := None), s.routed.value, now)
        else Out(s, [], false)
      case FindsLockTaken => Out(s.(routed := None), [], false)
      case ArrivesWindow(granted, framed, now, now2) =>
        if Receiving(s) && s.hs.session then WindowStep(s, granted, framed, now, now2)
        else Out(s, [], false)
      case ArrivesResponse(ok) =>
        if Receiving(s) && s.hs.session then Out(LoadRearm(s, ok), [], false) else Out(s, [], false)
      case Resumes(now) =>
        match s.response
        case Free => Out(s, [], false)
        case Loaded(rearm) => Out(StoreSynced(s, rearm), [], false)
        case Applied(ok) => Out(ClearWant(s, ok), [], false)
        case Cleared(ok) => Out(Recheck(s, ok, now), [], false)
  }
}
