/**
 A whole native transfer: the sender's request, retry and reply loops, a reply channel
 that may lose, delay, repeat and reorder, the receiver, and everything else that can
 happen to the receiver meanwhile.

 Requests are acknowledged writes, so a request reaches the receiver when it is sent.
 Replies are notifications: one that has ever been sent may be delivered at any later
 time, any number of times, or never.
 */
module DfuTransfer {
  import opened Bits
  import opened Options
  import opened Seqs
  import opened DfuProtocol

  /** `Data(sent)` is the loop over the blob; `Dead` is every way of giving up. */
  datatype Phase = Begin | Data(sent: nat) | Committing | Finished | Dead

  /** `waiting` while a written request has no answer; `attempt` counts its retries. */
  datatype Sender = Sender(id: u32, blob: seq<byte>, chunk: nat, retries: nat,
                           phase: Phase, waiting: bool, attempt: nat)

  /** What the caller supplies: a transfer id and a file whose length fits its field. */
  predicate Sendable(tx: Sender) {
    && tx.id != 0
    && 0 < |tx.blob| < 0x1_0000_0000
    && tx.chunk > 0
    && (tx.phase.Data? ==> tx.phase.sent < |tx.blob|)
  }

  /** The slice the current DATA request carries. */
  function Piece(tx: Sender): seq<byte>
    requires Sendable(tx) && tx.phase.Data?
  {
    tx.blob[tx.phase.sent..Expected(tx)]
  }

  /** The offset a reply must carry to answer the current request. */
  function Expected(tx: Sender): (n: nat)
    requires Sendable(tx)
    ensures n <= |tx.blob| && (tx.phase.Data? ==> tx.phase.sent < n)
  {
    match tx.phase
    case Begin => 0
    case Data(sent) => if |tx.blob| - sent < tx.chunk then |tx.blob| else sent + tx.chunk
    case _ => |tx.blob|
  }

  predicate Asking(tx: Sender) {
    tx.phase.Begin? || tx.phase.Data? || tx.phase.Committing?
  }

  function Request(tx: Sender): seq<byte>
    requires Sendable(tx) && Asking(tx)
  {
    match tx.phase
    case Begin => BeginFrame(tx.id, |tx.blob|)
    case Data(sent) => DataFrame(tx.id, sent, Piece(tx))
    case _ => CommitFrame(tx.id)
  }

  /** The request was answered: on to the next one. */
  function Advance(tx: Sender): (r: Sender)
    requires Sendable(tx)
    ensures Sendable(r) && r.id == tx.id && r.blob == tx.blob
  {
    var next := match tx.phase
      case Begin => Data(0)
      case Data(_) => if Expected(tx) == |tx.blob| then Committing else Data(Expected(tx))
      case Committing => Finished
      case p => p;
    tx.(phase := next, waiting := false, attempt := 0)
  }

  /** One notification taken off the queue while a request is outstanding. */
  function OnReply(tx: Sender, r: seq<byte>): Sender
    requires Sendable(tx)
  {
    if r == [] then tx.(phase := Dead)
    else if r[0] == RSP_OK then
      if |r| != 9 then tx.(phase := Dead)
      else if Get32(r, 1) != tx.id || Get32(r, 5) != Expected(tx) then tx
      else Advance(tx)
    else if r[0] == RSP_ERR && tx.phase.Begin? && |r| > 1 && r[1] == Code(Closed) then
      tx.(waiting := false, attempt := 0)
    else tx.(phase := Dead)
  }

  /**
   `net` is every notification sent. `high` is the most this transfer has ever had
   staged, and `dropped` whether the receiver has let go of it since it took it.
   */
  datatype Sys = Sys(tx: Sender, rx: Rx, net: set<seq<byte>>, high: nat, dropped: bool)

  datatype Event =
    | Write(port: Port)
    | Deliver(reply: seq<byte>)
    | Timeout
    | GiveUp
    | Resize(chunk: nat)
    | Frame(owner: Owner, frame: seq<byte>, port: Port)
    | Chunk(off: u32, total: u32, data: seq<byte>, port: Port)
    | Window(open: bool)
    | Release(owner: Owner)
    | Erase(owner: Owner, port: Port)

  predicate Mine(tx: Sender, rx: Rx) {
    rx.owner == Gatt && rx.id == tx.id
  }

  /** The receiver moved to `rx`, and the peer on this transport was told `replies`. */
  function Moved(sys: Sys, rx: Rx, replies: set<seq<byte>>): Sys {
    sys.(rx := rx, net := sys.net + replies,
         high := if Mine(sys.tx, rx) && |rx.wire| > sys.high then |rx.wire| else sys.high,
         dropped := sys.dropped || (Mine(sys.tx, sys.rx) && !Mine(sys.tx, rx)))
  }

  /** Somebody else's request: another owner's, or one that names another transfer. */
  predicate Foreign(tx: Sender, owner: Owner, frame: seq<byte>) {
    owner != Gatt || (|frame| >= 5 && Get32(frame, 1) != tx.id)
  }

  /** What one event does; an event that is not possible in a state does nothing. */
  function Step(sys: Sys, ev: Event): Sys
    requires Sendable(sys.tx) && Fits(sys.rx)
  {
    match ev
    case Write(port) =>
      if !Asking(sys.tx) || sys.tx.waiting then sys
      else
        var a := RxFrame(sys.rx, Gatt, Request(sys.tx), port);
        Moved(sys, a.rx, {a.reply}).(tx := sys.tx.(waiting := true))
    case Deliver(reply) =>
      if !Asking(sys.tx) || !sys.tx.waiting || reply !in sys.net then sys
      else sys.(tx := OnReply(sys.tx, reply))
    case Timeout =>
      if !Asking(sys.tx) || !sys.tx.waiting then sys
      else if sys.tx.attempt + 1 >= sys.tx.retries then sys.(tx := sys.tx.(phase := Dead))
      else sys.(tx := sys.tx.(waiting := false, attempt := sys.tx.attempt + 1))
    case GiveUp =>
      if !Asking(sys.tx) then sys else sys.(tx := sys.tx.(phase := Dead))
    case Resize(chunk) =>
      // Only before the request has reached the receiver, as when a link refuses a long write.
      if chunk == 0 || sys.tx.waiting || sys.tx.attempt > 0 then sys else sys.(tx := sys.tx.(chunk := chunk))
    case Frame(owner, frame, port) =>
      if !Foreign(sys.tx, owner, frame) then sys
      else
        var a := RxFrame(sys.rx, owner, frame, port);
        Moved(sys, a.rx, if owner == Gatt then {a.reply} else {})
    case Chunk(off, total, data, port) =>
      if !NoWrap(sys.rx, off, data) then sys
      else Moved(sys, UploadState(sys.rx, RxUpload(sys.rx, off, total, data, port)), {})
    case Window(open) =>
      Moved(sys, if open then sys.rx.(open := true) else ResetAll(sys.rx).(open := false), {})
    case Release(owner) =>
      if owner == Nobody || sys.rx.owner != owner then sys else Moved(sys, ResetAll(sys.rx), {})
    case Erase(owner, port) =>
      if !sys.rx.open || (sys.rx.owner != Nobody && sys.rx.owner != owner) || !port.opens || !port.erases then sys
      else Moved(sys, ResetAll(sys.rx.(committed := None)), {})
  }

  /** Nothing of this transfer exists yet; the receiver is otherwise in any state. */
  predicate Initial(sys: Sys) {
    && Sendable(sys.tx) && sys.tx.phase == Begin && !sys.tx.waiting && sys.tx.attempt == 0
    && Fits(sys.rx) && !Mine(sys.tx, sys.rx)
    && (sys.rx.committed.Some? ==> sys.rx.committed.value.owner != Gatt || sys.rx.committed.value.id != sys.tx.id)
    && (forall r <- sys.net :: !AnswersTo(sys.tx.id, r))
    && sys.high == 0 && !sys.dropped
  }

  /** An OK notification that names this transfer. */
  predicate AnswersTo(id: u32, r: seq<byte>) {
    |r| == 9 && r[0] == RSP_OK && Get32(r, 1) == id
  }

  // ----- the invariant

  /** What the receiver holds for this transfer is a prefix of the blob; a commit is all of it. */
  predicate ReceiverOk(tx: Sender, rx: Rx) {
    && Fits(rx)
    && (Mine(tx, rx) ==> rx.total == |tx.blob| && rx.wire <= tx.blob && (rx.staged ==> rx.wire == tx.blob))
    && (rx.committed.Some? && rx.committed.value.owner == Gatt && rx.committed.value.id == tx.id
        ==> rx.committed.value.wire == tx.blob)
  }

  /** The most the requests sent so far can have staged. */
  function Ceiling(tx: Sender): nat
    requires Sendable(tx)
  {
    match tx.phase
    case Begin => 0
    case Data(sent) => if tx.waiting || tx.attempt > 0 then Expected(tx) else sent
    case _ => |tx.blob|
  }

  /** What has certainly been staged at some time. */
  function Floor(tx: Sender): nat {
    match tx.phase
    case Data(sent) => sent
    case Committing => |tx.blob|
    case Finished => |tx.blob|
    case _ => 0
  }

  predicate HighOk(sys: Sys)
    requires Sendable(sys.tx)
  {
    && Floor(sys.tx) <= sys.high <= Ceiling(sys.tx)
    && (Mine(sys.tx, sys.rx) ==> |sys.rx.wire| == sys.high)
    && (forall r <- sys.net :: AnswersTo(sys.tx.id, r) ==> Get32(r, 5) <= sys.high)
  }

  /** A transfer that is not held and has not been dropped has not begun. */
  predicate HeldOk(sys: Sys) {
    !sys.dropped && !Mine(sys.tx, sys.rx) ==>
      && sys.high == 0
      && (sys.tx.phase.Begin? || sys.tx.phase.Dead?)
      && (forall r <- sys.net :: !AnswersTo(sys.tx.id, r))
  }

  predicate Inv(sys: Sys) {
    Sendable(sys.tx) && ReceiverOk(sys.tx, sys.rx) && HighOk(sys) && HeldOk(sys)
  }

  // ----- what each request does to the receiver

  lemma OkReplyFields(id: u32, n: u32)
    ensures |OkReply(id, n)| == 9 && OkReply(id, n)[0] == RSP_OK
    ensures Get32(OkReply(id, n), 1) == id && Get32(OkReply(id, n), 5) == n
  {
    Get32Within([RSP_OK], id, Le32(n));
    Get32Within([RSP_OK] + Le32(id), n, []);
    Empty([RSP_OK] + Le32(id) + Le32(n));
  }

  lemma BeginFields(id: u32, total: u32)
    ensures |BeginFrame(id, total)| == 9 && BeginFrame(id, total)[0] == OP_BEGIN
    ensures Get32(BeginFrame(id, total), 1) == id && Get32(BeginFrame(id, total), 5) == total
  {
    Get32Within([OP_BEGIN], id, Le32(total));
    Get32Within([OP_BEGIN] + Le32(id), total, []);
    Empty([OP_BEGIN] + Le32(id) + Le32(total));
  }

  lemma DataFields(id: u32, offset: u32, payload: seq<byte>)
    ensures |DataFrame(id, offset, payload)| == 9 + |payload| && DataFrame(id, offset, payload)[0] == OP_DATA
    ensures Get32(DataFrame(id, offset, payload), 1) == id && Get32(DataFrame(id, offset, payload), 5) == offset
    ensures DataFrame(id, offset, payload)[9..] == payload
  {
    Get32Within([OP_DATA], id, Le32(offset) + payload);
    assert [OP_DATA] + Le32(id) + (Le32(offset) + payload) == DataFrame(id, offset, payload);
    Get32Within([OP_DATA] + Le32(id), offset, payload);
  }

  lemma CommitFields(id: u32)
    ensures |CommitFrame(id)| == 5 && CommitFrame(id)[0] == OP_COMMIT && Get32(CommitFrame(id), 1) == id
  {
    Get32Within([OP_COMMIT], id, []);
    Empty([OP_COMMIT] + Le32(id));
  }

  /** A reply that names this transfer reports what the receiver then holds for it. */
  predicate Truthful(tx: Sender, a: Answer) {
    AnswersTo(tx.id, a.reply) ==> Mine(tx, a.rx) && Get32(a.reply, 5) == |a.rx.wire|
  }

  lemma OkTruthful(tx: Sender, rx: Rx)
    requires Mine(tx, rx) && |rx.wire| < 0x1_0000_0000
    ensures Truthful(tx, Ok(rx, tx.id))
  {
    OkReplyFields(tx.id, |rx.wire|);
  }

  lemma OwnBegin(tx: Sender, rx: Rx, port: Port) returns (a: Answer)
    requires Sendable(tx) && tx.phase.Begin? && ReceiverOk(tx, rx)
    ensures a == RxFrame(rx, Gatt, Request(tx), port)
    ensures ReceiverOk(tx, a.rx) && Truthful(tx, a)
    ensures Mine(tx, rx) ==> a.rx == rx
    ensures Mine(tx, a.rx) && !Mine(tx, rx) ==> a.rx.wire == []
  {
    a := RxFrame(rx, Gatt, Request(tx), port);
    BeginFields(tx.id, |tx.blob|);
    if Mine(tx, a.rx) {
      OkTruthful(tx, a.rx);
    }
  }

  lemma OwnData(tx: Sender, rx: Rx, port: Port) returns (a: Answer)
    requires Sendable(tx) && tx.phase.Data? && ReceiverOk(tx, rx)
    ensures a == RxFrame(rx, Gatt, Request(tx), port)
    ensures ReceiverOk(tx, a.rx) && Truthful(tx, a)
    ensures Mine(tx, a.rx) ==> Mine(tx, rx)
    ensures Mine(tx, a.rx) ==> |rx.wire| <= |a.rx.wire|
    ensures Mine(tx, a.rx) ==> |a.rx.wire| == |rx.wire| || |a.rx.wire| == Expected(tx)
  {
    hide FeedBytes, Get32, DataFrame, OkReply;
    a := RxFrame(rx, Gatt, Request(tx), port);
    var sent, piece := tx.phase.sent, Piece(tx);
    DataFields(tx.id, sent, piece);
    FeedShape(rx, piece, port);
    if Mine(tx, rx) && |rx.wire| == sent {
      assert rx.wire == tx.blob[..sent];
      assert rx.wire + piece == tx.blob[..Expected(tx)];
    }
    if Mine(tx, a.rx) {
      OkTruthful(tx, a.rx);
    }
  }

  lemma OwnCommit(tx: Sender, rx: Rx, port: Port) returns (a: Answer)
    requires Sendable(tx) && tx.phase.Committing? && ReceiverOk(tx, rx)
    ensures a == RxFrame(rx, Gatt, Request(tx), port)
    ensures ReceiverOk(tx, a.rx) && Truthful(tx, a)
    ensures Mine(tx, a.rx) ==> Mine(tx, rx) && a.rx.wire == rx.wire
  {
    a := RxFrame(rx, Gatt, Request(tx), port);
    CommitFields(tx.id);
    if Mine(tx, a.rx) {
      OkTruthful(tx, a.rx);
    }
  }

  /** The receiver did nothing that this transfer could notice, or claim. */
  predicate Untouched(tx: Sender, rx: Rx, rx': Rx) {
    && Fits(rx')
    && (Mine(tx, rx) ==> rx' == rx)
    && (Mine(tx, rx') ==> Mine(tx, rx))
    && (rx'.committed.Some? ==>
          rx'.committed == rx.committed || rx'.committed.value.owner != Gatt || rx'.committed.value.id != tx.id)
  }

  predicate Silent(tx: Sender, owner: Owner, reply: seq<byte>) {
    owner == Gatt ==> !AnswersTo(tx.id, reply)
  }

  lemma OkSilent(tx: Sender, owner: Owner, frame: seq<byte>, rx: Rx)
    requires Foreign(tx, owner, frame) && |frame| >= 5 && |rx.wire| < 0x1_0000_0000
    ensures Silent(tx, owner, Ok(rx, Get32(frame, 1)).reply)
  {
    OkReplyFields(Get32(frame, 1), |rx.wire|);
  }

  lemma ForeignBegin(tx: Sender, rx: Rx, owner: Owner, frame: seq<byte>, port: Port)
    requires Fits(rx) && Foreign(tx, owner, frame)
    ensures Untouched(tx, rx, DoBegin(rx, owner, frame, port).rx)
    ensures Silent(tx, owner, DoBegin(rx, owner, frame, port).reply)
  {
    hide OkReply, Get32;
    if |frame| == 9 {
      var b := BeginAt(rx, owner, Get32(frame, 1), Get32(frame, 5), port);
      OkSilent(tx, owner, frame, b.rx);
    }
  }

  lemma ForeignData(tx: Sender, rx: Rx, owner: Owner, frame: seq<byte>, port: Port)
    requires Fits(rx) && Foreign(tx, owner, frame)
    ensures Untouched(tx, rx, DoData(rx, owner, frame, port).rx)
    ensures Silent(tx, owner, DoData(rx, owner, frame, port).reply)
  {
    hide OkReply, Get32, FeedBytes;
    if |frame| >= 9 {
      FeedShape(rx, frame[9..], port);
      OkSilent(tx, owner, frame, rx);
      var f := FeedBytes(rx, frame[9..], port);
      if f.Done? {
        OkSilent(tx, owner, frame, f.rx);
      }
    }
  }

  lemma ForeignCommit(tx: Sender, rx: Rx, owner: Owner, frame: seq<byte>, port: Port)
    requires Fits(rx) && Foreign(tx, owner, frame)
    ensures Untouched(tx, rx, DoCommit(rx, owner, frame, port).rx)
    ensures Silent(tx, owner, DoCommit(rx, owner, frame, port).reply)
  {
    hide OkReply, Get32, CommitNow;
    if |frame| == 5 {
      CommitShape(rx, port);
      OkSilent(tx, owner, frame, rx);
      var c := CommitNow(rx, port);
      if c.Done? {
        OkSilent(tx, owner, frame, c.rx);
      }
    }
  }

  lemma ForeignAbort(tx: Sender, rx: Rx, owner: Owner, frame: seq<byte>, port: Port)
    requires Fits(rx) && Foreign(tx, owner, frame)
    ensures Untouched(tx, rx, DoAbort(rx, owner, frame, port).rx)
    ensures Silent(tx, owner, DoAbort(rx, owner, frame, port).reply)
  {
    hide OkReply, Get32;
    if |frame| == 5 {
      OkSilent(tx, owner, frame, ResetAll(rx.(committed := None)));
    }
  }

  /** Nobody else's request can touch this transfer, or speak for it. */
  lemma ForeignFrame(tx: Sender, rx: Rx, owner: Owner, frame: seq<byte>, port: Port)
    requires Fits(rx) && Foreign(tx, owner, frame)
    ensures Untouched(tx, rx, RxFrame(rx, owner, frame, port).rx)
    ensures Silent(tx, owner, RxFrame(rx, owner, frame, port).reply)
  {
    hide DoBegin, DoData, DoCommit, DoAbort;
    ForeignBegin(tx, rx, owner, frame, port);
    ForeignData(tx, rx, owner, frame, port);
    ForeignCommit(tx, rx, owner, frame, port);
    ForeignAbort(tx, rx, owner, frame, port);
  }

  lemma ForeignTake(tx: Sender, rx: Rx, data: seq<byte>, port: Port)
    requires Fits(rx) && rx.owner != Gatt && |rx.file| + |data| < 0x1_0000_0000
    ensures Untouched(tx, rx, UploadState(rx, TakeChunk(rx, data, port)))
  {
    hide PatchPart, FeedBytes, CommitNow;
    var part := PatchPart(rx, data);
    FeedShape(rx, part, port);
    var r := (if part == [] then rx else FeedBytes(rx, part, port).rx).(file := rx.file + data);
    CommitShape(r, port);
  }

  lemma ForeignChunk(tx: Sender, rx: Rx, off: u32, total: u32, data: seq<byte>, port: Port)
    requires Fits(rx) && NoWrap(rx, off, data)
    ensures Untouched(tx, rx, UploadState(rx, RxUpload(rx, off, total, data, port)))
  {
    hide Measure, TakeChunk;
    if rx.owner != Gatt {
      if off == |rx.file| {
        ForeignTake(tx, rx, data, port);
      }
      var g := Measure(data, total);
      if off == 0 && g.Geometry? {
        var b := BeginAt(rx.(skip := g.skip, inner := g.inner), Smp, 1, g.inner, port);
        ForeignTake(tx, b.rx.(file := []), data, port);
      }
    }
  }

  // ----- the invariant over runs

  lemma UntouchedOk(tx: Sender, rx: Rx, rx': Rx)
    requires ReceiverOk(tx, rx) && Untouched(tx, rx, rx')
    ensures ReceiverOk(tx, rx')
  {
  }

  /** A move that leaves this transfer alone, or drops it, keeps the invariant. */
  lemma MovedKeeps(sys: Sys, rx: Rx, replies: set<seq<byte>>)
    requires Inv(sys) && ReceiverOk(sys.tx, rx)
    requires Mine(sys.tx, rx) ==> Mine(sys.tx, sys.rx) && |rx.wire| == |sys.rx.wire|
    requires forall r <- replies :: !AnswersTo(sys.tx.id, r)
    ensures Inv(Moved(sys, rx, replies))
  {
    hide ReceiverOk, AnswersTo;
  }

  lemma WriteKeeps(sys: Sys, port: Port)
    requires Inv(sys)
    ensures Inv(Step(sys, Write(port)))
  {
    hide RxFrame, Request, Get32;
    var tx := sys.tx;
    if Asking(tx) && !tx.waiting {
      var a: Answer;
      match tx.phase {
        case Begin => a := OwnBegin(tx, sys.rx, port);
        case Data(_) => a := OwnData(tx, sys.rx, port);
        case _ => a := OwnCommit(tx, sys.rx, port);
      }
    }
  }

  lemma DeliverKeeps(sys: Sys, reply: seq<byte>)
    requires Inv(sys)
    ensures Inv(Step(sys, Deliver(reply)))
  {
    hide Get32;
  }

  lemma FrameKeeps(sys: Sys, owner: Owner, frame: seq<byte>, port: Port)
    requires Inv(sys)
    ensures Inv(Step(sys, Frame(owner, frame, port)))
  {
    hide RxFrame, AnswersTo, ReceiverOk, HighOk, HeldOk;
    if Foreign(sys.tx, owner, frame) {
      FitsOf(sys.tx, sys.rx);
      var a := RxFrame(sys.rx, owner, frame, port);
      ForeignFrame(sys.tx, sys.rx, owner, frame, port);
      UntouchedOk(sys.tx, sys.rx, a.rx);
      MovedKeeps(sys, a.rx, if owner == Gatt then {a.reply} else {});
    }
  }

  lemma FitsOf(tx: Sender, rx: Rx)
    requires ReceiverOk(tx, rx)
    ensures Fits(rx)
  {
  }

  lemma ChunkKeeps(sys: Sys, off: u32, total: u32, data: seq<byte>, port: Port)
    requires Inv(sys)
    ensures Inv(Step(sys, Chunk(off, total, data, port)))
  {
    hide RxUpload, AnswersTo, ReceiverOk, HighOk, HeldOk;
    if NoWrap(sys.rx, off, data) {
      FitsOf(sys.tx, sys.rx);
      var r := UploadState(sys.rx, RxUpload(sys.rx, off, total, data, port));
      ForeignChunk(sys.tx, sys.rx, off, total, data, port);
      UntouchedOk(sys.tx, sys.rx, r);
      MovedKeeps(sys, r, {});
    }
  }

  /** Events that clear the receiver, or only open its window. */
  lemma ClearKeeps(sys: Sys, ev: Event)
    requires Inv(sys) && (ev.Window? || ev.Release? || ev.Erase?)
    ensures Inv(Step(sys, ev))
  {
    hide HighOk, HeldOk, AnswersTo;
    var rx := sys.rx;
    match ev {
      case Window(open) =>
        MovedKeeps(sys, if open then rx.(open := true) else ResetAll(rx).(open := false), {});
      case Release(owner) =>
        MovedKeeps(sys, ResetAll(rx), {});
      case Erase(owner, port) =>
        MovedKeeps(sys, ResetAll(rx.(committed := None)), {});
      case _ =>
    }
  }

  lemma StepKeeps(sys: Sys, ev: Event)
    requires Inv(sys)
    ensures Inv(Step(sys, ev))
  {
    hide RxFrame, RxUpload, Request, AnswersTo, OnReply;
    match ev {
      case Write(port) => WriteKeeps(sys, port);
      case Deliver(reply) => DeliverKeeps(sys, reply);
      case Frame(owner, frame, port) => FrameKeeps(sys, owner, frame, port);
      case Chunk(off, total, data, port) => ChunkKeeps(sys, off, total, data, port);
      case Window(_) => ClearKeeps(sys, ev);
      case Release(_) => ClearKeeps(sys, ev);
      case Erase(_, _) => ClearKeeps(sys, ev);
      case _ =>
    }
  }

  lemma StepSameSender(sys: Sys, ev: Event)
    requires Sendable(sys.tx) && Fits(sys.rx)
    ensures Step(sys, ev).tx.id == sys.tx.id && Step(sys, ev).tx.blob == sys.tx.blob
  {
    hide RxFrame, RxUpload, Request;
  }

  /** Any sequence of events, from any state that satisfies the invariant. */
  function Run(sys: Sys, evs: seq<Event>): (r: Sys)
    requires Inv(sys)
    ensures Inv(r) && r.tx.id == sys.tx.id && r.tx.blob == sys.tx.blob
    decreases evs
  {
    if evs == [] then sys
    else
      var before, ev := Run(sys, evs[..|evs| - 1]), evs[|evs| - 1];
      StepKeeps(before, ev);
      StepSameSender(before, ev);
      Step(before, ev)
  }

  lemma InvParts(sys: Sys)
    requires Inv(sys)
    ensures Sendable(sys.tx) && Fits(sys.rx) && ReceiverOk(sys.tx, sys.rx)
  {
  }

  /** Every start of a transfer satisfies the invariant. */
  lemma InitialInv(sys: Sys)
    requires Initial(sys)
    ensures Inv(sys)
  {
  }

  // ----- what a transfer achieves

  /** About to write a request for the first time: the top of a loop iteration. */
  predicate TopOfLoop(tx: Sender) {
    tx.phase.Data? && !tx.waiting && tx.attempt == 0
  }

  /**
   Under any loss, delay, repetition or reordering of replies, any retries and any
   traffic by others, each iteration of the DATA loop starts with exactly `blob[..sent]`
   staged wherever the receiver holds the transfer, which it does unless it has dropped it.
   */
  lemma StagedAtEachIteration(sys: Sys, evs: seq<Event>)
    requires Initial(sys)
    ensures var r := Run(sys, evs);
            TopOfLoop(r.tx) ==>
              && (Mine(r.tx, r.rx) ==> r.rx.wire == r.tx.blob[..r.tx.phase.sent])
              && (!r.dropped ==> Mine(r.tx, r.rx))
  {
    var r := Run(sys, evs);
    if TopOfLoop(r.tx) && Mine(r.tx, r.rx) {
      assert r.rx.wire <= r.tx.blob && |r.rx.wire| == r.high == r.tx.phase.sent;
    }
  }

  /** Past the loop the whole blob has been staged, and is wherever the receiver still holds the transfer. */
  lemma StagedAtLoopExit(sys: Sys, evs: seq<Event>)
    requires Initial(sys)
    ensures var r := Run(sys, evs);
            r.tx.phase.Committing? || r.tx.phase.Finished? ==>
              && r.high == |sys.tx.blob|
              && (Mine(r.tx, r.rx) ==> r.rx.wire == sys.tx.blob)
              && (!r.dropped ==> Mine(r.tx, r.rx))
  {
    var r := Run(sys, evs);
    if Mine(r.tx, r.rx) && r.high == |r.tx.blob| {
      assert r.rx.wire <= r.tx.blob && |r.rx.wire| == |r.tx.blob|;
    }
  }

  lemma StepHigh(sys: Sys, ev: Event)
    requires Inv(sys)
    ensures var r := Step(sys, ev);
            r.high == sys.high || (r.high > sys.high && Mine(r.tx, r.rx) && |r.rx.wire| == r.high)
  {
    hide RxFrame, RxUpload, Request, OnReply;
  }

  /** The high-water mark is not a guess: at some point of the run that much was staged. */
  lemma {:induction false} HighWasReached(sys: Sys, evs: seq<Event>) returns (k: nat)
    requires Initial(sys)
    ensures k <= |evs|
    ensures var r, at := Run(sys, evs), Run(sys, evs[..k]);
            r.high > 0 ==> Mine(at.tx, at.rx) && |at.rx.wire| == r.high && at.rx.wire <= sys.tx.blob
  {
    InitialInv(sys);
    hide Step, HighOk, HeldOk;
    k := |evs|;
    assert evs[..k] == evs;
    if evs != [] {
      var n := |evs| - 1;
      var before := Run(sys, evs[..n]);
      StepHigh(before, evs[n]);
      if Run(sys, evs).high == before.high {
        k := HighWasReached(sys, evs[..n]);
        assert evs[..n][..k] == evs[..k];
      } else {
        assert evs[..k] == evs;
      }
    }
  }

  /** Whatever this transfer ever gets written for the bootloader is the blob, byte for byte. */
  lemma CommittedIsTheBlob(sys: Sys, evs: seq<Event>)
    requires Initial(sys)
    ensures var c := Run(sys, evs).rx.committed;
            c.Some? && c.value.owner == Gatt && c.value.id == sys.tx.id ==> c.value.wire == sys.tx.blob
  {
  }

  /** Only an OK for this transfer at exactly the expected offset moves the sender on. */
  lemma OnlyTheAnswerAdvances(tx: Sender, r: seq<byte>)
    requires Sendable(tx)
    ensures OnReply(tx, r).phase != tx.phase && OnReply(tx, r).phase != Dead ==> r == OkReply(tx.id, Expected(tx))
    ensures Asking(tx) ==> OnReply(tx, OkReply(tx.id, Expected(tx))) == Advance(tx)
  {
    OkReplyFields(tx.id, Expected(tx));
    if |r| == 9 && r[0] == RSP_OK && Get32(r, 1) == tx.id && Get32(r, 5) == Expected(tx) {
      Le32Unique(r, 1, tx.id);
      Le32Unique(r, 5, Expected(tx));
      assert r == [r[0]] + r[1..5] + r[5..9];
    }
  }

  lemma Le32Unique(s: seq<byte>, at: nat, n: u32)
    requires at + 4 <= |s| && Get32(s, at) == n
    ensures s[at..at + 4] == Le32(n)
  {
    var t := s[at..at + 4];
    assert t == [s[at], s[at + 1], s[at + 2], s[at + 3]];
    Bytes4(s[at], s[at + 1], s[at + 2], s[at + 3]);
  }

  lemma Bytes4(a: byte, b: byte, c: byte, d: byte)
    ensures var n := a as int + 0x100 * (b as int) + 0x1_0000 * (c as int) + 0x100_0000 * (d as int);
            Le32(n) == [a, b, c, d]
  {
    var z := c as int + 0x100 * (d as int);
    var y := b as int + 0x100 * z;
    var n := a as int + 0x100 * y;
    assert n / 0x100 == y && n % 0x100 == a;
    assert y / 0x100 == z && y % 0x100 == b;
    assert z / 0x100 == d && z % 0x100 == c;
  }

  lemma RunThen(sys: Sys, evs: seq<Event>, ev: Event)
    requires Inv(sys)
    ensures Run(sys, evs + [ev]) == Step(Run(sys, evs), ev)
  {
    assert (evs + [ev])[..|evs|] == evs;
  }

  const GOOD := Port(true, true, true, true, true)
}
