/**
 The same transfer over a channel that may lose, delay and reorder notifications but
 delivers each at most once. Here the answer to COMMIT can be believed exactly if the last
 DATA request was written only once.
 */
module DfuOnce {
  import opened Bits
  import opened Options
  import opened DfuProtocol
  import opened DfuTransfer
  import opened DfuCommit

  /**
   `mail` is every notification sent and not yet delivered. `wrote` counts how often the
   request that ends the blob was written, and `accepts` the COMMITs answered OK.
   */
  datatype Post = Post(sys: Sys, mail: multiset<seq<byte>>, wrote: nat, accepts: nat)

  predicate Writes(sys: Sys, ev: Event) {
    ev.Write? && Asking(sys.tx) && !sys.tx.waiting
  }

  predicate Overhears(sys: Sys, ev: Event) {
    ev.Frame? && ev.owner == Gatt && Foreign(sys.tx, Gatt, ev.frame)
  }

  /** The DATA request that ends the blob. */
  predicate LastPiece(tx: Sender) {
    Sendable(tx) && tx.phase.Data? && Expected(tx) == |tx.blob|
  }

  /** One event, the channel delivering what it still has. */
  function Once(p: Post, ev: Event): Post
    requires Inv(p.sys)
  {
    var s := p.sys;
    if Writes(s, ev) then
      var reply := RxFrame(s.rx, Gatt, Request(s.tx), ev.port).reply;
      Post(Step(s, ev), p.mail + multiset{reply},
           p.wrote + (if LastPiece(s.tx) then 1 else 0),
           p.accepts + (if s.tx.phase.Committing? && reply == Full(s.tx) then 1 else 0))
    else if ev.Deliver? then
      if ev.reply !in p.mail || !Asking(s.tx) || !s.tx.waiting then p
      else p.(sys := Step(s, ev), mail := p.mail - multiset{ev.reply})
    else if Overhears(s, ev) then
      p.(sys := Step(s, ev), mail := p.mail + multiset{RxFrame(s.rx, Gatt, ev.frame, ev.port).reply})
    else p.(sys := Step(s, ev))
  }

  // ----- what the receiver adds to the invariant

  predicate Held(id: u32, rx: Rx) {
    rx.owner == Gatt && rx.id == id ==>
      rx.open && (rx.staged ==> rx.committed == Some(Commit(Gatt, id, rx.wire)))
  }

  /** In the loop, the receiver is at one end of the current piece or the other. */
  predicate AtAnEnd(sys: Sys) {
    Sendable(sys.tx) && (sys.tx.phase.Data? ==> sys.high == sys.tx.phase.sent || sys.high == Expected(sys.tx))
  }

  /** The count of full answers still under way, against what was written. */
  predicate Tally(p: Post) {
    && Sendable(p.sys.tx)
    && var tx, k, mine := p.sys.tx, p.mail[Full(p.sys.tx)], Mine(p.sys.tx, p.sys.rx);
       match tx.phase
       case Begin => k == 0 && p.wrote == 0 && p.accepts == 0
       case Data(_) =>
         && p.accepts == 0
         && (if Expected(tx) < |tx.blob| then k == 0 && p.wrote == 0
             else && k <= p.wrote && (mine ==> k == p.wrote)
                  && (p.wrote > 0 ==> tx.waiting || tx.attempt > 0))
       case Committing =>
         && k + 1 <= p.wrote + p.accepts && (mine ==> k + 1 == p.wrote + p.accepts)
         && (!tx.waiting && tx.attempt == 0 ==> p.accepts == 0)
       case Finished => k + 2 <= p.wrote + p.accepts
       case Dead => true
  }

  predicate PostInv(p: Post) {
    && Inv(p.sys) && Held(p.sys.tx.id, p.sys.rx) && AtAnEnd(p.sys) && Tally(p)
    && (forall r <- p.mail :: r in p.sys.net)
  }

  // ----- the sender's own requests

  lemma FullIs(tx: Sender)
    requires Sendable(tx)
    ensures AnswersTo(tx.id, Full(tx)) && Get32(Full(tx), 5) == |tx.blob|
  {
    OkReplyFields(tx.id, |tx.blob|);
  }

  lemma BeginAnswer(tx: Sender, rx: Rx, port: Port)
    requires Sendable(tx) && tx.phase.Begin? && ReceiverOk(tx, rx) && Held(tx.id, rx) && (Mine(tx, rx) ==> rx.wire == [])
    ensures var a := RxFrame(rx, Gatt, Request(tx), port);
            a.reply != Full(tx) && Held(tx.id, a.rx)
  {
    var a := OwnBegin(tx, rx, port);
    FullIs(tx);
    BeginFields(tx.id, |tx.blob|);
  }

  lemma DataAnswer(tx: Sender, rx: Rx, port: Port)
    requires Sendable(tx) && tx.phase.Data? && ReceiverOk(tx, rx) && Held(tx.id, rx)
    requires Mine(tx, rx) ==> |rx.wire| == tx.phase.sent || |rx.wire| == Expected(tx)
    ensures var a := RxFrame(rx, Gatt, Request(tx), port);
            && Held(tx.id, a.rx)
            && (Mine(tx, a.rx) ==> a.reply == OkReply(tx.id, Expected(tx)) && |a.rx.wire| == Expected(tx))
            && (a.reply == Full(tx) ==> Expected(tx) == |tx.blob|)
  {
    hide FeedBytes, Get32, DataFrame, OkReply, AnswersTo;
    var a := OwnData(tx, rx, port);
    var sent, piece := tx.phase.sent, Piece(tx);
    DataFields(tx.id, sent, piece);
    FeedShape(rx, piece, port);
    FullIs(tx);
  }

  lemma CommitAnswer(tx: Sender, rx: Rx, port: Port)
    requires Sendable(tx) && tx.phase.Committing? && ReceiverOk(tx, rx) && Held(tx.id, rx)
    requires Mine(tx, rx) ==> |rx.wire| == |tx.blob|
    ensures var a := RxFrame(rx, Gatt, Request(tx), port);
            && Held(tx.id, a.rx)
            && (Mine(tx, a.rx) ==> a.reply == Full(tx))
            && (a.reply == Full(tx) ==> Mine(tx, a.rx) && a.rx.committed == Some(Commit(Gatt, tx.id, tx.blob)))
  {
    hide CommitNow, Get32, CommitFrame, OkReply, AnswersTo, HeaderMatches;
    var a := OwnCommit(tx, rx, port);
    CommitFields(tx.id);
    CommitTells(rx, port);
    FullIs(tx);
    if Mine(tx, rx) {
      assert rx.wire == tx.blob;
    }
  }

  /** A commit that succeeds leaves the transfer committed. */
  lemma CommitTells(rx: Rx, port: Port)
    ensures var c := CommitNow(rx, port);
            c.Done? ==> && c.rx == rx.(active := c.rx.active, staged := true, committed := c.rx.committed)
                        && (rx.staged || c.rx.committed == Some(Commit(rx.owner, rx.id, rx.wire)))
                        && (rx.staged ==> c.rx == rx)
  {
    hide HeaderMatches;
  }

  lemma WritePost(p: Post, ev: Event)
    requires PostInv(p) && Writes(p.sys, ev)
    ensures PostInv(Once(p, ev))
  {
    WriteKeeps(p.sys, ev.port);
    var s := p.sys;
    var tx, rx := s.tx, s.rx;
    if Mine(tx, rx) {
      WireIs(s);
    }
    match tx.phase {
      case Begin => WriteBegin(p, ev);
      case Data(_) => WriteData(p, ev);
      case _ => WriteCommit(p, ev);
    }
  }

  lemma WireIs(s: Sys)
    requires Inv(s) && Mine(s.tx, s.rx)
    ensures |s.rx.wire| == s.high && (s.tx.phase.Begin? ==> s.rx.wire == [])
    ensures s.tx.phase.Committing? ==> |s.rx.wire| == |s.tx.blob|
  {
  }

  lemma WriteBegin(p: Post, ev: Event)
    requires PostInv(p) && Writes(p.sys, ev) && p.sys.tx.phase.Begin? && Inv(Step(p.sys, ev))
    requires Mine(p.sys.tx, p.sys.rx) ==> p.sys.rx.wire == []
    ensures PostInv(Once(p, ev))
  {
    hide RxFrame, Request, OkReply, Inv, Held;
    InvParts(p.sys);
    BeginAnswer(p.sys.tx, p.sys.rx, ev.port);
  }

  lemma WriteData(p: Post, ev: Event)
    requires PostInv(p) && Writes(p.sys, ev) && p.sys.tx.phase.Data? && Inv(Step(p.sys, ev))
    requires Mine(p.sys.tx, p.sys.rx) ==> |p.sys.rx.wire| == p.sys.high
    ensures PostInv(Once(p, ev))
  {
    hide RxFrame, Request, OkReply, Inv, Held;
    InvParts(p.sys);
    DataAnswer(p.sys.tx, p.sys.rx, ev.port);
    var a := OwnData(p.sys.tx, p.sys.rx, ev.port);
  }

  lemma WriteCommit(p: Post, ev: Event)
    requires PostInv(p) && Writes(p.sys, ev) && p.sys.tx.phase.Committing? && Inv(Step(p.sys, ev))
    requires Mine(p.sys.tx, p.sys.rx) ==> |p.sys.rx.wire| == |p.sys.tx.blob|
    ensures PostInv(Once(p, ev))
  {
    hide RxFrame, Request, OkReply, Inv, Held;
    InvParts(p.sys);
    CommitAnswer(p.sys.tx, p.sys.rx, ev.port);
    var a := OwnCommit(p.sys.tx, p.sys.rx, ev.port);
  }

  // ----- notifications

  lemma DeliverPost(p: Post, ev: Event)
    requires PostInv(p) && ev.Deliver?
    ensures PostInv(Once(p, ev))
  {
    var s := p.sys;
    if ev.reply in p.mail && Asking(s.tx) && s.tx.waiting {
      DeliverKeeps(s, ev.reply);
      Delivered(p, ev);
    }
  }

  lemma Delivered(p: Post, ev: Event)
    requires PostInv(p) && ev.Deliver? && ev.reply in p.mail && Asking(p.sys.tx) && p.sys.tx.waiting
    requires Inv(Step(p.sys, ev))
    ensures PostInv(Once(p, ev))
  {
    hide OnReply, OkReply, Inv, Held;
    InvParts(p.sys);
    var tx, t := p.sys.tx, OnReply(p.sys.tx, ev.reply);
    OnlyTheAnswerAdvances(tx, ev.reply);
    Replies(tx, ev.reply);
    InvParts(Step(p.sys, ev));
    if t.phase.Data? && t == Advance(tx) {
      HighAtTop(Step(p.sys, ev));
    }
    FullIs(tx);
    PieceIsShort(tx);
  }

  /** What a notification can do to the sender. */
  lemma Replies(tx: Sender, r: seq<byte>)
    requires Sendable(tx)
    ensures var t := OnReply(tx, r);
            || t.phase == Dead
            || (t == Advance(tx) && r == OkReply(tx.id, Expected(tx)))
            || (r != OkReply(tx.id, Expected(tx)) && t == tx)
            || (r != OkReply(tx.id, Expected(tx)) && tx.phase.Begin? && t == tx.(waiting := false, attempt := 0))
    ensures OnReply(tx, r).id == tx.id && OnReply(tx, r).blob == tx.blob
  {
    hide OkReply, Get32;
    OkReplyFields(tx.id, Expected(tx));
    if |r| == 9 && r[0] == RSP_OK && Get32(r, 1) == tx.id && Get32(r, 5) == Expected(tx) {
      Le32Unique(r, 1, tx.id);
      Le32Unique(r, 5, Expected(tx));
      SpelledOut(r);
    }
  }

  lemma SpelledOut(r: seq<byte>)
    requires |r| == 9 && r[0] == RSP_OK
    ensures r == [RSP_OK] + r[1..5] + r[5..9]
    ensures forall id: u32, n: u32 :: r[1..5] == Le32(id) && r[5..9] == Le32(n) ==> r == OkReply(id, n)
  {
    assert r == [RSP_OK] + r[1..5] + r[5..9];
  }

  lemma HighAtTop(s: Sys)
    requires Inv(s) && TopOfLoop(s.tx)
    ensures s.high == s.tx.phase.sent
  {
  }

  lemma PieceIsShort(tx: Sender)
    requires Sendable(tx)
    ensures Expected(tx) < |tx.blob| ==> OkReply(tx.id, Expected(tx)) != Full(tx)
  {
    OkReplyFields(tx.id, Expected(tx));
    OkReplyFields(tx.id, |tx.blob|);
  }

  // ----- everything else

  /** What others do never makes this transfer the receiver's, and leaves it alone where it is. */
  lemma OthersLeave(sys: Sys, ev: Event)
    requires Inv(sys) && !Writes(sys, ev) && !ev.Deliver?
    ensures var r := Step(sys, ev);
            && (Mine(r.tx, r.rx) ==> Mine(sys.tx, sys.rx) && r.rx == sys.rx.(open := r.rx.open) && (sys.rx.open ==> r.rx.open))
            && r.high == sys.high
  {
    hide RxFrame, RxUpload, Request, AnswersTo, HeldOk, FeedBytes;
    FitsOf(sys.tx, sys.rx);
    match ev {
      case Frame(owner, frame, port) =>
        if Foreign(sys.tx, owner, frame) {
          ForeignFrame(sys.tx, sys.rx, owner, frame, port);
        }
      case Chunk(off, total, data, port) =>
        if NoWrap(sys.rx, off, data) {
          ForeignChunk(sys.tx, sys.rx, off, total, data, port);
        }
      case _ =>
    }
  }

  lemma SilentPost(p: Post, ev: Event)
    requires Inv(p.sys) && Overhears(p.sys, ev)
    ensures RxFrame(p.sys.rx, Gatt, ev.frame, ev.port).reply != Full(p.sys.tx)
    ensures RxFrame(p.sys.rx, Gatt, ev.frame, ev.port).reply in Step(p.sys, ev).net
  {
    hide RxFrame, OkReply, AnswersTo;
    FitsOf(p.sys.tx, p.sys.rx);
    ForeignFrame(p.sys.tx, p.sys.rx, Gatt, ev.frame, ev.port);
    FullIs(p.sys.tx);
  }

  /** What they do to the sender: a timeout, giving up, or another chunk size before anything is written. */
  lemma SenderAlone(sys: Sys, ev: Event)
    requires Inv(sys) && !Writes(sys, ev) && !ev.Deliver?
    ensures var tx, t := sys.tx, Step(sys, ev).tx;
            && Sendable(t) && t.id == tx.id && t.blob == tx.blob && sys.net <= Step(sys, ev).net
            && (t.phase == Dead
                || t == tx
                || (t == tx.(waiting := false, attempt := t.attempt) && t.attempt > 0)
                || (t == tx.(chunk := t.chunk) && !tx.waiting && tx.attempt == 0))
  {
    StepKeeps(sys, ev);
    InvParts(Step(sys, ev));
    hide RxFrame, RxUpload, Request, Inv;
  }

  lemma OtherPost(p: Post, ev: Event)
    requires PostInv(p) && !Writes(p.sys, ev) && !ev.Deliver?
    ensures PostInv(Once(p, ev))
  {
    StepKeeps(p.sys, ev);
    OthersLeave(p.sys, ev);
    SenderAlone(p.sys, ev);
    if TopOfLoop(p.sys.tx) {
      HighAtTop(p.sys);
    }
    if Overhears(p.sys, ev) {
      SilentPost(p, ev);
    }
    hide RxFrame, RxUpload, Request, Inv, Step, OkReply, Tally, AtAnEnd;
    InvParts(p.sys);
    var r := Once(p, ev);
    TallyStays(p, r);
  }

  /** The count survives whatever leaves the full answers and the writes alone. */
  lemma TallyStays(p: Post, r: Post)
    requires Tally(p) && AtAnEnd(p.sys) && (TopOfLoop(p.sys.tx) ==> p.sys.high == p.sys.tx.phase.sent)
    requires Sendable(r.sys.tx) && r.sys.tx.id == p.sys.tx.id && r.sys.tx.blob == p.sys.tx.blob
    requires r.mail[Full(p.sys.tx)] == p.mail[Full(p.sys.tx)] && r.wrote == p.wrote && r.accepts == p.accepts
    requires r.sys.high == p.sys.high && (Mine(r.sys.tx, r.sys.rx) ==> Mine(p.sys.tx, p.sys.rx))
    requires var tx, t := p.sys.tx, r.sys.tx;
             || t.phase == Dead
             || t == tx
             || (t == tx.(waiting := false, attempt := t.attempt) && t.attempt > 0)
             || (t == tx.(chunk := t.chunk) && !tx.waiting && tx.attempt == 0)
    ensures Tally(r) && AtAnEnd(r.sys)
  {
    hide OkReply;
  }

  lemma OnceKeeps(p: Post, ev: Event)
    requires PostInv(p)
    ensures PostInv(Once(p, ev))
  {
    hide PostInv, Once;
    if Writes(p.sys, ev) {
      WritePost(p, ev);
    } else if ev.Deliver? {
      DeliverPost(p, ev);
    } else {
      OtherPost(p, ev);
    }
  }

  function RunOnce(p: Post, evs: seq<Event>): (r: Post)
    requires PostInv(p)
    ensures PostInv(r)
  {
    if evs == [] then p
    else
      var before := RunOnce(p, evs[..|evs| - 1]);
      OnceKeeps(before, evs[|evs| - 1]);
      Once(before, evs[|evs| - 1])
  }

  /** A transfer about to begin, with whatever mail of others is under way. */
  predicate Fresh(p: Post) {
    Initial(p.sys) && (forall r <- p.mail :: r in p.sys.net) && p.wrote == 0 && p.accepts == 0
  }

  lemma FreshInv(p: Post)
    requires Fresh(p)
    ensures PostInv(p)
  {
    InitialInv(p.sys);
    FullIs(p.sys.tx);
  }

  // ----- what the answer to COMMIT proves

  /** A COMMIT answered OK has committed the blob. */
  lemma AcceptedIsCommitted(p: Post, ev: Event)
    requires PostInv(p) && Once(p, ev).accepts > p.accepts
    ensures Once(p, ev).sys.rx.committed == Some(Commit(Gatt, p.sys.tx.id, p.sys.tx.blob))
  {
    hide RxFrame, Request, OkReply, Held;
    AtCommitLength(p.sys);
    CommitAnswer(p.sys.tx, p.sys.rx, ev.port);
  }

  lemma AtCommitLength(s: Sys)
    requires Inv(s)
    ensures Mine(s.tx, s.rx) && s.tx.phase.Committing? ==> |s.rx.wire| == |s.tx.blob|
  {
  }

  /** If the last DATA request was written once, a run that ends as a success has had its COMMIT accepted. */
  lemma OnceMeansAccepted(p: Post, evs: seq<Event>)
    requires Fresh(p)
    ensures PostInv(p)
    ensures var r := RunOnce(p, evs);
            r.sys.tx.phase == Finished && r.wrote <= 1 ==> r.accepts >= 1
  {
    FreshInv(p);
    hide Fresh;
  }

  lemma PastLoopStep(p: Post, ev: Event)
    requires PostInv(p) && !p.sys.tx.phase.Begin? && !p.sys.tx.phase.Data?
    ensures var r := Once(p, ev);
            r.wrote == p.wrote && !r.sys.tx.phase.Begin? && !r.sys.tx.phase.Data?
  {
    hide RxFrame, RxUpload, Request, OkReply, Held, Tally, AtAnEnd, OnReply;
    if ev.Deliver? {
      Replies(p.sys.tx, ev.reply);
    }
  }

  lemma {:induction false} PastLoop(p: Post, more: seq<Event>)
    requires PostInv(p) && !p.sys.tx.phase.Begin? && !p.sys.tx.phase.Data?
    ensures var r := RunOnce(p, more);
            r.wrote == p.wrote && !r.sys.tx.phase.Begin? && !r.sys.tx.phase.Data?
  {
    hide PostInv, Once;
    if more != [] {
      PastLoop(p, more[..|more| - 1]);
      PastLoopStep(RunOnce(p, more[..|more| - 1]), more[|more| - 1]);
    }
  }

  /** A COMMIT refused, and a spare answer to the last DATA request delivered in its place. */
  lemma SpareAnswer(p: Post) returns (more: seq<Event>)
    requires PostInv(p) && AtCommit(p.sys) && p.mail[Full(p.sys.tx)] > 0
    ensures var r := RunOnce(p, more); r.sys.tx.phase == Finished && r.accepts == p.accepts
  {
    var refuse, late := Write(GOOD.(writes := false)), Deliver(Full(p.sys.tx));
    more := [refuse, late];
    var r := CommitRefused(p.sys);
    var p1 := Once(p, refuse);
    OnceKeeps(p, refuse);
    InvParts(r);
    assert p1.sys == r && Full(p.sys.tx) in p1.mail && p1.accepts == p.accepts;
    InNet(p1, Full(p.sys.tx));
    Answered(r, Full(p.sys.tx));
    hide PostInv, Step;
    assert more[..1] == [refuse] && [refuse][..0] == [];
    assert RunOnce(p, [refuse]) == p1;
    assert RunOnce(p, more) == Once(p1, late);
  }

  lemma InNet(p: Post, r: seq<byte>)
    requires PostInv(p) && r in p.mail
    ensures r in p.sys.net
  {
  }

  /**
   At the COMMIT of any run of any transfer, with everything staged and nothing committed:
   some way on ends as a success without any COMMIT accepted if and only if the request
   that ended the blob was written more than once. `FreshInv` gives every fresh start the
   invariant that `RunOnce` asks for.
   */
  lemma ProvesCommitIff(start: Post, evs: seq<Event>)
    requires Fresh(start) && PostInv(start) && AtCommit(RunOnce(start, evs).sys)
    ensures var p := RunOnce(start, evs);
            (exists more :: RunOnce(p, more).sys.tx.phase == Finished && RunOnce(p, more).accepts == 0)
            <==> p.wrote >= 2
  {
    hide Fresh;
    var p := RunOnce(start, evs);
    assert p.accepts == 0 && p.mail[Full(p.sys.tx)] + 1 == p.wrote;
    if p.wrote >= 2 {
      var more := SpareAnswer(p);
    }
    forall more | RunOnce(p, more).sys.tx.phase == Finished && RunOnce(p, more).accepts == 0
      ensures p.wrote >= 2
    {
      PastLoop(p, more);
      FinishedTally(RunOnce(p, more));
    }
  }

  lemma FinishedTally(p: Post)
    requires Tally(p) && p.sys.tx.phase == Finished
    ensures p.wrote + p.accepts >= 2
  {
  }
}
