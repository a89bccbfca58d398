/**
 What the answer to COMMIT is worth. It carries the same id and offset as the answer to the
 last DATA request, so where a notification may come late a second time it proves nothing;
 where each comes at most once, it proves the commit exactly if the last DATA request was
 written only once.
 */
module DfuCommit {
  import opened Bits
  import opened Options
  import opened DfuProtocol
  import opened DfuTransfer

  /** The answer to the last DATA request, and to COMMIT. */
  function Full(tx: Sender): seq<byte>
    requires Sendable(tx)
  {
    OkReply(tx.id, |tx.blob|)
  }

  // ----- every transfer can get as far as its COMMIT

  lemma BeginAnswered(sys: Sys) returns (r: Sys)
    requires Initial(sys) && sys.rx.open && sys.rx.owner == Nobody
    requires |sys.tx.blob| > HEAD_LEN && |sys.tx.blob| - HEAD_LEN <= sys.rx.room
    ensures r == Step(sys, Write(GOOD))
    ensures r.tx == sys.tx.(waiting := true) && r.rx.open && Mine(r.tx, r.rx) && r.rx.active
    ensures r.rx.wire == [] && r.rx.total == |sys.tx.blob| && !r.rx.staged
    ensures OkReply(sys.tx.id, 0) in r.net
  {
    r := Step(sys, Write(GOOD));
    BeginFields(sys.tx.id, |sys.tx.blob|);
  }

  /** At the top of the loop, with the receiver in step. */
  predicate InStep(sys: Sys) {
    && Sendable(sys.tx) && TopOfLoop(sys.tx) && Mine(sys.tx, sys.rx)
    && sys.rx.open && sys.rx.active && !sys.rx.staged && sys.rx.total == |sys.tx.blob|
    && sys.rx.wire == sys.tx.blob[..sys.tx.phase.sent]
    && (|sys.rx.wire| >= HEAD_LEN ==> sys.rx.committed == None)
  }

  lemma Fed(rx: Rx, p: seq<byte>)
    requires rx.active && |rx.wire| + |p| <= rx.total && (|rx.wire| >= HEAD_LEN ==> rx.committed == None)
    ensures var f := FeedBytes(rx, p, GOOD);
            && f.Done? && f.rx == rx.(wire := rx.wire + p, erased := f.rx.erased, committed := f.rx.committed)
            && (|f.rx.wire| >= HEAD_LEN ==> f.rx.committed == None)
  {
  }

  lemma DataAnswered(sys: Sys) returns (r: Sys)
    requires Inv(sys) && InStep(sys)
    ensures r == Step(sys, Write(GOOD))
    ensures r.tx == sys.tx.(waiting := true) && Mine(r.tx, r.rx) && r.rx.wire == sys.tx.blob[..Expected(sys.tx)]
    ensures r.rx.open && r.rx.active && !r.rx.staged && r.rx.total == |sys.tx.blob|
    ensures |r.rx.wire| >= HEAD_LEN ==> r.rx.committed == None
    ensures OkReply(sys.tx.id, Expected(sys.tx)) in r.net
  {
    hide FeedBytes, DataFrame, OkReply, Get32;
    r := Step(sys, Write(GOOD));
    var sent, piece := sys.tx.phase.sent, Piece(sys.tx);
    DataFields(sys.tx.id, sent, piece);
    Fed(sys.rx, piece);
    assert sys.rx.wire + piece == sys.tx.blob[..Expected(sys.tx)];
  }

  /** About to write COMMIT for the first time, with everything staged and nothing committed. */
  predicate AtCommit(sys: Sys) {
    && sys.tx.phase == Committing && !sys.tx.waiting && sys.tx.attempt == 0
    && sys.rx.open && Mine(sys.tx, sys.rx) && !sys.rx.staged && sys.rx.committed == None
  }

  lemma {:induction false} RestOfLoop(sys: Sys, evs: seq<Event>) returns (all: seq<Event>)
    requires Inv(sys) && |sys.tx.blob| > HEAD_LEN && InStep(Run(sys, evs))
    ensures AtCommit(Run(sys, all))
    decreases |sys.tx.blob| - Run(sys, evs).tx.phase.sent
  {
    hide Inv, Step, OkReply, Sendable;
    var s := Run(sys, evs);
    InvParts(s);
    var r := DataAnswered(s);
    RunThen(sys, evs, Write(GOOD));
    var reply := OkReply(sys.tx.id, Expected(s.tx));
    RunThen(sys, evs + [Write(GOOD)], Deliver(reply));
    InvParts(Run(sys, evs + [Write(GOOD)]));
    Answered(r, reply);
    all := evs + [Write(GOOD)] + [Deliver(reply)];
    if Run(sys, all).tx.phase.Data? {
      all := RestOfLoop(sys, all);
    }
  }

  /** The expected answer, delivered. */
  lemma Answered(r: Sys, reply: seq<byte>)
    requires Sendable(r.tx) && Fits(r.rx) && Asking(r.tx) && r.tx.waiting
    requires reply == OkReply(r.tx.id, Expected(r.tx)) && reply in r.net
    ensures Step(r, Deliver(reply)) == r.(tx := Advance(r.tx))
  {
    hide OkReply, OnReply;
    OnlyTheAnswerAdvances(r.tx, reply);
  }

  /** Every blob that fits, in chunks of any size, can be brought to its COMMIT. */
  lemma ReachesCommit(sys: Sys) returns (evs: seq<Event>)
    requires Initial(sys) && sys.rx.open && sys.rx.owner == Nobody
    requires |sys.tx.blob| > HEAD_LEN && |sys.tx.blob| - HEAD_LEN <= sys.rx.room
    ensures Inv(sys) && AtCommit(Run(sys, evs))
  {
    InitialInv(sys);
    hide Step, OkReply, Inv, Initial;
    var r := BeginAnswered(sys);
    InvParts(sys);
    RunThen(sys, [], Write(GOOD));
    InvParts(r);
    var reply := OkReply(sys.tx.id, 0);
    RunThen(sys, [] + [Write(GOOD)], Deliver(reply));
    BeginExpects(r);
    Answered(r, reply);
    var es := [] + [Write(GOOD)] + [Deliver(reply)];
    assert Run(sys, es).rx.wire == sys.tx.blob[..0];
    evs := RestOfLoop(sys, es);
  }

  lemma BeginExpects(r: Sys)
    requires Sendable(r.tx) && r.tx.phase == Begin
    ensures Expected(r.tx) == 0 && Advance(r.tx) == r.tx.(phase := Data(0), waiting := false, attempt := 0)
  {
  }

  // ----- where a notification may come late a second time

  /** Past the loop, the answer to the last DATA request has been sent. */
  predicate AnswerSent(sys: Sys) {
    Sendable(sys.tx) && (sys.tx.phase.Committing? || sys.tx.phase.Finished? ==> Full(sys.tx) in sys.net)
  }

  lemma AnswerStays(sys: Sys, ev: Event)
    requires Inv(sys) && AnswerSent(sys)
    ensures AnswerSent(Step(sys, ev))
  {
    StepKeeps(sys, ev);
    StepSameSender(sys, ev);
    hide RxFrame, RxUpload, Request, OnReply, OkReply, ReceiverOk, HighOk, HeldOk;
    if ev.Deliver? {
      OnlyTheAnswerAdvances(sys.tx, ev.reply);
      OtherReplies(sys.tx, ev.reply);
    }
  }

  lemma OtherReplies(tx: Sender, r: seq<byte>)
    requires Sendable(tx)
    ensures var t := OnReply(tx, r);
            t.phase == tx.phase || t.phase == Dead || t == Advance(tx)
  {
  }

  lemma {:induction false} AnswerWasSent(sys: Sys, evs: seq<Event>)
    requires Initial(sys) && Inv(sys)
    ensures AnswerSent(Run(sys, evs))
  {
    hide Inv, Step;
    if evs == [] {
      StartsSilent(sys);
    } else {
      AnswerWasSent(sys, evs[..|evs| - 1]);
      AnswerStays(Run(sys, evs[..|evs| - 1]), evs[|evs| - 1]);
    }
  }

  lemma StartsSilent(sys: Sys)
    requires Initial(sys)
    ensures AnswerSent(sys)
  {
  }

  lemma CommitRefused(sys: Sys) returns (r: Sys)
    requires Inv(sys) && AtCommit(sys)
    ensures r == Step(sys, Write(GOOD.(writes := false)))
    ensures r.tx == sys.tx.(waiting := true) && r.rx.owner == Nobody && r.rx.committed == None && sys.net <= r.net
    ensures RxFrame(sys.rx, Gatt, Request(sys.tx), GOOD.(writes := false)).reply != Full(sys.tx)
  {
    r := Step(sys, Write(GOOD.(writes := false)));
    CommitFields(sys.tx.id);
    OkReplyFields(sys.tx.id, |sys.tx.blob|);
  }

  /**
   In every run that comes to its COMMIT, for every blob and every chunk size, the receiver
   may refuse and let go, and a late repeat of the last DATA answer still ends the sender's
   run as a success, with nothing held and nothing committed.
   */
  lemma CommitReplyProvesNothing(sys: Sys, evs: seq<Event>) returns (more: seq<Event>)
    requires Initial(sys) && Inv(sys) && AtCommit(Run(sys, evs))
    ensures var r := Run(sys, evs + more);
            r.tx.phase == Finished && r.rx.owner == Nobody && r.rx.committed == None
  {
    hide Step, Inv, Initial, RxFrame, OkReply;
    InvParts(sys);
    var refuse, late := Write(GOOD.(writes := false)), Deliver(Full(sys.tx));
    AnswerWasSent(sys, evs);
    InvParts(Run(sys, evs));
    var r := CommitRefused(Run(sys, evs));
    RunThen(sys, evs, refuse);
    InvParts(r);
    Answered(r, Full(sys.tx));
    RunThen(sys, evs + [refuse], late);
    more := [refuse] + [late];
    assert evs + more == evs + [refuse] + [late];
  }
}
