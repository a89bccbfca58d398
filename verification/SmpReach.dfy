/**
 An undisturbed image upload gets there: every file whose patch fits and matches its own
 header is received whole and its patch committed, in as many requests as it has chunks.
 */
module SmpReach {
  import opened Bits
  import opened Options
  import opened Seqs
  import opened DfuProtocol
  import opened SmpUpload

  const GOOD := Port(true, true, true, true, true)

  /** The file's patch: it fits, and it is what its header says. */
  predicate Sound(tx: Client, room: nat)
    requires Sendable(tx)
  {
    var g := Layout(tx);
    && g.Geometry? && g.skip + g.inner <= |tx.blob|
    && 96 < g.inner <= 96 + room
    && HeaderMatches(tx.blob[g.skip..g.skip + g.inner], g.inner)
  }

  /** A client and a receiver that have the same part of the file. */
  predicate Under(sys: Sys) {
    && Sendable(sys.tx) && sys.tx.phase == Sending && Sound(sys.tx, sys.rx.room)
    && CopyOk(sys.tx, sys.rx) && sys.rx.open && |sys.rx.file| == sys.tx.off
    && (sys.tx.off > 0 ==> sys.rx.owner == Smp)
    && (sys.tx.off == 0 ==> sys.rx.owner == Nobody)
    && (sys.rx.owner == Smp && sys.rx.active ==> (sys.rx.erased <==> |sys.rx.wire| >= HEAD_LEN))
  }

  /** Taking one chunk of the file, with everything in order. */
  lemma ChunkTaken(tx: Client, rx: Rx, data: seq<byte>)
    requires Sendable(tx) && Sound(tx, rx.room)
    requires var g := Layout(tx); rx.skip == g.skip && rx.inner == g.inner
    requires Fits(rx) && rx.owner == Smp && rx.id == 1 && rx.total == rx.inner && rx.file + data <= tx.blob
    requires rx.wire == Payload(rx.file, rx.skip, rx.inner)
    requires (rx.active <==> |rx.wire| < rx.inner) && (rx.staged <==> |rx.wire| == rx.inner)
    requires rx.active ==> (rx.erased <==> |rx.wire| >= HEAD_LEN)
    requires rx.staged ==> rx.committed == Some(Commit(Smp, 1, rx.wire))
    requires |rx.file| + |data| < 0x1_0000_0000
    ensures var u := TakeChunk(rx, data, GOOD);
            && u.Accepted? && u.next == |rx.file| + |data|
            && (u.rx.active ==> (u.rx.erased <==> |u.rx.wire| >= HEAD_LEN))
            && u.rx.open == rx.open && u.rx.room == rx.room && u.rx.owner == Smp
  {
    hide Payload, HeaderMatches, PatchPart, Flushes, Measure;
    var part := PatchPart(rx, data);
    PayloadMore(rx, data);
    PayloadShort(rx.file + data, rx.skip, rx.inner);
    PartOfStaged(rx, data);
    Empty(rx.wire);
    if |rx.wire + part| == rx.inner {
      PayloadFull(rx.file + data, rx.skip, rx.inner);
      SamePatch(tx, rx.file + data, rx.skip, rx.inner);
    }
  }

  lemma PartOfStaged(rx: Rx, data: seq<byte>)
    requires |rx.wire| <= rx.inner
    ensures |rx.wire| == rx.inner ==> PatchPart(rx, data) == []
  {
  }

  lemma SamePatch(tx: Client, file: seq<byte>, skip: nat, inner: nat)
    requires file <= tx.blob && skip + inner <= |file|
    ensures file[skip..skip + inner] == tx.blob[skip..skip + inner]
  {
  }

  lemma Next(sys: Sys)
    requires Under(sys)
    ensures var r := Step(sys, Request(GOOD, true));
            && (r.tx.phase == Finished || Under(r))
            && r.tx.off > sys.tx.off && r.tx.blob == sys.tx.blob && r.tx.chunk == sys.tx.chunk
            && Inv(r)
  {
    hide Payload, HeaderMatches, Measure, TakeChunk;
    var tx, rx := sys.tx, sys.rx;
    var data := Data(tx);
    assert rx.file + data == tx.blob[..tx.off + |data|];
    FitsOf(rx);
    RequestKeeps(sys, GOOD, true);
    UploadOk(rx, tx.off, Total(tx), data, GOOD);
    if tx.off == 0 {
      Starts1(tx, rx);
    } else {
      ChunkTaken(tx, rx, data);
    }
  }

  lemma Starts1(tx: Client, rx: Rx)
    requires Sendable(tx) && tx.phase == Sending && tx.off == 0 && Sound(tx, rx.room) && CopyOk(tx, rx)
    requires rx.open && rx.owner == Nobody && rx.file == [] && Fits(rx)
    ensures var u := RxUpload(rx, 0, |tx.blob|, Data(tx), GOOD);
            && u.Accepted? && u.next == |Data(tx)|
            && (u.rx.active ==> (u.rx.erased <==> |u.rx.wire| >= HEAD_LEN))
            && u.rx.open && u.rx.room == rx.room && u.rx.owner == Smp
  {
    hide Payload, HeaderMatches, Measure, TakeChunk;
    var g := Layout(tx);
    var b := BeginAt(rx.(skip := g.skip, inner := g.inner), Smp, 1, g.inner, GOOD);
    PayloadEmpty(g.skip, g.inner);
    assert [] + Data(tx) == Data(tx);
    ChunkTaken(tx, b.rx.(file := []), Data(tx));
  }

  /** The requests that are left. */
  lemma {:induction false} GoesOn(sys: Sys) returns (n: nat)
    requires Under(sys) && Inv(sys)
    ensures var r := Undisturbed(sys, n);
            Inv(r) && r.tx.phase == Finished && r.tx.blob == sys.tx.blob && r.tx.chunk == sys.tx.chunk
    decreases |sys.tx.blob| - sys.tx.off
  {
    hide Under, Inv, Step;
    UnderParts(sys);
    Next(sys);
    var r := Step(sys, Request(GOOD, true));
    if r.tx.phase == Finished {
      n := 1;
      Once(sys);
    } else {
      UnderParts(r);
      var m := GoesOn(r);
      n := m + 1;
    }
  }

  lemma UnderParts(sys: Sys)
    requires Under(sys)
    ensures sys.tx.off < |sys.tx.blob| && Sendable(sys.tx) && Fits(sys.rx)
  {
  }

  /** So many requests, each answered and with nothing in between. */
  function Undisturbed(sys: Sys, n: nat): Sys
    decreases n
  {
    if n == 0 || !Sendable(sys.tx) || !Fits(sys.rx) then sys
    else Undisturbed(Step(sys, Request(GOOD, true)), n - 1)
  }

  lemma Once(sys: Sys)
    requires Sendable(sys.tx) && Fits(sys.rx)
    ensures Undisturbed(sys, 1) == Step(sys, Request(GOOD, true))
  {
    hide Step;
    assert Undisturbed(Step(sys, Request(GOOD, true)), 0) == Step(sys, Request(GOOD, true));
  }

  /**
   From an open window, an idle receiver and a client at its start: some number of
   requests finishes the upload, with exactly the blob received and its patch committed.
   */
  lemma UploadCompletes(sys: Sys) returns (n: nat)
    requires Sendable(sys.tx) && sys.tx.phase == Sending && sys.tx.off == 0 && Sound(sys.tx, sys.rx.room)
    requires SmpOk(sys.rx) && sys.rx.open && sys.rx.owner == Nobody
    ensures var r, g := Undisturbed(sys, n), Layout(sys.tx);
            && r.tx.phase == Finished && r.atEnd.Some? && r.atEnd.value.file == sys.tx.blob
            && r.atEnd.value.committed == Some(Commit(Smp, 1, sys.tx.blob[g.skip..g.skip + g.inner]))
  {
    hide HeaderMatches, Measure, Undisturbed;
    n := GoesOn(sys);
    var r := Undisturbed(sys, n);
    var e, g := r.atEnd.value, Layout(sys.tx);
    PayloadFull(e.file, g.skip, g.inner);
  }
}
