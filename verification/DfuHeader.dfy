/**
 The staged-update header, field by field, and what COMMIT makes of it: a blob is staged
 exactly if it begins with the header of its own patch.
 */
module DfuHeader {
  import opened Bits
  import opened Options
  import opened Seqs
  import opened DfuProtocol
  import opened DfuTransfer
  import opened DfuCommit
  import opened DfuOnce
  import Crc32

  function Le16(w: word): (r: seq<byte>)
    ensures |r| == 2
  {
    [w % 0x100, w / 0x100]
  }

  /** What a header says that its patch does not decide. */
  datatype Fields = Fields(flags: word, toLen: u32, fromCrc: u32, fromLen: u32)

  /** The first 28 bytes, in the order of the structure, every field little-endian. */
  function Body(f: Fields, patchLen: u32, patchCrc: u32): (r: seq<byte>)
    ensures |r| == 28
  {
    Le32(0x55464457) + (Le16(1) + Le16(f.flags)) + Le32(patchLen) + Le32(f.toLen)
    + Le32(patchCrc) + Le32(f.fromCrc) + Le32(f.fromLen)
  }

  function Header(f: Fields, patchLen: u32, patchCrc: u32): (r: seq<byte>)
    ensures |r| == 32
  {
    var body := Body(f, patchLen, patchCrc);
    body + Le32(Crc32.Sum(body))
  }

  /** An update: the header of the patch, sixty-four bytes of signature, the patch. */
  function UpdateOf(f: Fields, signature: seq<byte>, patch: seq<byte>): seq<byte>
    requires |signature| == 64 && |patch| < 0x1_0000_0000
  {
    Header(f, |patch|, Crc32.Sum(patch)) + signature + patch
  }

  // ----- reading fields back

  lemma Word4(s: seq<byte>, at: nat, n: u32)
    requires at + 4 <= |s|
    ensures s[at..at + 4] == Le32(n) <==> Get32(s, at) == n
  {
    if Get32(s, at) == n {
      Le32Unique(s, at, n);
    }
    if s[at..at + 4] == Le32(n) {
      var t := s[at..at + 4];
      assert t[0] == s[at] && t[1] == s[at + 1] && t[2] == s[at + 2] && t[3] == s[at + 3];
      Le32Inverse(n);
    }
  }

  lemma Word2(s: seq<byte>, at: nat, w: word)
    requires at + 2 <= |s|
    ensures s[at..at + 2] == Le16(w) <==> Get16(s, at) == w
  {
    var t := s[at..at + 2];
    assert t == [s[at], s[at + 1]];
  }

  /** Thirty-two bytes cut into the fields of the structure. */
  lemma Cut(h: seq<byte>)
    requires |h| == 32
    ensures h == h[0..4] + (h[4..6] + h[6..8]) + h[8..12] + h[12..16] + h[16..20] + h[20..24] + h[24..28] + h[28..32]
    ensures h[..28] == h[0..4] + (h[4..6] + h[6..8]) + h[8..12] + h[12..16] + h[16..20] + h[20..24] + h[24..28]
  {
  }

  predicate Spells(h: seq<byte>, f: Fields, patchLen: u32, patchCrc: u32)
    requires |h| == 32
  {
    && h[0..4] == Le32(0x55464457) && h[4..6] == Le16(1) && h[6..8] == Le16(f.flags)
    && h[8..12] == Le32(patchLen) && h[12..16] == Le32(f.toLen) && h[16..20] == Le32(patchCrc)
    && h[20..24] == Le32(f.fromCrc) && h[24..28] == Le32(f.fromLen)
  }

  lemma BodyIff(h: seq<byte>, f: Fields, patchLen: u32, patchCrc: u32)
    requires |h| == 32
    ensures h[..28] == Body(f, patchLen, patchCrc) <==> Spells(h, f, patchLen, patchCrc)
  {
    hide Le32, Le16;
    Cut(h);
    if h[..28] == Body(f, patchLen, patchCrc) {
      Pieces(h, f, patchLen, patchCrc);
    }
  }

  lemma Pieces(h: seq<byte>, f: Fields, patchLen: u32, patchCrc: u32)
    requires |h| == 32 && h[..28] == Body(f, patchLen, patchCrc)
    ensures Spells(h, f, patchLen, patchCrc)
  {
    hide Le32, Le16;
    var b := h[..28];
    assert h[0..4] == b[0..4] && h[4..6] == b[4..6] && h[6..8] == b[6..8] && h[8..12] == b[8..12];
    assert h[12..16] == b[12..16] && h[16..20] == b[16..20] && h[20..24] == b[20..24] && h[24..28] == b[24..28];
  }

  lemma HeaderIff(h: seq<byte>, f: Fields, patchLen: u32, patchCrc: u32)
    requires |h| == 32
    ensures h == Header(f, patchLen, patchCrc) <==>
              Spells(h, f, patchLen, patchCrc) && h[28..32] == Le32(Crc32.Sum(h[..28]))
  {
    hide Le32, Spells, Body, Crc32.Sum;
    BodyIff(h, f, patchLen, patchCrc);
    assert h == h[..28] + h[28..32];
    if h == Header(f, patchLen, patchCrc) {
      assert h[..28] == Body(f, patchLen, patchCrc);
      assert h[28..32] == Le32(Crc32.Sum(Body(f, patchLen, patchCrc)));
    }
  }

  /** The fields a header's free words spell. */
  function FieldsOf(h: seq<byte>): Fields
    requires |h| == 32
  {
    Fields(Get16(h, 6), Get32(h, 12), Get32(h, 20), Get32(h, 24))
  }

  /** The receiver's check passes exactly where the first thirty-two bytes are the header of what follows. */
  lemma MatchesIff(wire: seq<byte>)
    requires 96 <= |wire| < 0x1_0000_0000
    ensures HeaderMatches(wire, |wire|) <==>
              wire[..32] == Header(FieldsOf(wire[..32]), |wire| - 96, Crc32.Sum(wire[96..]))
  {
    hide Le32, Le16, Header, Crc32.Sum;
    var h, patch := wire[..32], wire[96..];
    var f := FieldsOf(h);
    SameReads(wire);
    HeaderIff(h, f, |patch|, Crc32.Sum(patch));
    Word4(h, 0, 0x55464457);
    Word2(h, 4, 1);
    Word2(h, 6, f.flags);
    Word4(h, 8, |patch|);
    Word4(h, 12, f.toLen);
    Word4(h, 16, Crc32.Sum(patch));
    Word4(h, 20, f.fromCrc);
    Word4(h, 24, f.fromLen);
    Word4(h, 28, Crc32.Sum(h[..28]));
  }

  lemma SameReads(wire: seq<byte>)
    requires |wire| >= 96
    ensures var h := wire[..32];
            && Get32(wire, 0) == Get32(h, 0) && Get16(wire, 4) == Get16(h, 4) && Get32(wire, 8) == Get32(h, 8)
            && Get32(wire, 16) == Get32(h, 16) && Get32(wire, 28) == Get32(h, 28) && wire[..28] == h[..28]
  {
    assert wire[..28] == wire[..32][..28];
  }

  // ----- COMMIT

  /** A transfer held is active or staged, and erased once its head is in. */
  predicate Whole(tx: Sender, rx: Rx) {
    Mine(tx, rx) ==> (rx.active <==> !rx.staged) && (rx.active ==> (rx.erased <==> |rx.wire| >= HEAD_LEN))
  }

  lemma FeedWhole(rx: Rx, p: seq<byte>, port: Port)
    requires rx.active && (rx.erased <==> |rx.wire| >= HEAD_LEN)
    ensures var f := FeedBytes(rx, p, port);
            f.Done? ==> f.rx.active && (f.rx.erased <==> |f.rx.wire| >= HEAD_LEN)
  {
    hide Flushes;
  }

  lemma WriteWhole(sys: Sys, port: Port)
    requires Inv(sys) && Whole(sys.tx, sys.rx) && Writes(sys, Write(port))
    ensures Whole(sys.tx, RxFrame(sys.rx, Gatt, Request(sys.tx), port).rx)
  {
    hide FeedBytes, Get32, DataFrame, BeginFrame, CommitFrame, OkReply, HeaderMatches, HighOk, HeldOk;
    var tx, rx := sys.tx, sys.rx;
    match tx.phase {
      case Begin => BeginFields(tx.id, |tx.blob|);
      case Data(sent) =>
        DataFields(tx.id, sent, Piece(tx));
        FeedShape(rx, Piece(tx), port);
        if rx.active && Mine(tx, rx) {
          FeedWhole(rx, Piece(tx), port);
        }
      case _ => CommitFields(tx.id);
    }
  }

  lemma StepWhole(sys: Sys, ev: Event)
    requires Inv(sys) && Whole(sys.tx, sys.rx)
    ensures Whole(Step(sys, ev).tx, Step(sys, ev).rx)
  {
    InvParts(sys);
    StepSameSender(sys, ev);
    if Writes(sys, ev) {
      WriteWhole(sys, ev.port);
      hide RxFrame, Request, Inv;
    } else if !ev.Deliver? {
      OthersLeave(sys, ev);
      hide Step, Inv;
    }
  }

  lemma {:induction false} RunWhole(sys: Sys, evs: seq<Event>)
    requires Initial(sys) && Inv(sys)
    ensures Whole(Run(sys, evs).tx, Run(sys, evs).rx)
  {
    if evs != [] {
      hide Inv, Step, Whole;
      RunWhole(sys, evs[..|evs| - 1]);
      StepWhole(Run(sys, evs[..|evs| - 1]), evs[|evs| - 1]);
    }
  }

  /** What COMMIT finds in every run that comes to it: the whole blob, active and erased. */
  lemma AtCommitHolds(sys: Sys, evs: seq<Event>)
    requires Initial(sys) && Inv(sys) && AtCommit(Run(sys, evs))
    ensures var rx := Run(sys, evs).rx;
            && rx.wire == sys.tx.blob && rx.total == |sys.tx.blob| && rx.active
            && (rx.erased <==> |sys.tx.blob| >= HEAD_LEN)
  {
    RunWhole(sys, evs);
    StagedAtLoopExit(sys, evs);
    var r := Run(sys, evs);
    InvParts(r);
    hide Run, Inv, Initial;
  }

  predicate Headed(blob: seq<byte>, f: Fields)
    requires 96 <= |blob| < 0x1_0000_0000
  {
    blob[..32] == Header(f, |blob| - 96, Crc32.Sum(blob[96..]))
  }

  /** The blob begins with the header of the patch that follows its signature. */
  ghost predicate WellHeaded(blob: seq<byte>) {
    96 <= |blob| < 0x1_0000_0000 && exists f :: Headed(blob, f)
  }

  lemma WellHeadedIff(blob: seq<byte>)
    requires |blob| < 0x1_0000_0000
    ensures HeaderMatches(blob, |blob|) <==> WellHeaded(blob)
  {
    if |blob| >= 96 {
      MatchesIff(blob);
      var n, c := |blob| - 96, Crc32.Sum(blob[96..]);
      hide Header, HeaderMatches, FieldsOf;
      assert HeaderMatches(blob, |blob|) <==> Headed(blob, FieldsOf(blob[..32]));
      if f :| Headed(blob, f) {
        FieldsRead(blob[..32], f, n, c);
      }
    }
  }

  lemma FieldsRead(h: seq<byte>, f: Fields, patchLen: u32, patchCrc: u32)
    requires |h| == 32 && h == Header(f, patchLen, patchCrc)
    ensures FieldsOf(h) == f
  {
    hide Le32, Le16, Header;
    HeaderIff(h, f, patchLen, patchCrc);
    Word2(h, 6, f.flags);
    Word4(h, 12, f.toLen);
    Word4(h, 20, f.fromCrc);
    Word4(h, 24, f.fromLen);
  }

  /** Every update is well headed, whatever its signature; a wrong length or checksum word is not. */
  lemma UpdateIsWellHeaded(f: Fields, signature: seq<byte>, patch: seq<byte>)
    requires |signature| == 64 && |patch| + 96 < 0x1_0000_0000
    ensures WellHeaded(UpdateOf(f, signature, patch))
  {
    hide Header, Crc32.Sum;
    var blob := UpdateOf(f, signature, patch);
    assert blob[..32] == Header(f, |patch|, Crc32.Sum(patch)) && blob[96..] == patch;
    assert Headed(blob, f);
  }

  lemma WrongWordsAreNot(blob: seq<byte>)
    requires 96 <= |blob| < 0x1_0000_0000
    requires blob[8..12] != Le32(|blob| - 96) || blob[16..20] != Le32(Crc32.Sum(blob[96..]))
    ensures !WellHeaded(blob)
  {
    hide Header, Crc32.Sum, Le32, Le16;
    var h := blob[..32];
    assert h[8..12] == blob[8..12] && h[16..20] == blob[16..20];
    forall f
      ensures !Headed(blob, f)
    {
      HeaderIff(h, f, |blob| - 96, Crc32.Sum(blob[96..]));
    }
  }

  /** COMMIT, from a transfer received whole. */
  lemma CommitIff(rx: Rx, port: Port)
    requires !rx.staged && rx.active && rx.erased && |rx.wire| == rx.total && HEAD_LEN <= rx.total
    ensures var c := CommitNow(rx, port);
            && (c.Done? ==> c.rx == rx.(active := false, staged := true, committed := Some(Commit(rx.owner, rx.id, rx.wire))))
            && (!WellHeaded(rx.wire) ==> c.Refused? && c.rx == rx)
            && (WellHeaded(rx.wire) && port.writes && port.accepts ==> c.Done?)
  {
    hide HeaderMatches, WellHeaded;
    WellHeadedIff(rx.wire);
  }

  /**
   In every run that comes to its COMMIT with nothing committed, on a port that works: the
   blob is staged and committed, byte for byte, if and only if it begins with the header of
   its own patch, built field by field in the order of the structure. Otherwise it is let go
   and nothing is committed, whatever the port does.
   */
  lemma CommitStagesIff(sys: Sys, evs: seq<Event>, port: Port)
    requires Initial(sys) && Inv(sys) && AtCommit(Run(sys, evs))
    ensures var rx := Step(Run(sys, evs), Write(port)).rx;
            && (port.writes && port.accepts ==> (rx.staged <==> WellHeaded(sys.tx.blob)))
            && (rx.staged ==> rx.committed == Some(Commit(Gatt, sys.tx.id, sys.tx.blob)))
            && (!WellHeaded(sys.tx.blob) ==> rx.owner == Nobody && rx.committed == None)
  {
    AtCommitHolds(sys, evs);
    var r := Run(sys, evs);
    InvParts(r);
    hide Run, Inv, Initial;
    var tx, rx := r.tx, r.rx;
    CommitFields(tx.id);
    if |sys.tx.blob| >= HEAD_LEN {
      CommitIff(rx, port);
    }
  }

  // ----- what it takes to get that far

  /** With the window shut nothing is taken, from any transport. */
  lemma ShutTakesNothing(rx: Rx, owner: Owner, frame: seq<byte>, off: u32, total: u32, data: seq<byte>, port: Port)
    requires Fits(rx) && NoWrap(rx, off, data) && !rx.open
    ensures RxFrame(rx, owner, frame, port).rx == rx
    ensures UploadState(rx, RxUpload(rx, off, total, data, port)) == rx
  {
  }

  /** A head that does not verify, or an area that does not erase, stops a transfer short of its patch. */
  lemma HeadStops(rx: Rx, p: seq<byte>, port: Port)
    requires |rx.wire| < 96 && (!port.authentic || !port.erases)
    ensures var f := FeedBytes(rx, p, port);
            && (f.Done? ==> |f.rx.wire| < 96 && f.rx.erased == rx.erased)
            && f.rx.committed == rx.committed && |f.rx.wire| < 96
  {
    hide Flushes;
  }

  /** Event `k` is a write of this transfer's own that completed its head, on a port that found it good. */
  predicate VerifiedAt(sys: Sys, evs: seq<Event>, k: nat)
    requires Inv(sys)
  {
    && k < |evs| && evs[k].Write? && evs[k].port.authentic && evs[k].port.erases
    && |Run(sys, evs[..k]).rx.wire| < 96 <= |Run(sys, evs[..k + 1]).rx.wire|
  }

  /** More than the head of this transfer is staged. */
  predicate PastHead(sys: Sys) {
    Mine(sys.tx, sys.rx) && |sys.rx.wire| >= 96
  }

  /**
   In every run, if this transfer has its head staged, then one of its own writes completed
   the head, on a port that found the signature good and erased the area.
   */
  lemma {:induction false} HeadWasVerified(sys: Sys, evs: seq<Event>) returns (k: nat)
    requires Initial(sys) && Inv(sys)
    ensures PastHead(Run(sys, evs)) ==> VerifiedAt(sys, evs, k)
    decreases |evs|
  {
    NotMineYet(sys);
    hide Inv, Initial, Step;
    k := 0;
    if evs != [] && PastHead(Run(sys, evs)) {
      var n := |evs| - 1;
      var before := Run(sys, evs[..n]);
      if PastHead(before) {
        k := HeadWasVerified(sys, evs[..n]);
        StillVerified(sys, evs, k);
      } else {
        CompletesHead(before, evs[n]);
        k := n;
        assert evs[..n + 1] == evs;
      }
    }
  }

  lemma StillVerified(sys: Sys, evs: seq<Event>, k: nat)
    requires Inv(sys) && evs != [] && VerifiedAt(sys, evs[..|evs| - 1], k)
    ensures VerifiedAt(sys, evs, k)
  {
    hide Inv, Step, Run;
    var before := evs[..|evs| - 1];
    assert before[..k] == evs[..k] && before[..k + 1] == evs[..k + 1];
  }

  lemma NotMineYet(sys: Sys)
    requires Initial(sys)
    ensures !Mine(sys.tx, sys.rx)
  {
  }

  lemma CompletesHead(sys: Sys, ev: Event)
    requires Inv(sys) && !PastHead(sys) && PastHead(Step(sys, ev))
    ensures ev.Write? && ev.port.authentic && ev.port.erases && |sys.rx.wire| < 96
  {
    InvParts(sys);
    StepSameSender(sys, ev);
    if !Writes(sys, ev) {
      if !ev.Deliver? {
        OthersLeave(sys, ev);
      }
    } else {
      WriteCompletes(sys, ev.port);
    }
    hide Inv, RxFrame, Request;
  }

  lemma WriteCompletes(sys: Sys, port: Port)
    requires Inv(sys) && Writes(sys, Write(port)) && !(Mine(sys.tx, sys.rx) && |sys.rx.wire| >= 96)
    requires var a := RxFrame(sys.rx, Gatt, Request(sys.tx), port); Mine(sys.tx, a.rx) && |a.rx.wire| >= 96
    ensures port.authentic && port.erases && |sys.rx.wire| < 96
  {
    hide FeedBytes, Get32, DataFrame, BeginFrame, CommitFrame, OkReply, CommitNow, HighOk, HeldOk;
    var tx, rx := sys.tx, sys.rx;
    match tx.phase {
      case Begin => BeginFields(tx.id, |tx.blob|);
      case Data(sent) =>
        DataFields(tx.id, sent, Piece(tx));
        FeedShape(rx, Piece(tx), port);
        if |rx.wire| < 96 && (!port.authentic || !port.erases) {
          HeadStops(rx, Piece(tx), port);
        }
      case _ =>
        CommitFields(tx.id);
        CommitShape(rx, port);
    }
  }
}
