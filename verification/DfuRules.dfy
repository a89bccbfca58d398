/**
 The update receiver's rules, byte for byte: exactly which request gets which answer, what
 a refusal leaves behind, what a wrapped file's header says, and what a sender makes of
 every answer.
 */
module DfuRules {
  import opened Bits
  import opened Options
  import opened DfuProtocol

  // ----- requests

  predicate Is(frame: seq<byte>, op: byte) {
    frame != [] && frame[0] == op
  }

  /** A begin is nine bytes, a commit five, data nine or more; an abort is judged by what it names. */
  predicate WellFormed(frame: seq<byte>) {
    || (Is(frame, 0x11) && |frame| == 9)
    || (Is(frame, 0x12) && |frame| >= 9)
    || (Is(frame, 0x13) && |frame| == 5)
    || Is(frame, 0x14)
  }

  /** The request names the transfer the receiver is carrying for this owner. */
  predicate Ours(rx: Rx, owner: Owner, frame: seq<byte>) {
    |frame| >= 5 && rx.owner == owner && rx.id == Get32(frame, 1)
  }

  /** A begin that names somebody and something. */
  predicate Begins(owner: Owner, frame: seq<byte>) {
    Is(frame, 0x11) && |frame| == 9 && owner != Nobody && Get32(frame, 1) != 0
  }

  /** Data of ours for the place where the transfer stands. */
  predicate Continues(rx: Rx, owner: Owner, frame: seq<byte>) {
    Is(frame, 0x12) && |frame| >= 9 && Ours(rx, owner, frame) && Get32(frame, 5) == |rx.wire|
  }

  predicate TakesData(rx: Rx, owner: Owner, frame: seq<byte>) {
    Continues(rx, owner, frame) && rx.active && |rx.wire| + |frame| - 9 <= rx.total
  }

  /** The ninety-sixth byte arrives, which ends the signed head. */
  predicate EndsHead(rx: Rx, frame: seq<byte>) {
    |rx.wire| < 96 <= |rx.wire| + |frame| - 9
  }

  predicate Commits(rx: Rx, owner: Owner, frame: seq<byte>) {
    Is(frame, 0x13) && |frame| == 5 && Ours(rx, owner, frame) && !rx.staged
  }

  /** Everything announced has arrived. */
  predicate Complete(rx: Rx) {
    rx.active && rx.erased && |rx.wire| == rx.total
  }

  function Answered(rx: Rx, owner: Owner, frame: seq<byte>, port: Port): seq<byte>
    requires Fits(rx)
  {
    RxFrame(rx, owner, frame, port).reply
  }

  // ----- answers

  /** What is wrong with a request, if anything is, in the order it is looked for. */
  function Fault(rx: Rx, owner: Owner, frame: seq<byte>, port: Port): Option<Error> {
    if frame == [] then Some(Malformed)
    else if !rx.open then Some(Closed)
    else if !WellFormed(frame) then Some(Malformed)
    else if Is(frame, 0x11) then BeginFault(rx, owner, frame, port)
    else if Is(frame, 0x14) then
      if |frame| != 5 || !Ours(rx, owner, frame) then Some(Sequence)
      else if port.opens && port.erases then None else Some(Flash)
    else if !Ours(rx, owner, frame) then Some(if rx.owner == Nobody then Sequence else Busy)
    else if Is(frame, 0x12) then DataFault(rx, frame, port)
    else CommitFault(rx, port)
  }

  function BeginFault(rx: Rx, owner: Owner, frame: seq<byte>, port: Port): Option<Error>
    requires |frame| == 9
  {
    if owner == Nobody || Get32(frame, 1) == 0 then Some(Malformed)
    else if rx.owner != Nobody then
      if Ours(rx, owner, frame) && rx.total == Get32(frame, 5) then None else Some(Busy)
    else if !port.opens then Some(Flash)
    else if 96 < Get32(frame, 5) <= 96 + rx.room then None
    else Some(Size)
  }

  function DataFault(rx: Rx, frame: seq<byte>, port: Port): Option<Error>
    requires |frame| >= 9
  {
    if Get32(frame, 5) != |rx.wire| then None
    else if !rx.active then Some(Sequence)
    else if |rx.wire| + |frame| - 9 > rx.total then Some(Size)
    else if EndsHead(rx, frame) && !port.authentic then Some(Auth)
    else if EndsHead(rx, frame) && !port.erases then Some(Flash)
    else if Flushes(|rx.wire|, |rx.wire| + |frame| - 9) && !port.writes then Some(Flash)
    else None
  }

  function CommitFault(rx: Rx, port: Port): Option<Error> {
    if rx.staged then None
    else if !Complete(rx) then Some(Sequence)
    else if HeaderMatches(rx.wire, rx.total) then if port.writes && port.accepts then None else Some(Flash)
    else if port.writes || (rx.total - 96) % 64 == 0 then Some(Integrity)
    else Some(Flash)
  }

  predicate Says(a: Answer, fault: Option<Error>, frame: seq<byte>) {
    if fault.Some? then a.reply == ErrReply(fault.value)
    else |frame| >= 5 && |a.rx.wire| < 0x1_0000_0000 && a.reply == OkReply(Get32(frame, 1), |a.rx.wire|)
  }

  lemma BeginSays(rx: Rx, owner: Owner, frame: seq<byte>, port: Port)
    requires Fits(rx) && |frame| == 9
    ensures Says(DoBegin(rx, owner, frame, port), BeginFault(rx, owner, frame, port), frame)
  {
    hide ErrReply, OkReply, Get32;
  }

  lemma DataSays(rx: Rx, owner: Owner, frame: seq<byte>, port: Port)
    requires Fits(rx) && |frame| >= 9 && Ours(rx, owner, frame)
    ensures Says(DoData(rx, owner, frame, port), DataFault(rx, frame, port), frame)
  {
    hide ErrReply, OkReply, Get32, Flushes;
  }

  lemma CommitSays(rx: Rx, owner: Owner, frame: seq<byte>, port: Port)
    requires Fits(rx) && |frame| == 5 && Ours(rx, owner, frame)
    ensures Says(DoCommit(rx, owner, frame, port), CommitFault(rx, port), frame)
  {
    hide ErrReply, OkReply, Get32, HeaderMatches;
  }

  lemma FrameSays(rx: Rx, owner: Owner, frame: seq<byte>, port: Port)
    requires Fits(rx)
    ensures Says(RxFrame(rx, owner, frame, port), Fault(rx, owner, frame, port), frame)
  {
    hide ErrReply, OkReply, Get32, BeginFault, DataFault, CommitFault, BeginAt, FeedBytes, CommitNow;
    if Is(frame, 0x11) && |frame| == 9 {
      BeginSays(rx, owner, frame, port);
    }
    if Is(frame, 0x12) && |frame| >= 9 && Ours(rx, owner, frame) {
      DataSays(rx, owner, frame, port);
    }
    if Is(frame, 0x13) && |frame| == 5 && Ours(rx, owner, frame) {
      CommitSays(rx, owner, frame, port);
    }
  }

  /** The number an error goes by on the wire. */
  function Number(e: Error): byte {
    match e
    case Closed => 1
    case Sequence => 2
    case Size => 3
    case Auth => 4
    case Integrity => 5
    case Flash => 6
    case Malformed => 7
    case Busy => 8
  }

  lemma ErrorBytes(e: Error)
    ensures ErrReply(e) == [0x82, Number(e)]
  {
  }

  /** Every answer is nine bytes that begin 0x81 and name the transfer and where it stands, or 0x82 and an error. */
  lemma AnswerShape(rx: Rx, owner: Owner, frame: seq<byte>, port: Port)
    requires Fits(rx)
    ensures var a, fault := RxFrame(rx, owner, frame, port), Fault(rx, owner, frame, port);
            if fault.Some? then a.reply == [0x82, Number(fault.value)]
            else && |a.reply| == 9 && a.reply[0] == 0x81 && |frame| >= 5
                 && Get32(a.reply, 1) == Get32(frame, 1) && Get32(a.reply, 5) == |a.rx.wire|
  {
    hide RxFrame, Fault, Get32, OkReply, ErrReply, Number;
    FrameSays(rx, owner, frame, port);
    var a, fault := RxFrame(rx, owner, frame, port), Fault(rx, owner, frame, port);
    if fault.Some? {
      ErrorBytes(fault.value);
    } else {
      OkReads(Get32(frame, 1), |a.rx.wire|);
    }
  }

  /** The answer carries error `n` exactly when that is the fault. */
  lemma AnswerIs(rx: Rx, owner: Owner, frame: seq<byte>, port: Port, n: byte)
    requires Fits(rx)
    ensures var fault := Fault(rx, owner, frame, port);
            Answered(rx, owner, frame, port) == [0x82, n] <==> fault.Some? && Number(fault.value) == n
  {
    hide RxFrame, Fault, Get32, Number;
    AnswerShape(rx, owner, frame, port);
  }

  lemma OkReads(id: u32, n: u32)
    ensures |OkReply(id, n)| == 9 && OkReply(id, n)[0] == 0x81
    ensures Get32(OkReply(id, n), 1) == id && Get32(OkReply(id, n), 5) == n
  {
    assert OkReply(id, n) == [0x81] + Le32(id) + Le32(n);
    Get32Within([0x81], id, Le32(n));
    Get32Within([0x81] + Le32(id), n, []);
    assert [0x81] + Le32(id) + Le32(n) + [] == OkReply(id, n);
  }

  lemma ClosedIff(rx: Rx, owner: Owner, frame: seq<byte>, port: Port)
    requires Fits(rx)
    ensures Answered(rx, owner, frame, port) == [0x82, 1] <==> frame != [] && !rx.open
  {
    hide Answered, RxFrame, HeaderMatches, Flushes, Get32;
    AnswerIs(rx, owner, frame, port, 1);
  }

  lemma SequenceIff(rx: Rx, owner: Owner, frame: seq<byte>, port: Port)
    requires Fits(rx)
    ensures Answered(rx, owner, frame, port) == [0x82, 2]
            <==> rx.open
                 && (|| (Is(frame, 0x14) && !(|frame| == 5 && Ours(rx, owner, frame)))
                     || (rx.owner == Nobody && WellFormed(frame) && !Is(frame, 0x11) && !Is(frame, 0x14)
                         && !Ours(rx, owner, frame))
                     || (Continues(rx, owner, frame) && !rx.active)
                     || (Commits(rx, owner, frame) && !Complete(rx)))
  {
    hide Answered, RxFrame, HeaderMatches, Flushes, Get32;
    AnswerIs(rx, owner, frame, port, 2);
  }

  lemma SizeIff(rx: Rx, owner: Owner, frame: seq<byte>, port: Port)
    requires Fits(rx)
    ensures Answered(rx, owner, frame, port) == [0x82, 3]
            <==> rx.open
                 && (|| (Begins(owner, frame) && rx.owner == Nobody && port.opens
                         && !(96 < Get32(frame, 5) <= 96 + rx.room))
                     || (Continues(rx, owner, frame) && rx.active && |rx.wire| + |frame| - 9 > rx.total))
  {
    hide Answered, RxFrame, HeaderMatches, Flushes, Get32;
    AnswerIs(rx, owner, frame, port, 3);
  }

  lemma AuthIff(rx: Rx, owner: Owner, frame: seq<byte>, port: Port)
    requires Fits(rx)
    ensures Answered(rx, owner, frame, port) == [0x82, 4]
            <==> rx.open && TakesData(rx, owner, frame) && EndsHead(rx, frame) && !port.authentic
  {
    hide Answered, RxFrame, HeaderMatches, Flushes, Get32;
    AnswerIs(rx, owner, frame, port, 4);
  }

  lemma IntegrityIff(rx: Rx, owner: Owner, frame: seq<byte>, port: Port)
    requires Fits(rx)
    ensures Answered(rx, owner, frame, port) == [0x82, 5]
            <==> && rx.open && Commits(rx, owner, frame) && Complete(rx)
                 && !HeaderMatches(rx.wire, rx.total) && (port.writes || (rx.total - 96) % 64 == 0)
  {
    hide Answered, RxFrame, HeaderMatches, Flushes, Get32;
    AnswerIs(rx, owner, frame, port, 5);
  }

  lemma FlashIff(rx: Rx, owner: Owner, frame: seq<byte>, port: Port)
    requires Fits(rx)
    ensures Answered(rx, owner, frame, port) == [0x82, 6]
            <==> rx.open
                 && (|| (Begins(owner, frame) && rx.owner == Nobody && !port.opens)
                     || (TakesData(rx, owner, frame) && (EndsHead(rx, frame) ==> port.authentic)
                         && (|| (EndsHead(rx, frame) && !port.erases)
                             || (Flushes(|rx.wire|, |rx.wire| + |frame| - 9) && !port.writes)))
                     || (Commits(rx, owner, frame) && Complete(rx)
                         && (if HeaderMatches(rx.wire, rx.total) then !port.writes || !port.accepts
                             else !port.writes && (rx.total - 96) % 64 != 0))
                     || (Is(frame, 0x14) && |frame| == 5 && Ours(rx, owner, frame) && !(port.opens && port.erases)))
  {
    hide Answered, RxFrame, HeaderMatches, Flushes, Get32;
    AnswerIs(rx, owner, frame, port, 6);
  }

  lemma MalformedIff(rx: Rx, owner: Owner, frame: seq<byte>, port: Port)
    requires Fits(rx)
    ensures Answered(rx, owner, frame, port) == [0x82, 7]
            <==> || frame == []
                 || (rx.open && (!WellFormed(frame) || (Is(frame, 0x11) && !Begins(owner, frame))))
  {
    hide Answered, RxFrame, HeaderMatches, Flushes, Get32;
    AnswerIs(rx, owner, frame, port, 7);
  }

  lemma BusyIff(rx: Rx, owner: Owner, frame: seq<byte>, port: Port)
    requires Fits(rx)
    ensures Answered(rx, owner, frame, port) == [0x82, 8]
            <==> && rx.open && rx.owner != Nobody && WellFormed(frame) && !Is(frame, 0x14)
                 && if Is(frame, 0x11) then
                      Begins(owner, frame) && !(Ours(rx, owner, frame) && rx.total == Get32(frame, 5))
                    else !Ours(rx, owner, frame)
  {
    hide Answered, RxFrame, HeaderMatches, Flushes, Get32;
    AnswerIs(rx, owner, frame, port, 8);
  }

  /** A block of 64 patch bytes is full, and must be written before more can be taken. */
  lemma FlushesIff(before: nat, after: nat)
    requires before <= after
    ensures Flushes(before, after) <==> exists k: nat :: k > 0 && before < 96 + 64 * k <= after
  {
    if Flushes(before, after) {
      var k := (after - 96) / 64;
      assert k > 0 && before < 96 + 64 * k <= after;
    }
    if k: nat :| k > 0 && before < 96 + 64 * k <= after {
      assert (after - 96) / 64 >= k;
    }
  }

  // ----- what an answer leaves behind

  /** As if nothing had ever been received. */
  predicate Blank(rx: Rx) {
    && rx.owner == Nobody && rx.id == 0 && rx.total == 0 && rx.wire == []
    && !rx.active && !rx.erased && !rx.staged
    && rx.file == [] && rx.skip == 0 && rx.inner == 0
  }

  predicate LetGo(before: Rx, after: Rx) {
    Blank(after) && after.open == before.open && after.room == before.room
  }

  lemma BeginLeaves(rx: Rx, owner: Owner, frame: seq<byte>, port: Port)
    requires Fits(rx) && |frame| == 9
    ensures BeginFault(rx, owner, frame, port).Some? ==> DoBegin(rx, owner, frame, port).rx == rx
  {
    hide ErrReply, OkReply, Get32;
  }

  lemma DataLeaves(rx: Rx, owner: Owner, frame: seq<byte>, port: Port)
    requires Fits(rx) && |frame| >= 9 && Ours(rx, owner, frame)
    ensures DataFault(rx, frame, port).Some? ==> LetGo(rx, DoData(rx, owner, frame, port).rx)
  {
    hide ErrReply, OkReply, Get32, Flushes;
  }

  lemma CommitLeaves(rx: Rx, owner: Owner, frame: seq<byte>, port: Port)
    requires Fits(rx) && |frame| == 5 && Ours(rx, owner, frame)
    ensures CommitFault(rx, port).Some? ==> LetGo(rx, DoCommit(rx, owner, frame, port).rx)
  {
    hide ErrReply, OkReply, Get32, HeaderMatches;
  }

  /** The request is data or a commit for the transfer there is. */
  predicate Pushes(rx: Rx, owner: Owner, frame: seq<byte>) {
    rx.open && WellFormed(frame) && (Is(frame, 0x12) || Is(frame, 0x13)) && Ours(rx, owner, frame)
  }

  lemma FaultLeaves(rx: Rx, owner: Owner, frame: seq<byte>, port: Port)
    requires Fits(rx) && Fault(rx, owner, frame, port).Some?
    ensures var r := RxFrame(rx, owner, frame, port).rx; if Pushes(rx, owner, frame) then LetGo(rx, r) else r == rx
  {
    hide LetGo, ErrReply, OkReply, Get32, BeginFault, DataFault, CommitFault, BeginAt, FeedBytes, CommitNow;
    if Is(frame, 0x11) && |frame| == 9 {
      BeginLeaves(rx, owner, frame, port);
    }
    if Is(frame, 0x12) && |frame| >= 9 && Ours(rx, owner, frame) {
      DataLeaves(rx, owner, frame, port);
    }
    if Is(frame, 0x13) && |frame| == 5 && Ours(rx, owner, frame) {
      CommitLeaves(rx, owner, frame, port);
    }
  }

  lemma AbortLeaves(rx: Rx, owner: Owner, frame: seq<byte>, port: Port)
    requires Fits(rx) && Fault(rx, owner, frame, port).None? && Is(frame, 0x14)
    ensures var r := RxFrame(rx, owner, frame, port).rx; LetGo(rx, r) && r.committed == None
  {
    hide ErrReply, OkReply, Get32;
  }

  /**
   A refusal, which is two bytes, of data or of a commit for the transfer there is ends it;
   any other refusal changes nothing, and an abort that is granted ends it and clears the
   staging area.
   */
  lemma RefusalLeaves(rx: Rx, owner: Owner, frame: seq<byte>, port: Port)
    requires Fits(rx)
    ensures var a := RxFrame(rx, owner, frame, port);
            && (|a.reply| == 2 ==> if Pushes(rx, owner, frame) then LetGo(rx, a.rx) else a.rx == rx)
            && (|a.reply| != 2 && Is(frame, 0x14) ==> LetGo(rx, a.rx) && a.rx.committed == None)
  {
    hide RxFrame, Fault, LetGo, Get32, Number, Pushes;
    AnswerShape(rx, owner, frame, port);
    if Fault(rx, owner, frame, port).Some? {
      FaultLeaves(rx, owner, frame, port);
    } else if Is(frame, 0x14) {
      AbortLeaves(rx, owner, frame, port);
    }
  }

  // ----- wrapped files

  /** An MCUboot image header: magic, load address, header size, protected area, image size, and the rest. */
  function ImageHeader(load: u32, hdr: word, tlvs: word, img: u32, rest: seq<byte>): seq<byte> {
    Le32(0x96f3b83d) + Le32(load) + [hdr % 0x100, hdr / 0x100] + [tlvs % 0x100, tlvs / 0x100] + Le32(img) + rest
  }

  lemma HeaderReads(load: u32, hdr: word, tlvs: word, img: u32, rest: seq<byte>)
    ensures var data := ImageHeader(load, hdr, tlvs, img, rest);
            && |data| >= 16 && Get32(data, 0) == 0x96f3b83d && Get16(data, 8) == hdr && Get32(data, 12) == img
  {
    var data := ImageHeader(load, hdr, tlvs, img, rest);
    var tail := Le32(load) + [hdr % 0x100, hdr / 0x100] + [tlvs % 0x100, tlvs / 0x100] + Le32(img) + rest;
    assert data == [] + Le32(0x96f3b83d) + tail;
    Get32Within([], 0x96f3b83d, tail);
    var front := Le32(0x96f3b83d) + Le32(load) + [hdr % 0x100, hdr / 0x100] + [tlvs % 0x100, tlvs / 0x100];
    assert data == front + Le32(img) + rest;
    Get32Within(front, img, rest);
  }

  /** The patch of an image is what its header says, if that lies within the file. */
  lemma WrapperMeasured(load: u32, hdr: word, tlvs: word, img: u32, rest: seq<byte>, total: u32)
    ensures Measure(ImageHeader(load, hdr, tlvs, img, rest), total)
         == if 16 <= hdr && 0 < img && hdr + img <= total then Geometry(hdr, img) else BadWrapper
  {
    hide ImageHeader, Get32, Get16;
    HeaderReads(load, hdr, tlvs, img, rest);
  }

  /** Any other file is the patch itself. */
  lemma PlainMeasured(data: seq<byte>, total: u32)
    ensures Measure(data, total) != Geometry(0, total) ==> |data| >= 16 && data[..4] == [0x3d, 0xb8, 0xf3, 0x96]
  {
    if |data| >= 16 && Get32(data, 0) == 0x96f3b83d {
      Spelled(data[0], data[1], data[2], data[3]);
      assert data[..4] == [data[0], data[1], data[2], data[3]];
    }
  }

  lemma Spelled(a: byte, b: byte, c: byte, d: byte)
    requires (a as int) + 0x100 * (b as int) + 0x1_0000 * (c as int) + 0x100_0000 * (d as int) == 0x96f3b83d
    ensures a == 0x3d && b == 0xb8 && c == 0xf3 && d == 0x96
  {
  }

  /** An upload has begun and taken something, or nobody has anything. */
  predicate Uploading(rx: Rx) {
    if rx.owner == Smp then rx.file != [] else rx.file == [] && Blank(rx.(skip := 0, inner := 0))
  }

  lemma TakeRefuses(rx: Rx, data: seq<byte>, port: Port)
    requires rx.owner == Smp && |rx.file| + |data| < 0x1_0000_0000
    ensures var u := TakeChunk(rx, data, port); u.Invalid? ==> LetGo(rx, u.rx)
  {
    hide FeedBytes, CommitNow, PatchPart;
    var part := PatchPart(rx, data);
    FeedShape(rx, part, port);
    var fed := if part == [] then Done(rx) else FeedBytes(rx, part, port);
    if fed.Done? {
      CommitShape(fed.rx.(file := rx.file + data), port);
    }
  }

  /** A first chunk that is refused. */
  lemma StartRefuses(rx: Rx, total: u32, data: seq<byte>, port: Port)
    requires Fits(rx) && |data| < 0x1_0000_0000 && rx.open && rx.owner == Nobody && Uploading(rx)
    ensures var u := RxUpload(rx, 0, total, data, port); u.Invalid? ==> LetGo(rx, u.rx)
  {
    hide TakeChunk, Measure;
    var g := Measure(data, total);
    if g.Geometry? {
      var b := BeginAt(rx.(skip := g.skip, inner := g.inner), Smp, 1, g.inner, port);
      if b.Done? {
        TakeRefuses(b.rx.(file := []), data, port);
      }
    }
  }

  /**
   An upload is denied with the window closed, and turned away while another owner has the
   receiver; a chunk that is not at the cursor, or starts a file over, is told where to go
   on; and an invalid one leaves nothing of the upload behind.
   */
  lemma UploadRules(rx: Rx, off: u32, total: u32, data: seq<byte>, port: Port)
    requires Fits(rx) && NoWrap(rx, off, data)
    ensures var u := RxUpload(rx, off, total, data, port);
            && (u.Denied? <==> !rx.open)
            && (u.InUse? <==> rx.open && rx.owner != Nobody && rx.owner != Smp)
            && (rx.open && (rx.owner == Nobody || rx.owner == Smp)
                && (if off == 0 then rx.owner == Smp && rx.file != [] else off != |rx.file|)
                ==> u == Accepted(rx, |rx.file|))
            && (u.Invalid? && Uploading(rx) ==> LetGo(rx, u.rx))
  {
    hide TakeChunk, Measure, BeginAt;
    if rx.open && rx.owner == Nobody && off == 0 && Uploading(rx) {
      StartRefuses(rx, total, data, port);
    }
    if rx.open && rx.owner == Smp && off == |rx.file| && off != 0 {
      TakeRefuses(rx, data, port);
    }
  }
}
