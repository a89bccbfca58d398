/**
 The receiver as it runs: its state and buffers, updated in place, proved to behave as
 the state machine of `DfuProtocol` and to leave on flash exactly what that machine
 says is committed.
 */
module DfuReceiver {
  import opened Bits
  import opened Options
  import opened DfuProtocol
  import opened DfuStaging
  import Crc32

  /** The transfer: how far it has got, but not its bytes. */
  datatype Transfer = Transfer(active: bool, erased: bool, staged: bool, owner: Owner, id: u32, total: u32,
                               got: nat, patchCrc: Crc32.register)

  const IDLE := Transfer(false, false, false, Nobody, 0, 0, 0, Zeros(32))

  /** The image-upload cursor and wrapper geometry. */
  datatype Cursor = Cursor(off: nat, skip: nat, inner: u32)

  const START := Cursor(0, 0, 0)

  predicate Agrees(s: Transfer, v: Rx) {
    && s.active == v.active && s.erased == v.erased && s.staged == v.staged
    && s.owner == v.owner && s.id == v.id && s.total == v.total && s.got == |v.wire|
  }

  predicate Follows(c: Cursor, v: Rx) {
    c.off == |v.file| && c.skip == v.skip && c.inner == v.inner
  }

  /** The part of what arrived that is patch. */
  function PatchOf(wire: seq<byte>): seq<byte> {
    if |wire| < HEAD_LEN then [] else wire[HEAD_LEN..]
  }

  /** What holds of a transfer whatever its bytes are. */
  predicate Sane(s: Transfer, room: nat) {
    && s.got <= s.total
    && !(s.active && s.staged)
    && (s.owner == Nobody ==> s == IDLE.(patchCrc := s.patchCrc))
    && (s.active ==> HEAD_LEN < s.total <= HEAD_LEN + room && (s.erased <==> s.got >= HEAD_LEN))
  }

  /** What the client is told: where to go on, or that it may not. */
  datatype UploadCode = Next(off: u32) | AccessDenied | BadState

  /** Two refusals that a reset makes alike. */
  predicate SameAfterReset(a: Rx, b: Rx) {
    a.owner == b.owner && ResetAll(a) == ResetAll(b)
  }

  class Receiver {
    const staging: Staging
    const head: array<byte>
    var open: bool
    var s: Transfer
    var cli: Cursor
    /** The state machine this object implements. */
    ghost var view: Rx

    ghost predicate Fixed() {
      && staging.Fixed()
      && head.Length == HEAD_LEN
      && head != staging.flash && head != staging.wbuf
    }

    /** What the bootloader would find is what was committed: header, then every patch byte. */
    ghost predicate OnFlash(c: Option<Commit>)
      reads staging.flash
      requires Fixed()
    {
      c.Some? ==>
        var w := c.value.wire;
        && HEAD_LEN <= |w| <= HEAD_LEN + staging.Room()
        && staging.flash[..32] == w[..32]
        && staging.flash[8192..8192 + |w| - 96] == w[96..]
    }

    /** The buffers hold the bytes of the transfer in progress. */
    ghost predicate Buffered(wire: seq<byte>, crc: Crc32.register)
      reads head, staging, staging.flash, staging.wbuf
      requires Fixed()
    {
      && head[..Min(|wire|, HEAD_LEN)] == wire[..Min(|wire|, HEAD_LEN)]
      && staging.Valid() && staging.patch == PatchOf(wire)
      && crc == Crc32.Update(Zeros(32), PatchOf(wire))
    }

    /** Enough is intact for a reset to leave the receiver sound. */
    ghost predicate Resettable()
      reads this, staging.flash
    {
      && Fixed() && OnFlash(view.committed)
      && open == view.open && view.room == staging.Room()
      && s.owner == view.owner && Follows(cli, view)
    }

    ghost predicate Valid()
      reads this, head, staging, staging.flash, staging.wbuf
    {
      && Resettable()
      && Agrees(s, view) && Sane(s, view.room)
      && (s.active ==> Buffered(view.wire, s.patchCrc) && (s.erased ==> view.committed == None))
      && cli.off < 0x1_0000_0000 && (cli.off > 0 ==> s.owner == Smp)
    }

    constructor (pages: nat)
      requires pages >= 2
      ensures Valid() && fresh(staging) && fresh(head) && fresh(staging.flash) && fresh(staging.wbuf)
      ensures view == Rx(false, staging.Room(), Nobody, 0, 0, [], false, false, false, [], 0, 0, None)
    {
      var st := new Staging(pages);
      staging := st;
      head := new byte[HEAD_LEN](_ => 0);
      open, s, cli := false, IDLE, START;
      view := Rx(false, pages * PAGE_SIZE - PATCH_OFFSET, Nobody, 0, 0, [], false, false, false, [], 0, 0, None);
    }

    method ResetState()
      requires Resettable()
      modifies this, staging
      ensures view == DfuProtocol.ResetState(old(view)) && s == IDLE && cli == old(cli)
      ensures Resettable() && Agrees(s, view)
      ensures staging.Valid() && staging.patch == []
    {
      s := IDLE;
      view := DfuProtocol.ResetState(view);
      staging.Rewind();
    }

    method ResetAll()
      requires Resettable()
      modifies this, staging
      ensures Valid() && view == DfuProtocol.ResetAll(old(view))
    {
      ResetState();
      cli := START;
      view := view.(file := [], skip := 0, inner := 0);
    }

    method BeginAt(who: Owner, transfer: u32, size: u32, port: Port) returns (err: Option<Error>)
      requires Valid()
      modifies this, staging
      ensures Valid() && cli == old(cli)
      ensures var r := DfuProtocol.BeginAt(old(view), who, transfer, size, port);
              view == r.rx && err == (if r.Refused? then Some(r.error) else None)
    {
      hide Crc32.Update;
      err := None;
      if who == Nobody || transfer == 0 {
        return Some(Malformed);
      }
      if s.owner != Nobody {
        if s.owner == who && s.id == transfer && s.total == size {
          return None;
        }
        return Some(Busy);
      }
      if !port.opens {
        return Some(Flash);
      }
      if size <= HEAD_LEN || size - HEAD_LEN > staging.flash.Length - PATCH_OFFSET {
        return Some(Size);
      }
      ResetState();
      s := s.(active := true, owner := who, id := transfer, total := size);
      view := view.(active := true, owner := who, id := transfer, total := size);
      EmptyCrc();
    }

    /** What feeding leaves: the machine's next state, or a refusal that only needs a reset. */
    ghost predicate After(r: Outcome, err: Option<Error>)
      reads this, head, staging, staging.flash, staging.wbuf
    {
      if r.Done? then err == None && view == r.rx && Valid()
      else err == Some(r.error) && SameAfterReset(view, r.rx) && Resettable()
    }

    /** Copies preamble bytes behind those already held. */
    method FillHead(p: seq<byte>)
      requires Fixed() && s.got + |p| <= HEAD_LEN
      modifies head
      ensures head[..s.got + |p|] == old(head[..s.got]) + p
    {
      forall i | 0 <= i < |p| {
        head[s.got + i] := p[i];
      }
    }

    /** The preamble is complete: check it, and only then erase. */
    method Authenticate(port: Port, ghost wire: seq<byte>) returns (err: Option<Error>)
      requires Fixed() && Buffered(wire, s.patchCrc) && PatchOf(wire) == []
      modifies this, staging.flash
      ensures s == (if err == None then old(s).(erased := true) else old(s)) && cli == old(cli) && open == old(open)
      ensures view == (if err == None then old(view).(erased := true, committed := None) else old(view))
      ensures err == (if !port.authentic then Some(Auth) else if !port.erases then Some(Flash) else None)
      ensures err != None ==> unchanged(staging.flash)
      ensures Buffered(wire, s.patchCrc) && OnFlash(None)
    {
      hide Crc32.Update;
      if !port.authentic {
        return Some(Auth);
      }
      if !port.erases {
        return Some(Flash);
      }
      staging.Erase();
      s := s.(erased := true);
      view := view.(erased := true, committed := None);
      err := None;
    }

    /** Preamble bytes land in the buffer, and so far only there. */
    method HoldHead(p: seq<byte>)
      requires Valid() && s.active && s.got + |p| <= HEAD_LEN && s.got < HEAD_LEN
      modifies this`s, head
      ensures s == old(s).(got := old(s).got + |p|)
      ensures Resettable() && Buffered(view.wire + p, s.patchCrc) && PatchOf(view.wire + p) == []
    {
      hide Crc32.Update, Staging.Valid, Receiver.OnFlash;
      assert PatchOf(view.wire + p) == [] == PatchOf(view.wire);
      ghost var wire := view.wire + p;
      assert view.wire[..s.got] == view.wire && wire[..|wire|] == wire;
      FillHead(p);
      s := s.(got := s.got + |p|);
    }

    /** Bytes of the preamble; the last of them is what the signature is checked on. */
    method FeedHead(p: seq<byte>, port: Port) returns (err: Option<Error>)
      requires Valid() && s.active && s.got + |p| <= HEAD_LEN && s.got < HEAD_LEN
      modifies this, head, staging.flash
      ensures After(DfuProtocol.FeedBytes(old(view), p, port), err) && cli == old(cli)
    {
      hide Receiver.Buffered, Receiver.OnFlash, DfuProtocol.FeedBytes;
      HeadStep(view, p, port);
      HoldHead(p);
      err := None;
      if s.got == HEAD_LEN {
        err := Authenticate(port, view.wire + p);
        if err != None {
          return;
        }
      }
      view := view.(wire := view.wire + p);
    }

    /** Bytes of the patch. */
    method FeedPatch(p: seq<byte>, port: Port) returns (err: Option<Error>)
      requires Valid() && s.active && s.got >= HEAD_LEN && s.got + |p| <= s.total
      modifies this, staging, staging.flash, staging.wbuf
      ensures After(DfuProtocol.FeedBytes(old(view), p, port), err) && cli == old(cli)
    {
      hide Crc32.Update, DfuProtocol.FeedBytes;
      PatchStep(view, p, port);
      Crc32.UpdateAppend(Zeros(32), PatchOf(view.wire), p);
      s := s.(patchCrc := Crc32.Update(s.patchCrc, p));
      var ok := staging.Write(p, port.writes);
      if !ok {
        return Some(Flash);
      }
      s := s.(got := s.got + |p|);
      view := view.(wire := view.wire + p);
      err := None;
    }

    method FeedBytes(p: seq<byte>, port: Port) returns (err: Option<Error>)
      requires Valid()
      modifies this, head, staging, staging.flash, staging.wbuf
      ensures After(DfuProtocol.FeedBytes(old(view), p, port), err) && cli == old(cli)
    {
      hide DfuProtocol.FeedBytes, Crc32.Update;
      NotFed(view, p, port);
      if !s.active {
        return Some(Sequence);
      }
      if s.got + |p| > s.total {
        return Some(Size);
      }
      if s.got >= HEAD_LEN {
        err := FeedPatch(p, port);
        return;
      }
      var take := if |p| < HEAD_LEN - s.got then |p| else HEAD_LEN - s.got;
      err := FeedStraddle(p, take, port);
    }

    /** A frame that may end the preamble and go on into the patch. */
    method FeedStraddle(p: seq<byte>, take: nat, port: Port) returns (err: Option<Error>)
      requires Valid() && s.active && s.got < HEAD_LEN && s.got + |p| <= s.total
      requires take <= |p| && s.got + take <= HEAD_LEN && (take == |p| || s.got + take == HEAD_LEN)
      modifies this, head, staging, staging.flash, staging.wbuf
      ensures After(DfuProtocol.FeedBytes(old(view), p, port), err) && cli == old(cli)
    {
      hide DfuProtocol.FeedBytes, Crc32.Update, Receiver.Buffered, Receiver.OnFlash;
      FeedSplit(view, p, take, port);
      err := FeedHead(p[..take], port);
      if err == None && take < |p| {
        err := FeedPatch(p[take..], port);
      }
    }

    /** The header as it was received, checked against what was staged. */
    method HeaderChecks() returns (ok: bool)
      requires Valid() && s.active && s.got >= HEAD_LEN
      ensures ok == HeaderMatches(view.wire, s.total)
      ensures head[..] == view.wire[..HEAD_LEN]
    {
      var hdr := head[..];
      assert hdr == view.wire[..HEAD_LEN];
      SameFields(hdr, view.wire);
      ok := && Get32(hdr, 0) == MAGIC
            && Get16(hdr, 4) == ABI_VERSION
            && Get32(hdr, 28) == Crc32.Sum(hdr[..28])
            && Get32(hdr, 8) == s.total - HEAD_LEN
            && Get32(hdr, 16) == FromBits(s.patchCrc);
    }

    /** The tail of the patch goes out; nothing before the patch moves. */
    method FlushPatch(port: Port) returns (ok: bool)
      requires Fixed() && Buffered(view.wire, s.patchCrc) && |view.wire| >= HEAD_LEN
      modifies staging, staging.flash, staging.wbuf
      ensures ok <==> port.writes || (|view.wire| - HEAD_LEN) % WBUF_SZ == 0
      ensures |view.wire| - HEAD_LEN <= staging.Room()
      ensures ok ==> staging.flash[PATCH_OFFSET..PATCH_OFFSET + |view.wire| - HEAD_LEN] == view.wire[HEAD_LEN..]
      ensures OnFlash(None)
    {
      hide Crc32.Update;
      ok := staging.FlushFinal(port.writes);
    }

    /** The header lands last, and makes the staged patch an update. */
    method PutHeader()
      requires Fixed() && HEAD_LEN <= |view.wire| <= HEAD_LEN + staging.Room()
      requires head[..] == view.wire[..HEAD_LEN]
      requires staging.flash[PATCH_OFFSET..PATCH_OFFSET + |view.wire| - HEAD_LEN] == view.wire[HEAD_LEN..]
      modifies staging.flash
      ensures OnFlash(Some(Commit(view.owner, view.id, view.wire)))
    {
      ghost var n := |view.wire| - HEAD_LEN;
      staging.PutHeader(head);
      assert head[..HDR_LEN] == head[..][..HDR_LEN] == view.wire[..HDR_LEN];
      assert staging.flash[PATCH_OFFSET..PATCH_OFFSET + n] == staging.flash[PATCH_OFFSET..][..n];
    }

    method CommitNow(port: Port) returns (err: Option<Error>)
      requires Valid()
      modifies this, staging, staging.flash, staging.wbuf
      ensures After(DfuProtocol.CommitNow(old(view), port), err) && cli == old(cli)
    {
      hide HeaderMatches, Receiver.Buffered, Receiver.OnFlash;
      if s.staged {
        return None;
      }
      if !s.active || !s.erased || s.got != s.total {
        return Some(Sequence);
      }
      var matches := HeaderChecks();
      var ok := FlushPatch(port);
      if !ok {
        return Some(Flash);
      }
      if !matches {
        return Some(Integrity);
      }
      if !port.writes {
        return Some(Flash);
      }
      PutHeader();
      view := view.(committed := Some(Commit(view.owner, view.id, view.wire)));
      if !port.accepts {
        return Some(Flash);
      }
      s := s.(active := false, staged := true);
      view := view.(active := false, staged := true);
      err := None;
    }

    function OkNow(transfer: u32): seq<byte>
      reads this
      requires s.got < 0x1_0000_0000
    {
      OkReply(transfer, s.got)
    }

    method DoBegin(who: Owner, frame: seq<byte>, port: Port) returns (reply: seq<byte>)
      requires Valid()
      modifies this, staging
      ensures Valid() && Answer(view, reply) == DfuProtocol.DoBegin(old(view), who, frame, port)
    {
      hide DfuProtocol.BeginAt, Get32, OkReply, ErrReply;
      if |frame| != 9 {
        return ErrReply(Malformed);
      }
      var transfer := Get32(frame, 1);
      var e := BeginAt(who, transfer, Get32(frame, 5), port);
      reply := if e == None then OkNow(transfer) else ErrReply(e.value);
    }

    /** The refusal of a frame that names a transfer not carried for this owner. */
    method Refuse() returns (reply: seq<byte>)
      ensures reply == ErrReply(if s.owner == Nobody then Sequence else Busy)
    {
      reply := ErrReply(if s.owner == Nobody then Sequence else Busy);
    }

    method DoData(who: Owner, frame: seq<byte>, port: Port) returns (reply: seq<byte>)
      requires Valid()
      modifies this, head, staging, staging.flash, staging.wbuf
      ensures Valid() && Answer(view, reply) == DfuProtocol.DoData(old(view), who, frame, port)
    {
      hide DfuProtocol.FeedBytes, Get32, OkReply, ErrReply, Receiver.Buffered, Receiver.OnFlash;
      if |frame| < 9 {
        return ErrReply(Malformed);
      }
      var transfer := Get32(frame, 1);
      if s.owner != who || s.id != transfer {
        reply := Refuse();
        return;
      }
      if Get32(frame, 5) != s.got {
        return OkNow(transfer);
      }
      var e := FeedBytes(frame[9..], port);
      if e != None {
        ResetAll();
        return ErrReply(e.value);
      }
      reply := OkNow(transfer);
    }

    method DoCommit(who: Owner, frame: seq<byte>, port: Port) returns (reply: seq<byte>)
      requires Valid()
      modifies this, staging, staging.flash, staging.wbuf
      ensures Valid() && Answer(view, reply) == DfuProtocol.DoCommit(old(view), who, frame, port)
    {
      hide DfuProtocol.CommitNow, Get32, OkReply, ErrReply, Receiver.Buffered, Receiver.OnFlash;
      if |frame| != 5 {
        return ErrReply(Malformed);
      }
      var transfer := Get32(frame, 1);
      if s.owner != who || s.id != transfer {
        reply := Refuse();
        return;
      }
      var e := CommitNow(port);
      if e != None {
        ResetAll();
        return ErrReply(e.value);
      }
      reply := OkNow(transfer);
    }

    /** Clears the staging area and the transfer with it. */
    method EraseAll()
      requires Valid()
      modifies this, staging, staging.flash
      ensures Valid() && view == DfuProtocol.ResetAll(old(view).(committed := None))
    {
      staging.Erase();
      view := view.(committed := None);
      ResetAll();
    }

    method DoAbort(who: Owner, frame: seq<byte>, port: Port) returns (reply: seq<byte>)
      requires Valid()
      modifies this, staging, staging.flash
      ensures Valid() && Answer(view, reply) == DfuProtocol.DoAbort(old(view), who, frame, port)
    {
      hide Get32, OkReply, ErrReply, Receiver.Buffered, Receiver.OnFlash;
      if |frame| != 5 || s.owner != who || s.id != Get32(frame, 1) {
        return ErrReply(Sequence);
      }
      if !port.opens || !port.erases {
        return ErrReply(Flash);
      }
      var transfer := s.id;
      EraseAll();
      reply := OkNow(transfer);
    }

    /** One request frame from one owner, exactly as the state machine answers it. */
    method RxFrame(who: Owner, frame: seq<byte>, port: Port) returns (reply: seq<byte>)
      requires Valid()
      modifies this, head, staging, staging.flash, staging.wbuf
      ensures Valid() && Answer(view, reply) == DfuProtocol.RxFrame(old(view), who, frame, port)
    {
      hide DfuProtocol.DoBegin, DfuProtocol.DoData, DfuProtocol.DoCommit, DfuProtocol.DoAbort;
      hide Receiver.Buffered, Receiver.OnFlash;
      if |frame| < 1 {
        return ErrReply(Malformed);
      }
      if !open {
        return ErrReply(Closed);
      }
      if frame[0] == OP_BEGIN {
        reply := DoBegin(who, frame, port);
      } else if frame[0] == OP_DATA {
        reply := DoData(who, frame, port);
      } else if frame[0] == OP_COMMIT {
        reply := DoCommit(who, frame, port);
      } else if frame[0] == OP_ABORT {
        reply := DoAbort(who, frame, port);
      } else {
        reply := ErrReply(Malformed);
      }
    }

    /** The outcome of an upload request, apart from the state it leaves. */
    ghost predicate Uploaded(u: Upload, before: Rx, code: UploadCode)
      reads this
    {
      match u
      case Accepted(rx, next) => view == rx && code == Next(next)
      case Denied => view == before && code == AccessDenied
      case InUse => view == before && code == BadState
      case Invalid(rx) => view == rx && code == BadState
    }

    method RefuseUpload() returns (code: UploadCode)
      requires Resettable()
      requires s.owner != Smp ==> Valid()
      modifies this, staging
      ensures Valid() && Uploaded(DfuProtocol.RefuseUpload(old(view)), old(view), code)
    {
      hide Receiver.Buffered, Receiver.OnFlash;
      if s.owner == Smp {
        ResetAll();
      } else {
        cli := START;
        view := view.(file := [], skip := 0, inner := 0);
      }
      code := BadState;
    }

    /** Commits once the last patch byte has arrived. */
    method Finish(port: Port) returns (code: UploadCode)
      requires Valid() && s.owner == Smp
      modifies this, staging, staging.flash, staging.wbuf
      ensures Valid() && Uploaded(DfuProtocol.FinishChunk(old(view), port), old(view), code)
    {
      hide DfuProtocol.CommitNow, Receiver.Buffered, Receiver.OnFlash;
      if s.active && s.got == cli.inner {
        CommitShape(view, port);
        var e := CommitNow(port);
        if e != None {
          code := RefuseUpload();
          return;
        }
      }
      code := Next(cli.off);
    }

    method TakeChunk(data: seq<byte>, port: Port) returns (code: UploadCode)
      requires Valid() && s.owner == Smp && cli.off + |data| < 0x1_0000_0000
      modifies this, head, staging, staging.flash, staging.wbuf
      ensures Valid() && Uploaded(DfuProtocol.TakeChunk(old(view), data, port), old(view), code)
    {
      hide DfuProtocol.FeedBytes, DfuProtocol.FinishChunk, Receiver.Buffered, Receiver.OnFlash;
      var drop := if cli.off < cli.skip then Min(|data|, cli.skip - cli.off) else 0;
      var left := if s.got < cli.inner then cli.inner - s.got else 0;
      var part := data[drop..drop + Min(|data| - drop, left)];
      assert part == PatchPart(view, data);
      if part != [] {
        FeedShape(view, part, port);
        var e := FeedBytes(part, port);
        if e != None {
          code := RefuseUpload();
          return;
        }
      }
      cli := cli.(off := cli.off + |data|);
      view := view.(file := view.file + data);
      code := Finish(port);
    }

    /** One chunk of an image upload, exactly as the state machine answers it. */
    method RxUpload(off: u32, size: u32, data: seq<byte>, port: Port) returns (code: UploadCode)
      requires Valid() && NoWrap(view, off, data)
      modifies this, head, staging, staging.flash, staging.wbuf
      ensures Valid() && Uploaded(DfuProtocol.RxUpload(old(view), off, size, data, port), old(view), code)
    {
      hide DfuProtocol.TakeChunk, DfuProtocol.BeginAt, Measure, Receiver.Buffered, Receiver.OnFlash;
      if !open {
        return AccessDenied;
      }
      if s.owner != Nobody && s.owner != Smp {
        return BadState;
      }
      if off == 0 && s.owner == Smp && cli.off > 0 {
        return Next(cli.off);
      }
      if off == 0 {
        var g := Measure(data, size);
        if g.BadWrapper? {
          cli := cli.(skip := 0, inner := size);
          view := view.(skip := 0, inner := size);
          code := RefuseUpload();
          return;
        }
        cli := cli.(skip := g.skip, inner := g.inner);
        view := view.(skip := g.skip, inner := g.inner);
        BegunBySmp(view, g.inner, port);
        var e := BeginAt(Smp, 1, g.inner, port);
        if e != None {
          code := RefuseUpload();
          return;
        }
        cli := cli.(off := 0);
        view := view.(file := []);
      } else if off != cli.off {
        return Next(cli.off);
      }
      code := TakeChunk(data, port);
    }

    /** Closing the window drops the transfer; opening it only opens it. */
    method SetWindow(wide: bool)
      requires Valid()
      modifies this, staging
      ensures Valid()
      ensures view == if wide then old(view).(open := true) else DfuProtocol.ResetAll(old(view)).(open := false)
    {
      open := wide;
      view := view.(open := wide);
      if !wide {
        ResetAll();
      }
    }
  }

  lemma BegunBySmp(rx: Rx, inner: u32, port: Port)
    ensures DfuProtocol.BeginAt(rx, Smp, 1, inner, port).Done? ==>
              DfuProtocol.BeginAt(rx, Smp, 1, inner, port).rx.owner == Smp
    ensures DfuProtocol.BeginAt(rx, Smp, 1, inner, port).Refused? ==>
              DfuProtocol.BeginAt(rx, Smp, 1, inner, port).rx == rx
  {
  }

  /** The refusals that touch nothing. */
  lemma NotFed(rx: Rx, p: seq<byte>, port: Port)
    ensures !rx.active ==> DfuProtocol.FeedBytes(rx, p, port) == Refused(rx, Sequence)
    ensures rx.active && |rx.wire| + |p| > rx.total ==> DfuProtocol.FeedBytes(rx, p, port) == Refused(rx, Size)
  {
  }

  /** A frame that straddles the end of the preamble is the preamble's part, then the patch's. */
  lemma FeedSplit(rx: Rx, p: seq<byte>, take: nat, port: Port)
    requires rx.active && |rx.wire| < HEAD_LEN && |rx.wire| + |p| <= rx.total
    requires take <= |p| && (take == |p| || |rx.wire| + take == HEAD_LEN)
    ensures var f, whole := DfuProtocol.FeedBytes(rx, p[..take], port), DfuProtocol.FeedBytes(rx, p, port);
            if f.Refused? || take == |p| then whole == f
            else
              var g := DfuProtocol.FeedBytes(f.rx, p[take..], port);
              if g.Done? then whole == g
              else whole.Refused? && whole.error == g.error && SameAfterReset(whole.rx, g.rx)
    ensures var f := DfuProtocol.FeedBytes(rx, p[..take], port);
            f.Done? ==> f.rx.active && |f.rx.wire| == |rx.wire| + take && f.rx.total == rx.total
  {
    if take == |p| {
      assert p[..take] == p;
    } else {
      assert rx.wire + p == rx.wire + p[..take] + p[take..];
    }
  }

  lemma SameFields(hdr: seq<byte>, wire: seq<byte>)
    requires |wire| >= HEAD_LEN && hdr == wire[..HEAD_LEN]
    ensures Get32(hdr, 0) == Get32(wire, 0) && Get32(hdr, 8) == Get32(wire, 8)
    ensures Get32(hdr, 16) == Get32(wire, 16) && Get32(hdr, 28) == Get32(wire, 28)
    ensures Get16(hdr, 4) == Get16(wire, 4) && hdr[..28] == wire[..28]
  {
  }

  lemma HeadStep(rx: Rx, p: seq<byte>, port: Port)
    requires rx.active && |rx.wire| < HEAD_LEN && |rx.wire| + |p| <= HEAD_LEN < rx.total
    ensures DfuProtocol.FeedBytes(rx, p, port)
         == if |rx.wire| + |p| < HEAD_LEN then Done(rx.(wire := rx.wire + p))
            else if !port.authentic then Refused(rx, Auth)
            else if !port.erases then Refused(rx, Flash)
            else Done(rx.(wire := rx.wire + p, erased := true, committed := None))
    ensures PatchOf(rx.wire + p) == PatchOf(rx.wire) == []
  {
  }

  lemma PatchStep(rx: Rx, p: seq<byte>, port: Port)
    requires rx.active && |rx.wire| >= HEAD_LEN && |rx.wire| + |p| <= rx.total
    ensures var before := PatchOf(rx.wire);
            && PatchOf(rx.wire + p) == before + p
            && DfuProtocol.FeedBytes(rx, p, port)
            == if port.writes || (|before| + |p|) / WBUF_SZ == |before| / WBUF_SZ then Done(rx.(wire := rx.wire + p))
               else Refused(rx, Flash)
    ensures (rx.wire + p)[..HEAD_LEN] == rx.wire[..HEAD_LEN]
  {
    MoreBlocks(|rx.wire| - HEAD_LEN, |rx.wire| - HEAD_LEN + |p|);
  }

  lemma EmptyCrc()
    ensures Crc32.Update(Zeros(32), []) == Zeros(32)
  {
    Crc32.NotNot(Zeros(32));
  }
}
