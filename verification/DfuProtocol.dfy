/**
 The native update protocol, version 2: its frames, and the receiver as a state
 machine over them. The receiver's own buffers are the business of `DfuStaging`; here
 a transfer is the bytes it has received.
 */
module DfuProtocol {
  import opened Bits
  import opened Options
  import Crc32

  const OP_BEGIN: byte := 0x11
  const OP_DATA: byte := 0x12
  const OP_COMMIT: byte := 0x13
  const OP_ABORT: byte := 0x14
  const RSP_OK: byte := 0x81
  const RSP_ERR: byte := 0x82

  datatype Error = Closed | Sequence | Size | Auth | Integrity | Flash | Malformed | Busy

  function Code(e: Error): byte {
    match e
    case Closed => 1
    case Sequence => 2
    case Size => 3
    case Auth => 4
    case Integrity => 5
    case Flash => 6
    case Malformed => 7
    case Busy => 8
  }

  const HDR_LEN: nat := 32
  const HEAD_LEN: nat := 96
  const WBUF_SZ: nat := 64
  const MAGIC: nat := 0x55464457
  const ABI_VERSION: nat := 1

  // ----- little-endian fields

  type u32 = n: int | 0 <= n < 0x1_0000_0000

  function Le32(n: u32): (r: seq<byte>)
    ensures |r| == 4
  {
    var a: int := n / 0x100;
    var b: int := a / 0x100;
    [n % 0x100, a % 0x100, b % 0x100, b / 0x100]
  }

  function Get32(s: seq<byte>, at: nat): u32
    requires at + 4 <= |s|
  {
    s[at] as int + 0x100 * (s[at + 1] as int) + 0x1_0000 * (s[at + 2] as int) + 0x100_0000 * (s[at + 3] as int)
  }

  function Get16(s: seq<byte>, at: nat): word
    requires at + 2 <= |s|
  {
    s[at] as int + 0x100 * (s[at + 1] as int)
  }

  lemma Le32Inverse(n: u32)
    ensures Get32(Le32(n), 0) == n
  {
  }

  lemma Get32Within(a: seq<byte>, n: u32, b: seq<byte>)
    ensures Get32(a + Le32(n) + b, |a|) == n
  {
    var s := a + Le32(n) + b;
    assert s[|a|] == Le32(n)[0] && s[|a| + 1] == Le32(n)[1] && s[|a| + 2] == Le32(n)[2] && s[|a| + 3] == Le32(n)[3];
    Le32Inverse(n);
  }

  function BeginFrame(id: u32, total: u32): seq<byte> {
    [OP_BEGIN] + Le32(id) + Le32(total)
  }

  function DataFrame(id: u32, offset: u32, payload: seq<byte>): seq<byte> {
    [OP_DATA] + Le32(id) + Le32(offset) + payload
  }

  function CommitFrame(id: u32): seq<byte> {
    [OP_COMMIT] + Le32(id)
  }

  function OkReply(id: u32, next: u32): seq<byte> {
    [RSP_OK] + Le32(id) + Le32(next)
  }

  function ErrReply(e: Error): seq<byte> {
    [RSP_ERR, Code(e)]
  }

  // ----- the receiver

  datatype Owner = Nobody | L2cap | Gatt | Smp

  /** A transfer whose header has been written to flash. */
  datatype Commit = Commit(owner: Owner, id: u32, wire: seq<byte>)

  /**
   `room` is the space for patch bytes. `wire` is what this transfer has received;
   `file`, `skip` and `inner` are the image-upload cursor and the geometry of a wrapped
   file. `committed` is what the staging area holds for the bootloader.
   */
  datatype Rx = Rx(
    open: bool, room: nat,
    owner: Owner, id: u32, total: u32, wire: seq<byte>, active: bool, erased: bool, staged: bool,
    file: seq<byte>, skip: nat, inner: u32,
    committed: Option<Commit>)

  /** What the hardware and the signature check answer while one request is handled. */
  datatype Port = Port(opens: bool, authentic: bool, erases: bool, writes: bool, accepts: bool)

  predicate Fits(rx: Rx) {
    |rx.wire| < 0x1_0000_0000 && |rx.file| < 0x1_0000_0000
  }

  /** Nothing received and nobody's; what is already staged for the bootloader stays. */
  function ResetState(rx: Rx): Rx {
    rx.(owner := Nobody, id := 0, total := 0, wire := [], active := false, erased := false, staged := false)
  }

  function ResetAll(rx: Rx): Rx {
    ResetState(rx).(file := [], skip := 0, inner := 0)
  }

  datatype Outcome = Done(rx: Rx) | Refused(rx: Rx, error: Error)

  function BeginAt(rx: Rx, owner: Owner, id: u32, total: u32, port: Port): Outcome {
    if owner == Nobody || id == 0 then Refused(rx, Malformed)
    else if rx.owner != Nobody then
      if rx.owner == owner && rx.id == id && rx.total == total then Done(rx) else Refused(rx, Busy)
    else if !port.opens then Refused(rx, Flash)
    else if total <= HEAD_LEN || total - HEAD_LEN > rx.room then Refused(rx, Size)
    else Done(ResetState(rx).(active := true, owner := owner, id := id, total := total))
  }

  /** Does appending take the write buffer past a full block? */
  predicate Flushes(before: nat, after: nat) {
    after > HEAD_LEN && (after - HEAD_LEN) / WBUF_SZ > (if before > HEAD_LEN then (before - HEAD_LEN) / WBUF_SZ else 0)
  }

  function FeedBytes(rx: Rx, p: seq<byte>, port: Port): Outcome {
    var after := |rx.wire| + |p|;
    if !rx.active then Refused(rx, Sequence)
    else if after > rx.total then Refused(rx, Size)
    else
      var heads := |rx.wire| < HEAD_LEN <= after;
      if heads && !port.authentic then Refused(rx, Auth)
      else if heads && !port.erases then Refused(rx, Flash)
      else
        var r := if heads then rx.(erased := true, committed := None) else rx;
        if Flushes(|rx.wire|, after) && !port.writes then Refused(r, Flash)
        else Done(r.(wire := rx.wire + p))
  }

  /** Feeding moves the transfer on by `p` or not at all, and never stages anything. */
  lemma FeedShape(rx: Rx, p: seq<byte>, port: Port)
    ensures var r := FeedBytes(rx, p, port).rx;
            && r == rx.(wire := r.wire, erased := r.erased, committed := r.committed)
            && (r.committed == rx.committed || r.committed == None)
    ensures var f := FeedBytes(rx, p, port);
            f.Done? ==> rx.active && f.rx.wire == rx.wire + p && |f.rx.wire| <= rx.total
    ensures var f := FeedBytes(rx, p, port);
            f.Refused? ==> f.rx.wire == rx.wire
  {
    hide Flushes;
  }

  /** The staged bytes agree with the header they arrived with. */
  predicate HeaderMatches(wire: seq<byte>, total: nat) {
    && |wire| >= HEAD_LEN
    && Get32(wire, 0) == MAGIC
    && Get16(wire, 4) == ABI_VERSION
    && Get32(wire, 28) == Crc32.Sum(wire[..28])
    && Get32(wire, 8) == total - HEAD_LEN
    && Get32(wire, 16) == Crc32.Sum(wire[HEAD_LEN..])
  }

  function CommitNow(rx: Rx, port: Port): Outcome {
    if rx.staged then Done(rx)
    else if !rx.active || !rx.erased || |rx.wire| != rx.total then Refused(rx, Sequence)
    else if (rx.total - HEAD_LEN) % WBUF_SZ != 0 && !port.writes then Refused(rx, Flash)
    else if !HeaderMatches(rx.wire, rx.total) then Refused(rx, Integrity)
    else if !port.writes then Refused(rx, Flash)
    else
      var r := rx.(committed := Some(Commit(rx.owner, rx.id, rx.wire)));
      if !port.accepts then Refused(r, Flash)
      else Done(r.(active := false, staged := true))
  }

  /** Only a complete transfer is ever written for the bootloader, and as it arrived. */
  lemma CommitShape(rx: Rx, port: Port)
    ensures var r := CommitNow(rx, port).rx;
            && r == rx.(active := r.active, staged := r.staged, committed := r.committed)
            && (r.committed == rx.committed
                || (r.committed == Some(Commit(rx.owner, rx.id, rx.wire)) && |rx.wire| == rx.total))
            && (r.staged ==> rx.staged || |rx.wire| == rx.total)
  {
    hide HeaderMatches;
  }

  datatype Answer = Answer(rx: Rx, reply: seq<byte>)

  function Err(rx: Rx, e: Error): Answer {
    Answer(rx, ErrReply(e))
  }

  function Ok(rx: Rx, id: u32): Answer
    requires |rx.wire| < 0x1_0000_0000
  {
    Answer(rx, OkReply(id, |rx.wire|))
  }

  /** A frame that names a transfer the receiver is not carrying for this owner. */
  function NotYours(rx: Rx): Answer {
    Err(rx, if rx.owner == Nobody then Sequence else Busy)
  }

  function DoBegin(rx: Rx, owner: Owner, frame: seq<byte>, port: Port): Answer
    requires Fits(rx)
  {
    if |frame| != 9 then Err(rx, Malformed)
    else
      var id := Get32(frame, 1);
      match BeginAt(rx, owner, id, Get32(frame, 5), port)
      case Done(r) => Ok(r, id)
      case Refused(r, e) => Err(r, e)
  }

  function DoData(rx: Rx, owner: Owner, frame: seq<byte>, port: Port): Answer
    requires Fits(rx)
  {
    if |frame| < 9 then Err(rx, Malformed)
    else
      var id := Get32(frame, 1);
      if rx.owner != owner || rx.id != id then NotYours(rx)
      else if Get32(frame, 5) != |rx.wire| then Ok(rx, id)
      else
        match FeedBytes(rx, frame[9..], port)
        case Done(r) => Ok(r, id)
        case Refused(r, e) => Err(ResetAll(r), e)
  }

  function DoCommit(rx: Rx, owner: Owner, frame: seq<byte>, port: Port): Answer
    requires Fits(rx)
  {
    if |frame| != 5 then Err(rx, Malformed)
    else
      var id := Get32(frame, 1);
      if rx.owner != owner || rx.id != id then NotYours(rx)
      else
        match CommitNow(rx, port)
        case Done(r) => Ok(r, id)
        case Refused(r, e) => Err(ResetAll(r), e)
  }

  function DoAbort(rx: Rx, owner: Owner, frame: seq<byte>, port: Port): Answer
    requires Fits(rx)
  {
    if |frame| != 5 || rx.owner != owner || rx.id != Get32(frame, 1) then Err(rx, Sequence)
    else if !port.opens || !port.erases then Err(rx, Flash)
    else Ok(ResetAll(rx.(committed := None)), rx.id)
  }

  /** One request frame from one owner. */
  function RxFrame(rx: Rx, owner: Owner, frame: seq<byte>, port: Port): (a: Answer)
    requires Fits(rx)
    ensures Fits(a.rx)
  {
    if |frame| < 1 then Err(rx, Malformed)
    else if !rx.open then Err(rx, Closed)
    else if frame[0] == OP_BEGIN then DoBegin(rx, owner, frame, port)
    else if frame[0] == OP_DATA then DoData(rx, owner, frame, port)
    else if frame[0] == OP_COMMIT then DoCommit(rx, owner, frame, port)
    else if frame[0] == OP_ABORT then DoAbort(rx, owner, frame, port)
    else Err(rx, Malformed)
  }

  // ----- image upload into the same receiver

  const MCUBOOT_MAGIC: nat := 0x96f3b83d
  const MCUBOOT_HDR_MIN: nat := 16

  datatype Upload = Accepted(rx: Rx, next: u32) | Denied | InUse | Invalid(rx: Rx)

  /** Where the patch lies in a file: all of it, or inside an MCUboot image's wrapper. */
  datatype Geometry = Geometry(skip: nat, inner: u32) | BadWrapper

  function Measure(data: seq<byte>, total: u32): Geometry {
    if |data| >= MCUBOOT_HDR_MIN && Get32(data, 0) == MCUBOOT_MAGIC then
      var hdr, img := Get16(data, 8), Get32(data, 12);
      if hdr < MCUBOOT_HDR_MIN || img == 0 || hdr > total || img > total - hdr then BadWrapper
      else Geometry(hdr, img)
    else Geometry(0, total)
  }

  function Min(a: int, b: int): int {
    if a < b then a else b
  }

  function RefuseUpload(rx: Rx): Upload {
    Invalid(if rx.owner == Smp then ResetAll(rx) else rx.(file := [], skip := 0, inner := 0))
  }

  /** The patch bytes in `data`, which continues the file at the cursor. */
  function PatchPart(rx: Rx, data: seq<byte>): seq<byte> {
    var drop := if |rx.file| < rx.skip then Min(|data|, rx.skip - |rx.file|) else 0;
    var left := if |rx.wire| < rx.inner then rx.inner - |rx.wire| else 0;
    data[drop..drop + Min(|data| - drop, left)]
  }

  /** The last patch byte stages the header; the host asks for the restart itself. */
  function FinishChunk(rx: Rx, port: Port): (u: Upload)
    requires |rx.file| < 0x1_0000_0000
    ensures u.Accepted? || u.Invalid?
  {
    if rx.active && |rx.wire| == rx.inner then
      var c := CommitNow(rx, port);
      if c.Refused? then RefuseUpload(c.rx) else Accepted(c.rx, |rx.file|)
    else Accepted(rx, |rx.file|)
  }

  /** A chunk at the cursor: the wrapper's header is dropped, the patch fed, the trailer acknowledged. */
  function TakeChunk(rx: Rx, data: seq<byte>, port: Port): (u: Upload)
    requires |rx.file| + |data| < 0x1_0000_0000
    ensures u.Accepted? || u.Invalid?
  {
    var part := PatchPart(rx, data);
    var fed := if part == [] then Done(rx) else FeedBytes(rx, part, port);
    if fed.Refused? then RefuseUpload(fed.rx)
    else
      FinishChunk(fed.rx.(file := rx.file + data), port)
  }

  /** The receiver after an upload request. */
  function UploadState(rx: Rx, u: Upload): Rx {
    if u.Accepted? || u.Invalid? then u.rx else rx
  }

  /** The upload cursor, thirty-two bits wide, is not taken past its end. */
  predicate NoWrap(rx: Rx, off: u32, data: seq<byte>) {
    off == 0 || off == |rx.file| ==> off + |data| < 0x1_0000_0000
  }

  function RxUpload(rx: Rx, off: u32, total: u32, data: seq<byte>, port: Port): Upload
    requires Fits(rx) && NoWrap(rx, off, data)
  {
    if !rx.open then Denied
    else if rx.owner != Nobody && rx.owner != Smp then InUse
    else if off == 0 && rx.owner == Smp && rx.file != [] then Accepted(rx, |rx.file|)
    else if off == 0 then
      match Measure(data, total)
      case BadWrapper => RefuseUpload(rx.(skip := 0, inner := total))
      case Geometry(skip, inner) =>
        var b := BeginAt(rx.(skip := skip, inner := inner), Smp, 1, inner, port);
        if b.Refused? then RefuseUpload(b.rx) else TakeChunk(b.rx.(file := []), data, port)
    else if off != |rx.file| then Accepted(rx, |rx.file|)
    else TakeChunk(rx, data, port)
  }
}
