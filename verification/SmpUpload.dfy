/**
 An image upload over SMP: the client's loop over its own offset, against the receiver's
 cursor, with whatever else happens to the receiver between requests. There is no
 transfer id here, so the client is the only one uploading.
 */
module SmpUpload {
  import opened Bits
  import opened Options
  import opened Seqs
  import opened DfuProtocol

  /** `Failed` is every error the loop throws. */
  datatype Phase = Sending | Finished | Failed

  datatype Client = Client(blob: seq<byte>, chunk: nat, off: nat, phase: Phase)

  predicate Sendable(tx: Client) {
    0 < |tx.blob| < 0x1_0000_0000 && tx.chunk > 0 && (tx.phase == Sending ==> tx.off < |tx.blob|)
  }

  /** The bytes one request carries. */
  function Data(tx: Client): seq<byte>
    requires Sendable(tx) && tx.phase == Sending
  {
    tx.blob[tx.off..Min(tx.off + tx.chunk, |tx.blob|)]
  }

  /** The length goes out with the first chunk only. */
  function Total(tx: Client): u32
    requires Sendable(tx)
  {
    if tx.off == 0 then |tx.blob| else 0
  }

  /** What a request comes back with: an offset, a closed window, or anything the loop throws on. */
  datatype Heard = Next(off: nat) | Shut | Bad

  function HeardOf(u: Upload): Heard {
    match u
    case Accepted(_, next) => Next(next)
    case Denied => Shut
    case _ => Bad
  }

  /** What the client makes of it; a closed window is only a reason to ask again. */
  function OnHeard(tx: Client, h: Heard): Client {
    match h
    case Next(next) =>
      if next == tx.off then tx.(phase := Failed)
      else tx.(off := next, phase := if next >= |tx.blob| then Finished else Sending)
    case Shut => tx
    case Bad => tx.(phase := Failed)
  }

  /** `atEnd` is the receiver as it was when the client's loop ended. */
  datatype Sys = Sys(tx: Client, rx: Rx, atEnd: Option<Rx>)

  datatype Event =
    | Request(port: Port, heard: bool)
    | GiveUp
    | Native(owner: Owner, frame: seq<byte>, port: Port)
    | Window(open: bool)
    | Release(owner: Owner)
    | Erase(port: Port)

  function Step(sys: Sys, ev: Event): Sys
    requires Sendable(sys.tx) && Fits(sys.rx)
  {
    var tx, rx := sys.tx, sys.rx;
    match ev
    case Request(port, heard) =>
      if tx.phase != Sending then sys
      else
        var u := RxUpload(rx, tx.off, Total(tx), Data(tx), port);
        var tx' := OnHeard(tx, if heard then HeardOf(u) else Bad);
        Sys(tx', UploadState(rx, u), if tx'.phase == Finished then Some(u.rx) else sys.atEnd)
    case GiveUp => if tx.phase == Sending then sys.(tx := tx.(phase := Failed)) else sys
    case Native(owner, frame, port) =>
      if owner == Smp then sys else sys.(rx := RxFrame(rx, owner, frame, port).rx)
    case Window(open) => sys.(rx := if open then rx.(open := true) else ResetAll(rx).(open := false))
    case Release(owner) => if owner == Nobody || rx.owner != owner then sys else sys.(rx := ResetAll(rx))
    case Erase(port) =>
      if !rx.open || (rx.owner != Nobody && rx.owner != Smp) || !port.opens || !port.erases then sys
      else sys.(rx := ResetAll(rx.(committed := None)))
  }

  // ----- the receiver's side of an upload

  /** The patch inside the part of a file that has arrived. */
  function Payload(file: seq<byte>, skip: nat, inner: nat): seq<byte> {
    if |file| <= skip then [] else file[skip..Min(|file|, skip + inner)]
  }

  /** An upload in progress has taken exactly the payload of what arrived, and commits it when it is all there. */
  predicate SmpOk(rx: Rx) {
    && Fits(rx)
    && (rx.owner != Smp ==> rx.file == [])
    && (rx.owner == Smp ==>
          && rx.id == 1 && rx.total == rx.inner > HEAD_LEN
          && rx.wire == Payload(rx.file, rx.skip, rx.inner)
          && (rx.active <==> |rx.wire| < rx.inner)
          && (rx.staged <==> |rx.wire| == rx.inner)
          && (rx.staged ==> rx.committed == Some(Commit(Smp, 1, rx.wire))))
  }

  /** The part of a stretch that `data` adds, behind a file of length `n`. */
  lemma SliceMore(file: seq<byte>, data: seq<byte>, from: nat, to: nat)
    requires from <= to <= |file| + |data|
    ensures |file| <= from ==> (file + data)[from..to] == data[from - |file|..to - |file|]
    ensures to <= |file| ==> (file + data)[from..to] == file[from..to]
    ensures from <= |file| <= to ==> (file + data)[from..to] == file[from..] + data[..to - |file|]
  {
  }

  lemma PayloadMore(rx: Rx, data: seq<byte>)
    requires rx.wire == Payload(rx.file, rx.skip, rx.inner)
    ensures Payload(rx.file + data, rx.skip, rx.inner) == rx.wire + PatchPart(rx, data)
  {
    var n, end := |rx.file| + |data|, Min(|rx.file| + |data|, rx.skip + rx.inner);
    if n > rx.skip {
      SliceMore(rx.file, data, rx.skip, end);
      if |rx.file| >= rx.skip + rx.inner {
        assert PatchPart(rx, data) == [];
      }
    } else {
      assert PatchPart(rx, data) == [];
    }
  }

  lemma TakeOk(rx: Rx, data: seq<byte>, port: Port)
    requires Fits(rx) && rx.owner == Smp && rx.id == 1 && rx.total == rx.inner > HEAD_LEN
    requires rx.wire == Payload(rx.file, rx.skip, rx.inner)
    requires (rx.active <==> |rx.wire| < rx.inner) && (rx.staged <==> |rx.wire| == rx.inner)
    requires rx.staged ==> rx.committed == Some(Commit(Smp, 1, rx.wire))
    requires |rx.file| + |data| < 0x1_0000_0000
    ensures var u := TakeChunk(rx, data, port);
            && SmpOk(u.rx)
            && (u.Accepted? ==> u.rx.owner == Smp && u.rx.file == rx.file + data && u.next == |u.rx.file|
                                && u.rx.skip == rx.skip && u.rx.inner == rx.inner)
            && (u.Invalid? ==> u.rx.file == [] && u.rx.owner == Nobody)
  {
    hide FeedBytes, PatchPart, Payload, HeaderMatches;
    var part := PatchPart(rx, data);
    PayloadMore(rx, data);
    PayloadShort(rx.file, rx.skip, rx.inner);
    PayloadShort(rx.file + data, rx.skip, rx.inner);
    FeedShape(rx, part, port);
    Empty(rx.wire);
  }

  lemma PayloadShort(file: seq<byte>, skip: nat, inner: nat)
    ensures |Payload(file, skip, inner)| <= inner
  {
  }

  lemma PayloadEmpty(skip: nat, inner: nat)
    ensures Payload([], skip, inner) == []
  {
  }

  /** What one upload request can do, with the geometry `g` if it is the one that starts the upload. */
  predicate Uploads(rx: Rx, off: u32, data: seq<byte>, g: Geometry, u: Upload) {
    && SmpOk(UploadState(rx, u))
    && match u
       case Accepted(r, next) =>
         && next == |r.file|
         && (r == rx
             || (&& r.file == rx.file + data && off == |rx.file| && r.owner == Smp
                 && if off == 0 then Geometry(r.skip, r.inner) == g else r.skip == rx.skip && r.inner == rx.inner))
       case Invalid(r) => r.file == [] && r.owner != Smp
       case _ => true
  }

  lemma StartOk(rx: Rx, total: u32, data: seq<byte>, port: Port)
    requires SmpOk(rx) && rx.file == [] && |data| < 0x1_0000_0000
    ensures Uploads(rx, 0, data, Measure(data, total), RxUpload(rx, 0, total, data, port))
  {
    hide TakeChunk, Payload;
    var g := Measure(data, total);
    if g.Geometry? {
      var b := BeginAt(rx.(skip := g.skip, inner := g.inner), Smp, 1, g.inner, port);
      if b.Done? {
        PayloadEmpty(g.skip, g.inner);
        PayloadEmpty(rx.skip, rx.inner);
        TakeOk(b.rx.(file := []), data, port);
        Empty(data);
      }
    }
  }

  /** The cursor reported is honest, and the file grows only by data sent for where it ends. */
  lemma UploadOk(rx: Rx, off: u32, total: u32, data: seq<byte>, port: Port)
    requires SmpOk(rx) && NoWrap(rx, off, data)
    ensures Uploads(rx, off, data, Measure(data, total), RxUpload(rx, off, total, data, port))
  {
    hide TakeChunk, Payload, Measure, BeginAt;
    if off == 0 && rx.file == [] {
      StartOk(rx, total, data, port);
    } else if off == |rx.file| {
      PayloadShort(rx.file, rx.skip, rx.inner);
      TakeOk(rx, data, port);
    }
  }

  // ----- runs

  /** Where the patch lies in this client's file, as the receiver will measure it. */
  function Layout(tx: Client): Geometry
    requires Sendable(tx)
  {
    Measure(tx.blob[..Min(tx.chunk, |tx.blob|)], |tx.blob|)
  }

  /** The receiver's copy is a prefix of the blob, measured as the blob is. */
  predicate CopyOk(tx: Client, rx: Rx)
    requires Sendable(tx)
  {
    && SmpOk(rx) && rx.file <= tx.blob
    && (rx.file != [] ==> Geometry(rx.skip, rx.inner) == Layout(tx))
  }

  predicate Inv(sys: Sys) {
    && Sendable(sys.tx) && CopyOk(sys.tx, sys.rx)
    && (sys.tx.phase == Finished ==>
          sys.atEnd.Some? && CopyOk(sys.tx, sys.atEnd.value) && sys.atEnd.value.file == sys.tx.blob)
  }

  lemma RequestKeeps(sys: Sys, port: Port, heard: bool)
    requires Inv(sys)
    ensures Inv(Step(sys, Request(port, heard)))
  {
    var tx, rx := sys.tx, sys.rx;
    if tx.phase == Sending {
      FitsOf(rx);
      var u := RxUpload(rx, tx.off, Total(tx), Data(tx), port);
      UploadOk(rx, tx.off, Total(tx), Data(tx), port);
      CopyGrows(tx, rx, u);
      hide RxUpload, SmpOk, Uploads, Layout, Data;
    }
  }

  /** What one request leaves received is still the blob's, and a cursor at its end means all of it. */
  lemma CopyGrows(tx: Client, rx: Rx, u: Upload)
    requires Sendable(tx) && tx.phase == Sending && CopyOk(tx, rx)
    requires Uploads(rx, tx.off, Data(tx), Measure(Data(tx), Total(tx)), u)
    ensures CopyOk(tx, UploadState(rx, u))
    ensures u.Accepted? && u.next >= |tx.blob| ==> u.rx.file == tx.blob
  {
    hide SmpOk, Measure;
    PrefixGrows(tx.blob, rx.file, Min(tx.off + tx.chunk, |tx.blob|));
  }

  lemma PrefixGrows(blob: seq<byte>, file: seq<byte>, n: nat)
    requires file <= blob && n <= |blob|
    ensures |file| <= n ==> file + blob[|file|..n] == blob[..n] <= blob
  {
  }

  lemma FitsOf(rx: Rx)
    requires SmpOk(rx)
    ensures Fits(rx)
  {
  }

  /** The other transports cannot touch an upload, and leave no cursor behind. */
  lemma NativeKeeps(rx: Rx, owner: Owner, frame: seq<byte>, port: Port)
    requires SmpOk(rx) && owner != Smp
    ensures SmpKept(rx, RxFrame(rx, owner, frame, port).rx)
  {
    hide DoBegin, DoData, DoCommit, DoAbort, Payload;
    NativeBegin(rx, owner, frame, port);
    NativeData(rx, owner, frame, port);
    NativeEnd(rx, owner, frame, port);
  }

  /** An upload is left alone, and nobody else has a cursor. */
  predicate SmpKept(rx: Rx, rx': Rx) {
    SmpOk(rx') && (rx'.owner == Smp ==> rx' == rx) && (rx'.owner != Smp ==> rx'.file == [])
  }

  lemma NativeBegin(rx: Rx, owner: Owner, frame: seq<byte>, port: Port)
    requires SmpOk(rx) && owner != Smp
    ensures SmpKept(rx, DoBegin(rx, owner, frame, port).rx)
  {
    hide Get32, OkReply, Payload;
  }

  lemma NativeData(rx: Rx, owner: Owner, frame: seq<byte>, port: Port)
    requires SmpOk(rx) && owner != Smp
    ensures SmpKept(rx, DoData(rx, owner, frame, port).rx)
  {
    hide FeedBytes, Get32, OkReply, Payload;
    if |frame| >= 9 {
      FeedShape(rx, frame[9..], port);
    }
  }

  lemma NativeEnd(rx: Rx, owner: Owner, frame: seq<byte>, port: Port)
    requires SmpOk(rx) && owner != Smp
    ensures SmpKept(rx, DoCommit(rx, owner, frame, port).rx)
    ensures SmpKept(rx, DoAbort(rx, owner, frame, port).rx)
  {
    hide CommitNow, Get32, OkReply, Payload;
    CommitShape(rx, port);
  }

  lemma StepKeeps(sys: Sys, ev: Event)
    requires Inv(sys)
    ensures Inv(Step(sys, ev))
    ensures Step(sys, ev).tx.blob == sys.tx.blob && Step(sys, ev).tx.chunk == sys.tx.chunk
  {
    hide RxUpload, RxFrame, Payload;
    match ev {
      case Request(port, heard) => RequestKeeps(sys, port, heard);
      case Native(owner, frame, port) =>
        if owner != Smp {
          NativeKeeps(sys.rx, owner, frame, port);
        }
      case _ =>
    }
  }

  function Run(sys: Sys, evs: seq<Event>): (r: Sys)
    requires Inv(sys)
    ensures Inv(r) && r.tx.blob == sys.tx.blob && r.tx.chunk == sys.tx.chunk
    decreases evs
  {
    if evs == [] then sys
    else
      StepKeeps(sys, evs[0]);
      Run(Step(sys, evs[0]), evs[1..])
  }

  /**
   Started afresh, the upload can only finish with exactly the blob received, in whatever
   order windows shut, transports reset and replies got lost, and with exactly the patch
   inside it committed for the bootloader.
   */
  lemma FinishedMeansStaged(sys: Sys, evs: seq<Event>)
    requires Sendable(sys.tx) && sys.tx.phase == Sending
    requires SmpOk(sys.rx) && sys.rx.owner != Smp
    ensures var r := Run(sys, evs);
            r.tx.phase == Finished ==>
              && r.atEnd.Some? && r.atEnd.value.file == sys.tx.blob && r.atEnd.value.staged
              && var g := Layout(sys.tx);
              && g.Geometry? && g.skip + g.inner <= |sys.tx.blob|
              && r.atEnd.value.committed == Some(Commit(Smp, 1, sys.tx.blob[g.skip..g.skip + g.inner]))
  {
    var r := Run(sys, evs);
    if r.tx.phase == Finished {
      var e := r.atEnd.value;
      WholeCopy(sys.tx, e);
    }
  }

  /** A whole copy of the blob is staged, with its patch committed. */
  lemma WholeCopy(tx: Client, e: Rx)
    requires Sendable(tx) && CopyOk(tx, e) && e.file == tx.blob
    ensures var g := Layout(tx);
            && e.staged && g.Geometry? && g.skip + g.inner <= |tx.blob|
            && e.committed == Some(Commit(Smp, 1, tx.blob[g.skip..g.skip + g.inner]))
  {
    hide Payload;
    StagedStretch(e);
  }

  // ----- an upload that finds another one already in progress

  /** Requests with any outcome, and nothing that makes the receiver forget. */
  predicate Calm(evs: seq<Event>) {
    forall ev <- evs :: ev.Request? || ev == Window(true)
  }

  /** What is received in the end: the bytes held, and the blob's from there on. */
  function Spliced(held: seq<byte>, blob: seq<byte>): seq<byte> {
    if |held| < |blob| then held + blob[|held|..] else held
  }

  /** The receiver started with `held` and has since taken only the blob's bytes from there on. */
  predicate Continues(held: seq<byte>, blob: seq<byte>, file: seq<byte>) {
    file == held || (|held| <= |file| <= |blob| && file == held + blob[|held|..|file|])
  }

  /** An upload found in progress keeps the geometry it was begun with. */
  predicate SameUpload(base: Rx, rx: Rx) {
    base.file != [] ==> rx.owner == Smp && rx.skip == base.skip && rx.inner == base.inner
  }

  predicate Resumed(base: Rx, sys: Sys) {
    && Sendable(sys.tx)
    && (sys.tx.phase != Failed ==>
          SmpOk(sys.rx) && Continues(base.file, sys.tx.blob, sys.rx.file) && SameUpload(base, sys.rx))
    && Fits(sys.rx)
    && (sys.tx.phase == Finished ==>
          && sys.atEnd.Some? && SmpOk(sys.atEnd.value) && SameUpload(base, sys.atEnd.value)
          && Continues(base.file, sys.tx.blob, sys.atEnd.value.file)
          && |sys.atEnd.value.file| >= |sys.tx.blob|)
  }

  lemma ContinuesMore(held: seq<byte>, blob: seq<byte>, file: seq<byte>, n: nat)
    requires Continues(held, blob, file) && |file| <= n <= |blob|
    ensures Continues(held, blob, file + blob[|file|..n])
  {
    assert held + blob[|held|..|file|] + blob[|file|..n] == held + blob[|held|..n];
  }

  lemma CalmStep(base: Rx, sys: Sys, ev: Event)
    requires Resumed(base, sys) && (ev.Request? || ev == Window(true))
    ensures Resumed(base, Step(sys, ev)) && Step(sys, ev).tx.blob == sys.tx.blob
  {
    hide RxUpload, Payload;
    var tx, rx := sys.tx, sys.rx;
    if ev.Request? && tx.phase == Sending {
      UploadOk(rx, tx.off, Total(tx), Data(tx), ev.port);
      if tx.off == |rx.file| {
        ContinuesMore(base.file, tx.blob, rx.file, Min(tx.off + tx.chunk, |tx.blob|));
      }
    }
  }

  function CalmRun(base: Rx, sys: Sys, evs: seq<Event>): (r: Sys)
    requires Resumed(base, sys) && Calm(evs)
    ensures Resumed(base, r) && r.tx.blob == sys.tx.blob
    decreases evs
  {
    if evs == [] then sys
    else
      CalmStep(base, sys, evs[0]);
      CalmRun(base, Step(sys, evs[0]), evs[1..])
  }

  /** A client at its first request, and a receiver with whatever it holds of an earlier upload. */
  predicate Starts(sys: Sys) {
    Sendable(sys.tx) && sys.tx.phase == Sending && SmpOk(sys.rx)
  }

  /**
   There is no transfer id, so a client that starts while the receiver holds bytes of an
   earlier upload is sent on from there. What is received when it finishes is those bytes
   spliced with the blob, which is its own blob exactly if they were a prefix of it.
   */
  lemma ResumeIff(sys: Sys, evs: seq<Event>)
    requires Starts(sys) && Calm(evs)
    ensures var held, r := sys.rx.file, CalmRun(sys.rx, sys, evs);
            r.tx.phase == Finished ==>
              && r.atEnd.value.file == Spliced(held, sys.tx.blob)
              && (r.atEnd.value.file == sys.tx.blob <==> held <= sys.tx.blob)
  {
    var held, r := sys.rx.file, CalmRun(sys.rx, sys, evs);
    if r.tx.phase == Finished {
      ContinuesIff(held, sys.tx.blob, r.atEnd.value.file);
    }
  }

  lemma ContinuesIff(held: seq<byte>, blob: seq<byte>, file: seq<byte>)
    requires Continues(held, blob, file) && |file| >= |blob|
    ensures file == Spliced(held, blob)
    ensures file == blob <==> held <= blob
  {
    if file != held {
      assert |file| == |blob| && file[..|held|] == held && file[|held|..] == blob[|held|..];
      assert blob == blob[..|held|] + blob[|held|..];
    }
    if |held| == |blob| {
      assert blob[|held|..] == [];
    }
  }

  /** The stretch of what is received that the earlier upload's geometry names, if it is all there. */
  function Stretch(base: Rx, blob: seq<byte>): Option<seq<byte>> {
    var file := Spliced(base.file, blob);
    if base.skip + base.inner <= |file| then Some(file[base.skip..base.skip + base.inner]) else None
  }

  /**
   What such a client gets committed follows the earlier upload's geometry, not its own: its
   own patch is committed if and only if that geometry, laid over the bytes held and its
   blob, names exactly its patch.
   */
  lemma ResumeCommitsIff(sys: Sys, evs: seq<Event>)
    requires Starts(sys) && sys.rx.file != [] && Calm(evs)
    ensures var r, named := CalmRun(sys.rx, sys, evs), Stretch(sys.rx, sys.tx.blob);
            r.tx.phase == Finished ==>
              && (r.atEnd.value.staged <==> named.Some?)
              && (named.Some? ==> r.atEnd.value.committed == Some(Commit(Smp, 1, named.value)))
              && var g := Layout(sys.tx);
                 g.Geometry? && g.skip + g.inner <= |sys.tx.blob| ==>
                   (r.atEnd.value.staged && r.atEnd.value.committed == Some(Commit(Smp, 1, sys.tx.blob[g.skip..g.skip + g.inner]))
                    <==> named == Some(sys.tx.blob[g.skip..g.skip + g.inner]))
  {
    StartsResumed(sys);
    hide Layout, SmpOk, Spliced, Calm;
    var r := CalmRun(sys.rx, sys, evs);
    if r.tx.phase == Finished {
      ResumeIff(sys, evs);
      StagedStretch(r.atEnd.value);
    }
  }

  lemma StartsResumed(sys: Sys)
    requires Starts(sys)
    ensures Resumed(sys.rx, sys)
  {
  }

  /** What an upload has staged is the stretch its geometry names. */
  lemma StagedStretch(e: Rx)
    requires SmpOk(e) && e.owner == Smp
    ensures e.staged <==> e.skip + e.inner <= |e.file|
    ensures e.staged ==> e.committed == Some(Commit(Smp, 1, e.file[e.skip..e.skip + e.inner]))
  {
    PayloadFull(e.file, e.skip, e.inner);
  }

  lemma PayloadFull(file: seq<byte>, skip: nat, inner: nat)
    requires inner > 0
    ensures |Payload(file, skip, inner)| == inner <==> skip + inner <= |file|
    ensures skip + inner <= |file| ==> Payload(file, skip, inner) == file[skip..skip + inner]
  {
  }

  /** A request at the cursor of an upload that is already staged is acknowledged and nothing more. */
  lemma TrailerTaken(rx: Rx, off: u32, total: u32, data: seq<byte>, port: Port)
    requires SmpOk(rx) && rx.owner == Smp && rx.staged && rx.open && off == |rx.file| > 0
    requires off + |data| < 0x1_0000_0000
    ensures RxUpload(rx, off, total, data, port) == Accepted(rx.(file := rx.file + data), |rx.file| + |data|)
  {
    hide Payload;
    assert PatchPart(rx, data) == [];
  }

  /** Over a staged upload of any bytes, a client with any blob is walked to its end. */
  lemma {:induction false} WalkedToEnd(base: Rx, sys: Sys, port: Port) returns (evs: seq<Event>)
    requires Resumed(base, sys) && sys.tx.phase == Sending && sys.tx.off == |sys.rx.file| > 0
    requires sys.rx.owner == Smp && sys.rx.staged && sys.rx.open
    ensures Calm(evs) && CalmRun(base, sys, evs).tx.phase == Finished
    decreases |sys.tx.blob| - sys.tx.off
  {
    hide RxUpload, Payload, Resumed;
    var ask := Request(port, true);
    ResumedParts(base, sys);
    TrailerTaken(sys.rx, sys.tx.off, Total(sys.tx), Data(sys.tx), port);
    CalmStep(base, sys, ask);
    var next := Step(sys, ask);
    evs := [];
    if next.tx.phase == Sending {
      evs := WalkedToEnd(base, next, port);
    }
    evs := [ask] + evs;
  }

  lemma ResumedParts(base: Rx, sys: Sys)
    requires Resumed(base, sys)
    ensures Sendable(sys.tx) && Fits(sys.rx) && (sys.tx.phase != Failed ==> SmpOk(sys.rx))
  {
  }

  /**
   So the failure is real: over every staged upload, whatever its bytes, every client can
   finish, and then, if those bytes are no prefix of its blob, without its blob received.
   */
  lemma StaleUploadFinishes(sys: Sys, port: Port) returns (evs: seq<Event>)
    requires Starts(sys) && sys.tx.off == 0 && sys.rx.file != [] && sys.rx.staged && sys.rx.open
    ensures Calm(evs)
    ensures var r := CalmRun(sys.rx, sys, evs);
            r.tx.phase == Finished && (!(sys.rx.file <= sys.tx.blob) ==> r.atEnd.value.file != sys.tx.blob)
  {
    hide Payload;
    var ask := Request(port, true);
    CalmStep(sys.rx, sys, ask);
    var next := Step(sys, ask);
    assert next.rx == sys.rx && next.tx.off == |sys.rx.file|;
    evs := [];
    if next.tx.phase == Sending {
      evs := WalkedToEnd(sys.rx, next, port);
    }
    var rest := evs;
    evs := [ask] + rest;
    assert evs[1..] == rest && evs[0] == ask;
    ResumeIff(sys, evs);
  }

  // ----- the client's loop as it is written

  datatype Asked = Asked(off: nat, total: nat, data: seq<byte>)

  datatype Looped = Looped(tx: Client, asked: seq<Asked>)

  /** The client against a list of answers, with the requests it sends; with none left it fails. */
  function Loop(tx: Client, heard: seq<Heard>): Looped
    requires Sendable(tx)
    decreases |heard|
  {
    if tx.phase != Sending then Looped(tx, [])
    else
      var ask := Asked(tx.off, Total(tx), Data(tx));
      if heard == [] then Looped(tx.(phase := Failed), [ask])
      else
        var rest := Loop(OnHeard(tx, heard[0]), heard[1..]);
        Looped(rest.tx, [ask] + rest.asked)
  }

  method UploadLoop(blob: seq<byte>, chunk: nat, heard: seq<Heard>) returns (off: nat, ok: bool, asked: seq<Asked>)
    requires |blob| < 0x1_0000_0000 && chunk > 0
    ensures blob == [] ==> ok && off == 0 && asked == []
    ensures blob != [] ==> var r := Loop(Client(blob, chunk, 0, Sending), heard);
                           ok == (r.tx.phase == Finished) && off == r.tx.off && asked == r.asked
  {
    hide Data, Total;
    off, asked := 0, [];
    if blob == [] {
      return off, true, asked;
    }
    var k := 0;
    ghost var whole := Loop(Client(blob, chunk, 0, Sending), heard);
    ghost var tx := Client(blob, chunk, 0, Sending);
    assert heard[0..] == heard;
    while off < |blob|
      invariant 0 <= k <= |heard|
      invariant tx == Client(blob, chunk, off, if off < |blob| then Sending else Finished)
      invariant whole.tx == Loop(tx, heard[k..]).tx
      invariant whole.asked == asked + Loop(tx, heard[k..]).asked
      decreases |heard| - k
    {
      Assoc(asked, [Asked(off, Total(tx), Data(tx))], Loop(tx, heard[k..]).asked[1..]);
      Parts(off, blob, chunk);
      asked := asked + [Asked(off, if off == 0 then |blob| else 0, blob[off..Min(off + chunk, |blob|)])];
      if k == |heard| {
        return off, false, asked;
      }
      assert heard[k..][1..] == heard[k + 1..];
      tx := OnHeard(tx, heard[k]);
      match heard[k] {
        case Next(next) =>
          if next == off {
            return off, false, asked;
          }
          off := next;
        case Shut =>
        case Bad =>
          return off, false, asked;
      }
      k := k + 1;
    }
    ok := true;
  }

  lemma Parts(off: nat, blob: seq<byte>, chunk: nat)
    requires 0 < |blob| < 0x1_0000_0000 && chunk > 0 && off < |blob|
    ensures var tx := Client(blob, chunk, off, Sending);
            && Total(tx) == (if off == 0 then |blob| else 0)
            && Data(tx) == blob[off..Min(off + chunk, |blob|)]
  {
  }

  // ----- the loop inside the whole system

  /** What one event lets the client hear. */
  function HeardAt(sys: Sys, ev: Event): seq<Heard>
    requires Sendable(sys.tx) && Fits(sys.rx)
  {
    if sys.tx.phase != Sending then []
    else
      match ev
      case Request(port, heard) =>
        [if heard then HeardOf(RxUpload(sys.rx, sys.tx.off, Total(sys.tx), Data(sys.tx), port)) else Bad]
      case GiveUp => [Bad]
      case _ => []
  }

  /** What a run lets the client hear, in order. */
  function HeardIn(sys: Sys, evs: seq<Event>): seq<Heard>
    requires Inv(sys)
    decreases evs
  {
    if evs == [] then []
    else
      StepKeeps(sys, evs[0]);
      HeardAt(sys, evs[0]) + HeardIn(Step(sys, evs[0]), evs[1..])
  }

  lemma StepHears(sys: Sys, ev: Event)
    requires Sendable(sys.tx) && Fits(sys.rx)
    ensures Step(sys, ev).tx == if HeardAt(sys, ev) == [] then sys.tx else OnHeard(sys.tx, HeardAt(sys, ev)[0])
    ensures |HeardAt(sys, ev)| <= 1
    ensures sys.tx.phase != Sending ==> HeardAt(sys, ev) == []
  {
    hide RxUpload, RxFrame;
  }

  /** Fed what a run lets it hear, the loop ends where the run leaves the client, or fails for want of more. */
  lemma {:induction false} LoopInSystem(sys: Sys, evs: seq<Event>)
    requires Inv(sys)
    ensures var t := Run(sys, evs).tx;
            Loop(sys.tx, HeardIn(sys, evs)).tx == if t.phase == Sending then t.(phase := Failed) else t
    decreases evs
  {
    hide Step, HeardAt, OnHeard, Inv;
    SendableOf(sys);
    if evs != [] {
      var ev := evs[0];
      StepKeeps(sys, ev);
      StepHears(sys, ev);
      var next, rest := Step(sys, ev), HeardIn(Step(sys, ev), evs[1..]);
      LoopInSystem(next, evs[1..]);
      SendableOf(next);
      var all := HeardIn(sys, evs);
      if HeardAt(sys, ev) == [] {
        assert all == rest;
      } else {
        assert all[0] == HeardAt(sys, ev)[0] && all[1..] == rest;
      }
    }
  }

  lemma SendableOf(sys: Sys)
    requires Inv(sys)
    ensures Sendable(sys.tx) && Fits(sys.rx)
  {
  }

  /** A loop that ends well on what a fresh run let it hear has had exactly its blob received and its patch committed. */
  lemma LoopedMeansStaged(sys: Sys, evs: seq<Event>)
    requires Sendable(sys.tx) && sys.tx.phase == Sending
    requires SmpOk(sys.rx) && sys.rx.owner != Smp && Inv(sys)
    requires Loop(sys.tx, HeardIn(sys, evs)).tx.phase == Finished
    ensures var r, g := Run(sys, evs), Layout(sys.tx);
            && r.atEnd.Some? && r.atEnd.value.file == sys.tx.blob && r.atEnd.value.staged
            && g.Geometry? && g.skip + g.inner <= |sys.tx.blob|
            && r.atEnd.value.committed == Some(Commit(Smp, 1, sys.tx.blob[g.skip..g.skip + g.inner]))
  {
    hide Inv, Layout, Loop, Run;
    LoopInSystem(sys, evs);
    FinishedMeansStaged(sys, evs);
  }
}
