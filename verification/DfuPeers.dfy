/**
 What else moves an update along: what a sender makes of every answer, and what the window,
 a lost link and an erase do to a transfer.
 */
module DfuPeers {
  import opened Bits
  import opened Options
  import opened DfuProtocol
  import opened DfuRules
  import T = DfuTransfer
  import U = SmpUpload

  // ----- the native sender

  /** The one answer that takes the sender to its next request. */
  function Awaited(tx: T.Sender): seq<byte>
    requires T.Sendable(tx)
  {
    [0x81] + Le32(tx.id) + Le32(T.Expected(tx))
  }

  lemma AwaitedIff(tx: T.Sender, r: seq<byte>)
    requires T.Sendable(tx)
    ensures r == Awaited(tx) <==> |r| == 9 && r[0] == 0x81 && Get32(r, 1) == tx.id && Get32(r, 5) == T.Expected(tx)
  {
    var w := Awaited(tx);
    Reads(tx.id, T.Expected(tx));
    if |r| == 9 && r[0] == 0x81 && Get32(r, 1) == tx.id && Get32(r, 5) == T.Expected(tx) {
      SameWord(r, w, 1);
      SameWord(r, w, 5);
      assert forall k :: 0 <= k < 9 ==> r[k] == w[k];
    }
  }

  lemma Reads(id: u32, n: u32)
    ensures var w := [0x81] + Le32(id) + Le32(n);
            |w| == 9 && Get32(w, 1) == id && Get32(w, 5) == n
  {
    Get32Within([0x81], id, Le32(n));
    Get32Within([0x81] + Le32(id), n, []);
    assert [0x81] + Le32(id) + Le32(n) + [] == [0x81] + Le32(id) + Le32(n);
  }

  lemma SameWord(a: seq<byte>, b: seq<byte>, at: nat)
    requires at + 4 <= |a| && at + 4 <= |b| && Get32(a, at) == Get32(b, at)
    ensures a[at] == b[at] && a[at + 1] == b[at + 1] && a[at + 2] == b[at + 2] && a[at + 3] == b[at + 3]
  {
    FourBytes(a[at], a[at + 1], a[at + 2], a[at + 3], b[at], b[at + 1], b[at + 2], b[at + 3]);
  }

  lemma FourBytes(a: byte, b: byte, c: byte, d: byte, e: byte, f: byte, g: byte, h: byte)
    requires (a as int) + 0x100 * (b as int) + 0x1_0000 * (c as int) + 0x100_0000 * (d as int)
          == (e as int) + 0x100 * (f as int) + 0x1_0000 * (g as int) + 0x100_0000 * (h as int)
    ensures a == e && b == f && c == g && d == h
  {
  }

  /**
   The awaited answer, and only it, moves the sender on. Another well-formed OK is passed
   over as an echo of an earlier request. A closed window, while the transfer has not begun,
   is a reason to ask again. Anything else ends the run.
   */
  lemma SenderTakes(tx: T.Sender, r: seq<byte>)
    requires T.Sendable(tx) && T.Asking(tx)
    ensures T.OnReply(tx, r)
         == if r == Awaited(tx) then T.Advance(tx)
            else if |r| == 9 && r[0] == 0x81 then tx
            else if tx.phase.Begin? && |r| >= 2 && r[..2] == [0x82, 1] then tx.(waiting := false, attempt := 0)
            else tx.(phase := T.Dead)
  {
    hide Get32, T.Advance, Awaited;
    AwaitedIff(tx, r);
    if |r| >= 2 {
      assert r[..2] == [r[0], r[1]];
    }
  }

  /** What the sender asks, byte for byte. */
  lemma SenderAsks(tx: T.Sender)
    requires T.Sendable(tx) && T.Asking(tx)
    ensures T.Request(tx)
         == match tx.phase
            case Begin => [0x11] + Le32(tx.id) + Le32(|tx.blob|)
            case Data(sent) =>
              var end := if |tx.blob| - sent < tx.chunk then |tx.blob| else sent + tx.chunk;
              [0x12] + Le32(tx.id) + Le32(sent) + tx.blob[sent..end]
            case _ => [0x13] + Le32(tx.id)
  {
  }

  /** Before a request has been written, and only then, its chunks may be made another size. */
  lemma SenderResizes(sys: T.Sys, chunk: nat)
    requires T.Sendable(sys.tx) && Fits(sys.rx)
    ensures T.Step(sys, T.Resize(chunk))
         == if 0 < chunk && !sys.tx.waiting && sys.tx.attempt == 0 then sys.(tx := sys.tx.(chunk := chunk)) else sys
  {
    hide RxFrame;
  }

  /** An unanswered request is written again until its retries are used up. */
  lemma SenderRetries(sys: T.Sys)
    requires T.Sendable(sys.tx) && Fits(sys.rx) && T.Asking(sys.tx) && sys.tx.waiting
    ensures var r := T.Step(sys, T.Timeout);
            && r.rx == sys.rx
            && if sys.tx.attempt + 1 < sys.tx.retries
               then r.tx == sys.tx.(waiting := false, attempt := sys.tx.attempt + 1)
               else r.tx == sys.tx.(phase := T.Dead)
  {
  }

  // ----- the image-upload client

  /** An offset that is past the last one moves the client on, the end finishes it, and one that stands still fails it. */
  lemma ClientTakes(tx: U.Client, h: U.Heard)
    ensures U.OnHeard(tx, h)
         == if h == U.Shut then tx
            else if h == U.Bad || h == U.Next(tx.off) then tx.(phase := U.Failed)
            else tx.(off := h.off, phase := if h.off < |tx.blob| then U.Sending else U.Finished)
  {
  }

  // ----- the rest of the board

  /** The window opened or closed: closing it lets go of whatever was arriving, not of what is staged. */
  predicate WindowMoves(rx: Rx, open: bool, after: Rx) {
    if open then after == rx.(open := true)
    else LetGo(rx.(open := false), after) && after.committed == rx.committed
  }

  /** A link that went down lets go of its own transfer only. */
  predicate ReleaseMoves(rx: Rx, owner: Owner, after: Rx) {
    if owner != Nobody && rx.owner == owner then LetGo(rx, after) && after.committed == rx.committed
    else after == rx
  }

  /** An erase in the window, by the transfer's owner or with none, clears the staging area. */
  predicate EraseMoves(rx: Rx, owner: Owner, port: Port, after: Rx) {
    if rx.open && (rx.owner == Nobody || rx.owner == owner) && port.opens && port.erases
    then LetGo(rx, after) && after.committed == None
    else after == rx
  }

  /** The rest of the board moves a native transfer so. */
  lemma BoardMoves(sys: T.Sys, open: bool, owner: Owner, port: Port)
    requires T.Sendable(sys.tx) && Fits(sys.rx)
    ensures WindowMoves(sys.rx, open, T.Step(sys, T.Window(open)).rx)
    ensures ReleaseMoves(sys.rx, owner, T.Step(sys, T.Release(owner)).rx)
    ensures EraseMoves(sys.rx, owner, port, T.Step(sys, T.Erase(owner, port)).rx)
  {
    hide RxFrame;
  }

  /** And so does a native request that comes during an upload, by the native rules. */
  lemma BoardMovesUpload(sys: U.Sys, open: bool, owner: Owner, frame: seq<byte>, port: Port)
    requires U.Sendable(sys.tx) && Fits(sys.rx)
    ensures owner != Smp ==> U.Step(sys, U.Native(owner, frame, port)).rx == RxFrame(sys.rx, owner, frame, port).rx
    ensures WindowMoves(sys.rx, open, U.Step(sys, U.Window(open)).rx)
    ensures ReleaseMoves(sys.rx, owner, U.Step(sys, U.Release(owner)).rx)
    ensures EraseMoves(sys.rx, Smp, port, U.Step(sys, U.Erase(port)).rx)
  {
    hide RxFrame;
  }
}
