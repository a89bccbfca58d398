/**
 The native sender as it is written: a session with a queue of notifications, a call that
 retries, and the loop that sends the blob. Every method is held to the moves of the
 sender in `DfuTransfer`.
 */
module DfuSession {
  import opened Bits
  import opened Options
  import opened DfuProtocol
  import opened DfuTransfer

  const RETRIES := 3

  /** What the sender does: it writes its request, takes a notification, waits in vain, or gives up. */
  datatype Move = Wrote | Got(reply: seq<byte>) | Late | Quit

  function Does(tx: Sender, m: Move): (r: Sender)
    requires Sendable(tx)
    ensures Sendable(r)
  {
    match m
    case Wrote => if Asking(tx) && !tx.waiting then tx.(waiting := true) else tx
    case Got(reply) => if Asking(tx) && tx.waiting then OnReply(tx, reply) else tx
    case Late =>
      if !Asking(tx) || !tx.waiting then tx
      else if tx.attempt + 1 >= tx.retries then tx.(phase := Dead)
      else tx.(waiting := false, attempt := tx.attempt + 1)
    case Quit => if Asking(tx) then tx.(phase := Dead) else tx
  }

  function After(tx: Sender, moves: seq<Move>): (r: Sender)
    requires Sendable(tx)
    ensures Sendable(r)
  {
    if moves == [] then tx else Does(After(tx, moves[..|moves| - 1]), moves[|moves| - 1])
  }

  /** A request written so many times, with no answer in time to any. */
  function Unanswered(n: nat): seq<Move> {
    if n == 0 then [] else Unanswered(n - 1) + [Wrote] + [Late]
  }

  lemma AfterOne(tx: Sender, moves: seq<Move>, m: Move)
    requires Sendable(tx)
    ensures After(tx, moves + [m]) == Does(After(tx, moves), m)
  {
    hide Does;
    assert (moves + [m])[..|moves|] == moves;
  }

  lemma OneTry(tx: Sender)
    requires Sendable(tx)
    ensures var r := Does(Does(tx, Wrote), Late);
            && (tx.phase.Dead? ==> r == tx)
            && (Asking(tx) && !tx.waiting ==>
                  if tx.attempt + 1 < tx.retries then r == tx.(attempt := tx.attempt + 1) else r.phase.Dead?)
  {
  }

  /** The sender gives up when the third writing of a request goes unanswered, and not before. */
  lemma {:induction false} ThreeTries(tx: Sender, n: nat)
    requires Sendable(tx) && Asking(tx) && !tx.waiting && tx.attempt == 0 && tx.retries == RETRIES
    ensures var r := After(tx, Unanswered(n)); if n < 3 then r == tx.(attempt := n) else r.phase.Dead?
  {
    hide Does, After;
    if n == 0 {
      NoMoves(tx);
    } else {
      ThreeTries(tx, n - 1);
      var before := Unanswered(n - 1);
      AfterOne(tx, before, Wrote);
      AfterOne(tx, before + [Wrote], Late);
      OneTry(After(tx, before));
    }
  }

  lemma NoMoves(tx: Sender)
    requires Sendable(tx)
    ensures After(tx, []) == tx
  {
  }

  /** The moves are the sender's part of the whole system: a write reaches the receiver, a notification was sent. */
  lemma MovesAreSteps(sys: Sys, m: Move, port: Port)
    requires Sendable(sys.tx) && Fits(sys.rx)
    requires m.Got? ==> m.reply in sys.net
    ensures var ev := match m case Wrote => Write(port) case Got(r) => Deliver(r) case Late => Timeout case Quit => GiveUp;
            Step(sys, ev).tx == Does(sys.tx, m)
  {
    hide RxFrame, OnReply;
  }

  /** What the queue holds when it is asked: a notification, or nothing in time. */
  datatype Arrival = Reply(bytes: seq<byte>) | Nothing

  /** A call ends with an offset, with the refusal it tolerates, or with the run. */
  datatype Outcome = Offset(n: nat) | WindowClosed | Died

  /** The notifications among what the queue has delivered. */
  function RepliesIn(taken: seq<Arrival>): seq<seq<byte>> {
    if taken == [] then []
    else
      var a := taken[|taken| - 1];
      RepliesIn(taken[..|taken| - 1]) + if a.Reply? then [a.bytes] else []
  }

  /** The notifications the sender has taken in. */
  function GotIn(moves: seq<Move>): seq<seq<byte>> {
    if moves == [] then []
    else
      var m := moves[|moves| - 1];
      GotIn(moves[..|moves| - 1]) + if m.Got? then [m.reply] else []
  }

  class Session {
    const id: u32
    const blob: seq<byte>
    const chunk: nat
    /** What the queue will still deliver; after it only silence. */
    var inbox: seq<Arrival>

    ghost const start: Sender
    ghost const mail: seq<Arrival>
    ghost var tx: Sender
    ghost var moves: seq<Move>
    /** What the queue has delivered so far. */
    ghost var taken: seq<Arrival>

    ghost predicate Valid()
      reads this
    {
      && Sendable(start) && start.id == id && start.blob == blob && start.chunk == chunk && start.retries == RETRIES
      && tx == After(start, moves) && mail == taken + inbox
      && Sendable(tx) && tx.id == id && tx.blob == blob && tx.chunk == chunk && tx.retries == RETRIES
    }

    /** Every notification delivered is one the sender has taken in, in order, and no other. */
    ghost predicate Heeded()
      reads this
    {
      RepliesIn(taken) == GotIn(moves)
    }

    /** Between calls: nothing written that is not answered. */
    ghost predicate Ready()
      reads this
    {
      Valid() && Heeded() && Asking(tx) && !tx.waiting && tx.attempt == 0
    }

    constructor (id: u32, blob: seq<byte>, chunk: nat, inbox: seq<Arrival>)
      requires id != 0 && 0 < |blob| < 0x1_0000_0000 && chunk > 0
      ensures Ready() && tx.phase == Begin && moves == []
      ensures this.id == id && this.blob == blob && this.chunk == chunk && mail == inbox
    {
      this.id, this.blob, this.chunk, this.inbox := id, blob, chunk, inbox;
      start := Sender(id, blob, chunk, RETRIES, Begin, false, 0);
      tx := Sender(id, blob, chunk, RETRIES, Begin, false, 0);
      moves, taken, mail := [], [], inbox;
    }

    ghost method Make(m: Move)
      requires Valid()
      modifies this`tx, this`moves
      ensures Valid() && tx == Does(old(tx), m) && moves == old(moves) + [m]
      ensures GotIn(moves) == GotIn(old(moves)) + if m.Got? then [m.reply] else []
    {
      hide Does, OnReply;
      DoesKeep(tx, m);
      moves := moves + [m];
      tx := Does(tx, m);
      assert moves[..|moves| - 1] == old(moves);
    }

    /** The head of the queue, or silence once it is empty. */
    method Take() returns (a: Arrival)
      requires Valid()
      modifies this`inbox, this`taken
      ensures Valid()
      ensures if old(inbox) == [] then a.Nothing? && inbox == [] && taken == old(taken)
              else a == old(inbox)[0] && inbox == old(inbox)[1..] && taken == old(taken) + [a]
      ensures RepliesIn(taken) == RepliesIn(old(taken)) + if a.Reply? then [a.bytes] else []
    {
      hide After;
      if inbox == [] {
        return Nothing;
      }
      a := inbox[0];
      taken := taken + [a];
      inbox := inbox[1..];
      assert taken[..|taken| - 1] == old(taken);
    }

    /** Wait for the answer to the request just written; None is the silence that ends the wait. */
    method Await(expected: u32) returns (rsp: Option<seq<byte>>)
      requires Valid() && Heeded() && Asking(tx) && tx.waiting && expected == Expected(tx)
      modifies this
      ensures Valid() && tx == old(tx)
      ensures rsp.None? ==> Heeded()
      ensures rsp.Some? ==> RepliesIn(taken) == GotIn(moves) + [rsp.value] && AnswerFor(rsp.value, expected)
    {
      while true
        invariant Valid() && Heeded() && tx == old(tx)
        decreases |inbox|
      {
        hide After, Sendable, RepliesIn, GotIn;
        var a := Take();
        if a.Nothing? {
          return None;
        }
        var c := a.bytes;
        if c != [] && c[0] == RSP_OK && |c| == 9 {
          if Get32(c, 1) != id || Get32(c, 5) != expected {
            Make(Got(c));
            continue;
          }
        }
        return Some(c);
      }
    }

    method Call(frame: seq<byte>, tolerateClosed: bool, expected: u32) returns (out: Outcome)
      requires Ready() && frame == Request(tx) && expected == Expected(tx) && tolerateClosed == tx.phase.Begin?
      modifies this
      ensures Valid() && Heeded()
      ensures out.Offset? ==> out.n == expected && tx == Advance(old(tx))
      ensures out.WindowClosed? ==> tolerateClosed && tx == old(tx)
      ensures out.Died? ==> tx.phase == Dead
    {
      var rsp: Option<seq<byte>> := None;
      var attempt := 0;
      while attempt < RETRIES && rsp.None?
        invariant 0 <= attempt <= RETRIES && Valid()
        invariant rsp.None? ==> attempt < RETRIES && tx == old(tx).(attempt := attempt) && Heeded()
        invariant rsp.Some? ==> AnswerFor(rsp.value, expected) && RepliesIn(taken) == GotIn(moves) + [rsp.value]
        invariant rsp.Some? ==> tx == old(tx).(attempt := tx.attempt, waiting := true)
      {
        hide Sendable, OnReply, After, RepliesIn, GotIn;
        Make(Wrote);
        rsp := Await(expected);
        if rsp.None? {
          Make(Late);
          if attempt + 1 == RETRIES {
            return Died;
          }
        }
        attempt := attempt + 1;
      }
      out := Judge(rsp.value, tolerateClosed, expected);
    }

    ghost predicate AnswerFor(r: seq<byte>, expected: u32)
    {
      !(r != [] && r[0] == RSP_OK && |r| == 9 && (Get32(r, 1) != id || Get32(r, 5) != expected))
    }

    /** What the answer comes to. */
    method Judge(r: seq<byte>, tolerateClosed: bool, expected: u32) returns (out: Outcome)
      requires Valid() && Asking(tx) && tx.waiting && AnswerFor(r, expected)
      requires expected == Expected(tx) && tolerateClosed == tx.phase.Begin?
      requires RepliesIn(taken) == GotIn(moves) + [r]
      modifies this`tx, this`moves
      ensures Valid() && Heeded()
      ensures out.Offset? ==> out.n == expected && tx == Advance(old(tx))
      ensures out.WindowClosed? ==> tolerateClosed && tx == old(tx).(waiting := false, attempt := 0)
      ensures out.Died? ==> tx.phase == Dead
    {
      Make(Got(r));
      if r == [] {
        return Died;
      }
      if r[0] == RSP_ERR {
        var code := if |r| > 1 then r[1] else 0;
        if tolerateClosed && code == Code(Closed) {
          return WindowClosed;
        }
        return Died;
      }
      if r[0] != RSP_OK || |r| != 9 {
        return Died;
      }
      return Offset(Get32(r, 5));
    }

    /** Ask until somebody opens the update window; `patience` is how many refusals the deadline allows. */
    method WaitForWindow(patience: nat) returns (ok: bool)
      requires Ready() && tx.phase == Begin
      modifies this
      ensures Valid() && Heeded()
      ensures ok ==> Ready() && tx.phase == Data(0)
      ensures !ok ==> tx.phase == Dead
    {
      var left := patience;
      while true
        invariant Ready() && tx.phase == Begin
        decreases left
      {
        var out := Call(BeginFrame(id, |blob|), true, 0);
        if out.Offset? {
          return true;
        }
        if out.Died? {
          return false;
        }
        if left == 0 {
          Make(Quit);
          return false;
        }
        left := left - 1;
      }
    }

    /** The loop over the blob. */
    method SendBlob() returns (ok: bool)
      requires Ready() && tx.phase == Data(0)
      modifies this
      ensures Valid() && Heeded()
      ensures ok ==> Ready() && tx.phase == Committing
      ensures !ok ==> tx.phase == Dead
    {
      var sent := 0;
      while sent < |blob|
        invariant 0 <= sent <= |blob| && Ready()
        invariant tx.phase == if sent < |blob| then Data(sent) else Committing
      {
        var end := if |blob| - sent < chunk then |blob| else sent + chunk;
        var out := Call(DataFrame(id, sent, blob[sent..end]), false, end);
        if !out.Offset? {
          return false;
        }
        sent := out.n;
      }
      return true;
    }

    /** The whole run: finished only through the end of the blob and an answered COMMIT. */
    method Push(patience: nat) returns (ok: bool)
      requires Ready() && tx.phase == Begin
      modifies this
      ensures Valid() && tx == After(start, moves)
      ensures mail == taken + inbox && RepliesIn(taken) == GotIn(moves)
      ensures tx.phase == if ok then Finished else Dead
    {
      ok := WaitForWindow(patience);
      if !ok {
        return;
      }
      ok := SendBlob();
      if !ok {
        return;
      }
      var out := Call(CommitFrame(id), false, |blob|);
      ok := out.Offset?;
    }
  }

  lemma DoesKeep(tx: Sender, m: Move)
    requires Sendable(tx)
    ensures var r := Does(tx, m); r.id == tx.id && r.blob == tx.blob && r.chunk == tx.chunk && r.retries == tx.retries
  {
  }

  // ----- the session inside the whole system

  function MoveOf(ev: Event): Option<Move> {
    match ev
    case Write(_) => Some(Wrote)
    case Deliver(r) => Some(Got(r))
    case Timeout => Some(Late)
    case GiveUp => Some(Quit)
    case _ => None
  }

  /** The sender's moves among everything that happens. */
  function MovesIn(events: seq<Event>): seq<Move> {
    if events == [] then []
    else
      var m := MoveOf(events[|events| - 1]);
      MovesIn(events[..|events| - 1]) + if m.Some? then [m.value] else []
  }

  /** Only notifications that were sent are delivered, and this sender keeps its chunk size. */
  predicate Genuine(sys: Sys, events: seq<Event>)
    requires Inv(sys)
  {
    events == [] ||
    var before, ev := events[..|events| - 1], events[|events| - 1];
    Genuine(sys, before) && !ev.Resize? && (ev.Deliver? ==> ev.reply in Run(sys, before).net)
  }

  lemma OthersLeaveSender(sys: Sys, ev: Event)
    requires Sendable(sys.tx) && Fits(sys.rx) && MoveOf(ev).None? && !ev.Resize?
    ensures Step(sys, ev).tx == sys.tx
  {
    hide RxFrame, RxUpload;
  }

  lemma {:induction false} SessionInSystem(sys: Sys, events: seq<Event>)
    requires Inv(sys) && Genuine(sys, events)
    ensures Run(sys, events).tx == After(sys.tx, MovesIn(events))
  {
    hide Inv, Step, Does;
    if events != [] {
      var before, ev := events[..|events| - 1], events[|events| - 1];
      SessionInSystem(sys, before);
      var mid := Run(sys, before);
      InvParts(mid);
      var m := MoveOf(ev);
      if m.Some? {
        MovesAreSteps(mid, m.value, if ev.Write? then ev.port else GOOD);
        var all := MovesIn(events);
        assert all[..|all| - 1] == MovesIn(before);
      } else {
        OthersLeaveSender(mid, ev);
        assert MovesIn(events) == MovesIn(before);
      }
    }
  }

  /** When the moves of a session have brought it past the blob loop, the receiver has had the whole blob staged. */
  lemma SentMeansStaged(sys: Sys, events: seq<Event>)
    requires Initial(sys) && Inv(sys) && Genuine(sys, events)
    requires var p := After(sys.tx, MovesIn(events)).phase; p.Committing? || p.Finished?
    ensures var r := Run(sys, events);
            && r.high == |sys.tx.blob|
            && (Mine(r.tx, r.rx) ==> r.rx.wire == sys.tx.blob)
            && (!r.dropped ==> Mine(r.tx, r.rx))
  {
    hide Inv, Initial;
    SessionInSystem(sys, events);
    StagedAtLoopExit(sys, events);
  }
}
