/**
 The witness link as it is written: a table of slots and a challenge, changed in place by
 the receive callback, the session edge and the tick.
 */
module WitnessNode {
  import opened Options
  import opened WitnessLink

  class Node {
    const slots: array<Slot>
    var nonce: nat
    var nonceMs: int
    var session: bool
    var rangeMm: int
    var windowSeq: nat
    /** How many reports have been accepted, which numbers the next. */
    var accepted: nat
    /** How many challenges have been drawn after the first. */
    var epoch: nat

    ghost var view: Link

    ghost predicate Valid()
      reads this, slots
    {
      && view == Link(slots[..], nonce, nonceMs, session, rangeMm, Quiet, Resting, view.draws, view.log, view.windows)
      && windowSeq == |view.windows| && accepted == |view.log| && epoch == view.Epoch() && view.draws != []
    }

    constructor (keys: seq<bool>, draw: challenge, now: int)
      ensures Valid() && fresh(slots) && view == WitnessLink.Initial(keys, draw, now)
    {
      var table := new Slot[|keys|](i requires 0 <= i < |keys| => Slot(keys[i], Unseen, NO_REPORT, 0, false, false, 0, 0, 0));
      slots := table;
      nonce, nonceMs, session, rangeMm := draw, now, false, -1;
      windowSeq, accepted, epoch := 0, 0, 0;
      view := WitnessLink.Initial(keys, draw, now);
      new;
      assert slots[..] == Enrolled(keys);
    }

    /** Draws until the challenge is not zero, which takes `zeros` more draws than one. */
    method Draw(zeros: nat, draw: challenge)
      requires Valid()
      modifies this`nonce, this`epoch
      ensures nonce == draw && epoch == old(epoch) + zeros + 1
    {
      var k := 0;
      nonce := if k < zeros then 0 else draw;
      epoch := epoch + 1;
      while nonce == 0
        invariant 0 <= k <= zeros && nonce == (if k < zeros then 0 else draw) && epoch == old(epoch) + k + 1
        decreases zeros - k
      {
        k := k + 1;
        nonce := if k < zeros then 0 else draw;
        epoch := epoch + 1;
      }
    }

    method NonceRoll(zeros: nat, draw: challenge, now: int)
      requires Valid()
      modifies this`nonce, this`nonceMs, this`epoch, this`view, slots
      ensures Valid() && view == Roll(old(view), zeros, draw, now)
    {
      Draw(zeros, draw);
      nonceMs := now;
      ZerosLength(zeros);
      ghost var was := slots[..];
      for i := 0 to slots.Length
        invariant slots[..] == SweptTo(was, i, epoch)
        modifies slots
      {
        slots[i] := slots[i].(nonceOk := false, swept := epoch);
      }
      view := Roll(view, zeros, draw, now);
    }

    /** The tail of the callback: the pair published if it is there, fresh and vouched for. */
    method PublishPair(pick: Option<nat>, now: int)
      requires Valid()
      modifies this`windowSeq, this`view, slots
      ensures Valid() && view == RxStep(RxStep(old(view).(rx := Stored(now)), pick), pick)
    {
      view := RxStep(RxStep(view.(rx := Stored(now)), pick), pick);
      if slots.Length < OUTSIDE || !slots[INSIDE - 1].have || !slots[OUTSIDE - 1].have {
        return;
      }
      if now - slots[INSIDE - 1].ms > STALE_MS || now - slots[OUTSIDE - 1].ms > STALE_MS {
        return;
      }
      if pick.None? {
        return;
      }
      assert HasPair(slots[..], now);
      windowSeq := windowSeq + 1;
      slots[INSIDE - 1] := slots[INSIDE - 1].(have := false);
      slots[OUTSIDE - 1] := slots[OUTSIDE - 1].(have := false);
    }

    /** Trying each enrolled key in turn. */
    method Unseal(opens: seq<bool>) returns (ok: bool)
      requires Valid()
      ensures ok == Opened(slots[..], opens)
    {
      for i := 0 to slots.Length
        invariant forall k :: 0 <= k < i && k < |opens| ==> !(slots[k].provisioned && opens[k])
      {
        if slots[i].provisioned && i < |opens| && opens[i] {
          assert slots[..][i].provisioned;
          return true;
        }
      }
      return false;
    }

    method StoreReport(msg: Report, now: int)
      requires Valid() && Admits(slots[..], msg)
      modifies this`accepted, this`view, slots
      ensures Valid() && view == StoreStanding(Keep(old(view), msg, now)).(rx := Quiet)
    {
      var k := msg.role - 1;
      view := StoreStanding(Keep(view, msg, now)).(rx := Quiet);
      var s := slots[k];
      slots[k] := Slot(s.provisioned, SeenAt(msg.bootId, msg.ctr), msg, now, true, msg.echo == nonce && nonce != 0,
                       accepted, s.swept, s.swept);
      accepted := accepted + 1;
    }

    method LinkRx(opens: seq<bool>, decoded: Option<Report>, pick: Option<nat>, now: int)
      requires Valid()
      modifies this`windowSeq, this`accepted, this`view, slots
      ensures Valid() && view == Receive(old(view), opens, decoded, pick, now)
    {
      hide Publish, Pair, Opened;
      var ok := Unseal(opens);
      if !ok || decoded.None? {
        return;
      }
      var msg := decoded.value;
      if msg.role < INSIDE || msg.role > slots.Length || !slots[msg.role - 1].provisioned {
        return;
      }
      if !Accepts(slots[msg.role - 1].seen, msg) {
        return;
      }
      StoreReport(msg, now);
      PublishPair(pick, now);
    }

    method SessionEdge(up: bool, zeros: nat, draw: challenge, now: int)
      requires Valid()
      modifies this`session, this`nonce, this`nonceMs, this`epoch, this`view, slots
      ensures Valid()
      ensures view == if Session(old(view), up, now).main.Resting? then old(view)
                      else Roll(old(view).(session := up), zeros, draw, now)
    {
      if up == session {
        return;
      }
      session := up;
      view := view.(session := up);
      NonceRoll(zeros, draw, now);
    }

    method TickAt(period: int, zeros: nat, draw: challenge, now: int)
      requires Valid()
      modifies this`nonce, this`nonceMs, this`epoch, this`view, slots
      ensures Valid()
      ensures view == if Tick(old(view), period, now).main.Resting? then old(view) else Roll(old(view), zeros, draw, now)
    {
      if session && now - nonceMs >= period {
        NonceRoll(zeros, draw, now);
      }
    }
  }

  lemma {:induction false} ZerosLength(n: nat)
    ensures |ZeroDraws(n)| == n
  {
    if n > 0 {
      ZerosLength(n - 1);
    }
  }
}
