/**
 Reassembly of SMP frames from a stream of notifications. A frame is an eight-byte
 header, whose third and fourth bytes are the length of what follows, and that much
 more.
 */
module SmpStream {
  import opened Bits
  import opened Seqs

  const HEADER: nat := 8

  /** The length of the frame that starts `s`. */
  function FrameLength(s: seq<byte>): nat
    requires |s| >= HEADER
  {
    HEADER + Word(s[2], s[3])
  }

  predicate StartsWhole(s: seq<byte>) {
    |s| >= HEADER && |s| >= FrameLength(s)
  }

  datatype Parsed = Parsed(frames: seq<seq<byte>>, rest: seq<byte>)

  /** The length-prefixed reading of a stream, and the bytes of a frame not yet complete. */
  function Parse(s: seq<byte>): Parsed
    decreases |s|
  {
    if !StartsWhole(s) then Parsed([], s)
    else
      var n := FrameLength(s);
      var p := Parse(s[n..]);
      Parsed([s[..n]] + p.frames, p.rest)
  }

  /** A complete frame by its own header. */
  predicate Whole(f: seq<byte>) {
    |f| >= HEADER && |f| == FrameLength(f)
  }

  lemma StartsWholeMore(a: seq<byte>, b: seq<byte>)
    requires StartsWhole(a)
    ensures StartsWhole(a + b) && FrameLength(a + b) == FrameLength(a)
    ensures (a + b)[..FrameLength(a)] == a[..FrameLength(a)]
    ensures (a + b)[FrameLength(a)..] == a[FrameLength(a)..] + b
  {
  }

  /** Reading on from what an earlier part left is reading the whole. */
  lemma {:induction false} ParseConcat(a: seq<byte>, b: seq<byte>)
    ensures Parse(a + b).frames == Parse(a).frames + Parse(Parse(a).rest + b).frames
    ensures Parse(a + b).rest == Parse(Parse(a).rest + b).rest
    decreases |a|
  {
    if !StartsWhole(a) {
      Empty(Parse(a + b).frames);
    } else {
      var n := FrameLength(a);
      StartsWholeMore(a, b);
      ParseConcat(a[n..], b);
      Assoc([a[..n]], Parse(a[n..]).frames, Parse(Parse(a).rest + b).frames);
    }
  }

  /** A sender's frames come out as they were, with nothing left over. */
  lemma {:induction false} ParseOfFrames(fs: seq<seq<byte>>)
    requires forall f <- fs :: Whole(f)
    ensures Parse(Flatten(fs)) == Parsed(fs, [])
  {
    if fs != [] {
      var f := fs[0];
      assert f in fs && StartsWhole(f);
      ParseOfFrames(fs[1..]);
      StartsWholeMore(f, Flatten(fs[1..]));
      Empty(Flatten(fs[1..]));
      assert f[..|f|] == f && f[|f|..] == [] && [f] + fs[1..] == fs;
    }
  }

  // ----- messages as a sender spells them

  datatype Message = Message(op: byte, group: word, seqNo: byte, id: byte, body: seq<byte>)

  /** Eight bytes, the length sixteen bits wide, and the body. */
  function Spelled(m: Message): seq<byte> {
    [m.op, 0] + Be16(|m.body| % 0x1_0000) + Be16(m.group) + [m.seqNo, m.id] + m.body
  }

  /** A message is one complete frame if and only if its body is shorter than 64 KiB. */
  lemma WholeIff(m: Message)
    ensures Whole(Spelled(m)) <==> |m.body| < 0x1_0000
  {
    var f := Spelled(m);
    var len := Be16(|m.body| % 0x1_0000);
    assert f[2] == len[0] && f[3] == len[1];
  }

  function SpelledAll(ms: seq<Message>): seq<seq<byte>> {
    if ms == [] then [] else [Spelled(ms[0])] + SpelledAll(ms[1..])
  }

  /** Messages sent one after the other are read as they were sent. */
  lemma MessagesComeOut(ms: seq<Message>)
    requires forall m <- ms :: |m.body| < 0x1_0000
    ensures Parse(Flatten(SpelledAll(ms))) == Parsed(SpelledAll(ms), [])
  {
    hide Parse, Whole, Spelled;
    AllWhole(ms);
    ParseOfFrames(SpelledAll(ms));
  }

  lemma {:induction false} AllWhole(ms: seq<Message>)
    requires forall m <- ms :: |m.body| < 0x1_0000
    ensures forall f <- SpelledAll(ms) :: Whole(f)
  {
    hide Whole, Spelled;
    if ms != [] {
      WholeIff(ms[0]);
      AllWhole(ms[1..]);
    }
  }

  /** Every frame read is complete, and the reading loses no byte. */
  lemma {:induction false} ParseIsExact(s: seq<byte>)
    ensures forall f <- Parse(s).frames :: Whole(f)
    ensures Flatten(Parse(s).frames) + Parse(s).rest == s
    ensures !StartsWhole(Parse(s).rest)
    decreases |s|
  {
    if StartsWhole(s) {
      var n := FrameLength(s);
      var p := Parse(s[n..]);
      ParseIsExact(s[n..]);
      assert ([s[..n]] + p.frames)[1..] == p.frames;
      Assoc(s[..n], Flatten(p.frames), p.rest);
      assert s[..n] + s[n..] == s;
    } else {
      Empty(s);
    }
  }

  /**
   One conversation. A caller waits by leaving a ticket in `waiters`; frames that arrive
   with nobody waiting queue up.
   */
  class Conversation {
    var rx: seq<byte>
    var frames: seq<seq<byte>>
    var waiters: seq<nat>
    var tickets: nat
    /** Every byte fed, and every frame handed to a caller, in order. */
    ghost var fed: seq<byte>
    ghost var handed: seq<seq<byte>>

    /** Handed and queued frames are the reading of everything fed. */
    ghost predicate Valid()
      reads this
    {
      && Parse(fed) == Parsed(handed + frames, rx)
      && (frames == [] || waiters == [])
      && (forall i :: 0 <= i < |waiters| ==> waiters[i] < tickets)
      && (forall i, j :: 0 <= i < j < |waiters| ==> waiters[i] != waiters[j])
    }

    constructor ()
      ensures Valid() && fed == [] && handed == []
    {
      rx, frames, waiters, tickets, fed, handed := [], [], [], 0, [], [];
    }

    /** Hands each completed frame to the longest waiter, or queues it. */
    method Feed(data: seq<byte>) returns (woken: seq<nat>)
      requires Valid()
      modifies this
      ensures Valid() && fed == old(fed) + data
      ensures old(waiters) == woken + waiters
      ensures |handed| == |old(handed)| + |woken| && old(handed) <= handed
    {
      hide Parse;
      ParseConcat(fed, data);
      rx := rx + data;
      fed := fed + data;
      woken := [];
      Empty(waiters);
      while |rx| >= HEADER
        invariant Parse(fed) == Parsed(handed + frames + Parse(rx).frames, Parse(rx).rest)
        invariant frames == [] || waiters == []
        invariant old(waiters) == woken + waiters && tickets == old(tickets)
        invariant |handed| == |old(handed)| + |woken| && old(handed) <= handed
        invariant fed == old(fed) + data
        decreases |rx|
      {
        var length := HEADER + Word(rx[2], rx[3]);
        if |rx| < length {
          break;
        }
        var frame := rx[..length];
        ParseStep(rx);
        Assoc(handed + frames, [frame], Parse(rx[length..]).frames);
        Assoc(handed, frames, [frame]);
        rx := rx[length..];
        if waiters != [] {
          Empty(handed);
          Empty(handed + [frame]);
          Assoc(woken, [waiters[0]], waiters[1..]);
          assert [waiters[0]] + waiters[1..] == waiters;
          woken, waiters := woken + [waiters[0]], waiters[1..];
          handed := handed + [frame];
        } else {
          frames := frames + [frame];
        }
      }
      ParseStop(rx);
      Empty(handed + frames);
      assert forall i :: 0 <= i < |waiters| ==> waiters[i] == old(waiters)[|woken| + i];
    }

    /** The next queued frame, or a ticket to wait for one. */
    method NextFrame() returns (queued: seq<seq<byte>>, ticket: nat)
      requires Valid()
      modifies this
      ensures Valid() && fed == old(fed)
      ensures old(frames) != [] ==> queued == [old(frames)[0]] && handed == old(handed) + queued && waiters == old(waiters)
      ensures old(frames) == [] ==> queued == [] && handed == old(handed) && waiters == old(waiters) + [ticket]
    {
      queued, ticket := [], tickets;
      if frames != [] {
        queued := [frames[0]];
        assert handed + frames == (handed + queued) + frames[1..];
        handed := handed + queued;
        frames := frames[1..];
      } else {
        waiters := waiters + [tickets];
        tickets := tickets + 1;
      }
    }

    /** A waiter that timed out leaves; its frame, if it comes, goes to another. */
    method Expire(ticket: nat)
      requires Valid()
      modifies this`waiters
      ensures Valid()
      ensures forall t :: t in waiters <==> t in old(waiters) && t != ticket
    {
      var at := 0;
      while at < |waiters| && waiters[at] != ticket
        invariant 0 <= at <= |waiters|
        invariant ticket !in waiters[..at]
      {
        at := at + 1;
      }
      if at < |waiters| {
        ghost var was := waiters;
        waiters := waiters[..at] + waiters[at + 1..];
        assert was == was[..at] + [was[at]] + was[at + 1..];
      }
    }
  }

  lemma ParseStep(s: seq<byte>)
    requires StartsWhole(s)
    ensures Parse(s) == Parsed([s[..FrameLength(s)]] + Parse(s[FrameLength(s)..]).frames, Parse(s[FrameLength(s)..]).rest)
  {
  }

  lemma ParseStop(s: seq<byte>)
    requires !StartsWhole(s)
    ensures Parse(s) == Parsed([], s)
  {
  }

  /** However a stream was cut into notifications, the frames read are the same. */
  lemma {:induction false} AnyCut(chunks: seq<seq<byte>>, sofar: seq<byte>)
    ensures FeedAll(Parse(sofar), chunks) == Parse(sofar + Flatten(chunks))
    decreases chunks
  {
    if chunks == [] {
      Empty(sofar);
    } else {
      ParseConcat(sofar, chunks[0]);
      AnyCut(chunks[1..], sofar + chunks[0]);
      Assoc(sofar, chunks[0], Flatten(chunks[1..]));
    }
  }

  /** What a receiver that has read `p` has read after these notifications. */
  function FeedAll(p: Parsed, chunks: seq<seq<byte>>): Parsed
    decreases chunks
  {
    if chunks == [] then p
    else
      var q := Parse(p.rest + chunks[0]);
      FeedAll(Parsed(p.frames + q.frames, q.rest), chunks[1..])
  }
}
