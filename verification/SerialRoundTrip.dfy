/**
 What the encoder emits, and that the decoder recovers it from whatever state it was
 left in.
 */
module SerialRoundTrip {
  import opened Bits
  import opened Base64
  import opened Crc16
  import opened Seqs
  import opened SerialFraming

  lemma {:induction false} FeedConcat(d: Decoder, a: seq<byte>, b: seq<byte>)
    ensures Feed(d, a + b) == Extend(Feed(d, a).packets, Feed(Feed(d, a).decoder, b))
    decreases a
  {
    if a == [] {
      Empty(b);
      Empty(Feed(d, b).packets);
    } else {
      var r := Step(d, a[0]);
      assert (a + b)[0] == a[0] && (a + b)[1..] == a[1..] + b;
      FeedConcat(r.decoder, a[1..], b);
      Assoc(r.packets, Feed(r.decoder, a[1..]).packets, Feed(Feed(d, a).decoder, b).packets);
    }
  }

  /** A character the line assembler only appends. */
  predicate Plain(c: byte) {
    c != 0x06 && c != 0x09 && c != NEWLINE && c != 0x0d
  }

  lemma BtoaPlain(s: seq<byte>)
    ensures forall c <- Btoa(s) :: Plain(c)
  {
    BtoaText(s);
  }

  lemma {:induction false} FeedText(d: Decoder, text: seq<byte>)
    requires !d.overrun && |d.line| + |text| <= MAX_FRAME
    requires forall c <- text :: Plain(c)
    ensures Feed(d, text) == Fed(d.(line := d.line + text, last := if text == [] then d.last else text[|text| - 1]), [])
    decreases text
  {
    if text == [] {
      Empty(d.line);
    } else {
      var r := Step(d, text[0]);
      assert Plain(text[0]);
      assert r == Fed(d.(line := d.line + [text[0]], last := text[0]), []);
      FeedText(r.decoder, text[1..]);
      Assoc(d.line, [text[0]], text[1..]);
      assert [text[0]] + text[1..] == text;
    }
  }

  /** Between frames, with a partly assembled packet. */
  function AtRest(pkt: seq<byte>, want: word): Decoder {
    Decoder([], pkt, want, false, NEWLINE)
  }

  /** A line that is complete but for its newline. */
  lemma FeedNewline(d: Decoder)
    requires !d.overrun
    ensures Feed(d, [NEWLINE]) == Step(d, NEWLINE)
  {
    assert [NEWLINE][1..] == [];
    Empty(Step(d, NEWLINE).packets);
  }

  lemma FeedTwo(d: Decoder, a: byte, b: byte)
    ensures Feed(d, [a, b])
         == Extend(Step(d, a).packets, Step(Step(d, a).decoder, b))
  {
    assert [a, b][1..] == [b] && [b][1..] == [];
    Empty(Step(Step(d, a).decoder, b).packets);
  }

  /** The rest of a line, from just after its marker. */
  lemma FeedLine(d: Decoder, text: seq<byte>)
    requires !d.overrun && |d.line| + |text| <= MAX_FRAME
    requires forall c <- text :: Plain(c)
    ensures Feed(d, text + [NEWLINE]) == Step(d.(line := d.line + text), NEWLINE)
  {
    FeedConcat(d, text, [NEWLINE]);
    FeedText(d, text);
    FeedNewline(Feed(d, text).decoder);
    Empty(Step(d.(line := d.line + text), NEWLINE).packets);
  }

  lemma MarkerBytes()
    ensures Be16(HDR_PKT) == [0x06, 0x09]
    ensures Be16(HDR_FRAG) == [0x04, 0x14]
  {
  }

  lemma LineParts(marker: seq<byte>, text: seq<byte>)
    requires |marker| == 2
    ensures |marker + text| >= 2 && (marker + text)[0] == marker[0] && (marker + text)[1] == marker[1]
    ensures (marker + text)[2..] == text
  {
  }

  /** From any state at all, the packet marker starts a fresh line. */
  lemma AtMarker(d: Decoder)
    ensures var f := Feed(d, [0x06, 0x09]);
            f.packets == [] && f.decoder.line == [0x06, 0x09] && !f.decoder.overrun
  {
    hide OnLine;
    FeedTwo(d, 0x06, 0x09);
  }

  /** The newline after a packet's first frame starts that packet. */
  lemma FirstLine(e: Decoder, slice: seq<byte>)
    requires 2 <= |slice| && !e.overrun
    ensures Step(e.(line := [0x06, 0x09] + Btoa(slice)), NEWLINE) == Settle(AtRest(slice[2..], Word(slice[0], slice[1])))
  {
    hide Btoa, Atob, Crc;
    LineParts([0x06, 0x09], Btoa(slice));
    AtobBtoa(slice);
    Empty(slice);
  }

  /** From any state at all, the first frame of a packet starts that packet. */
  lemma FirstFrame(d: Decoder, slice: seq<byte>)
    requires 2 <= |slice| <= FIRST_INPUT
    ensures Feed(d, Frame(HDR_PKT, slice)) == Settle(AtRest(slice[2..], Word(slice[0], slice[1])))
  {
    hide Btoa, Feed, Step, Settle;
    var text := Btoa(slice);
    MarkerBytes();
    BtoaPlain(slice);
    BtoaText(slice);
    Assoc([0x06, 0x09], text, [NEWLINE]);
    FeedConcat(d, [0x06, 0x09], text + [NEWLINE]);
    AtMarker(d);
    var e := Feed(d, [0x06, 0x09]).decoder;
    FeedLine(e, text);
    FirstLine(e, slice);
    Empty(Feed(e, text + [NEWLINE]).packets);
  }

  /** A later frame adds its slice to the packet in progress. */
  lemma NextFrame(pkt: seq<byte>, want: word, slice: seq<byte>)
    requires want >= 2 && |slice| <= NEXT_INPUT
    ensures Feed(AtRest(pkt, want), Frame(HDR_FRAG, slice)) == Settle(AtRest(pkt + slice, want))
  {
    hide Btoa;
    var d, text := AtRest(pkt, want), Btoa(slice);
    MarkerBytes();
    BtoaPlain(slice);
    BtoaText(slice);
    Assoc([0x04, 0x14], text, [NEWLINE]);
    FeedConcat(d, [0x04, 0x14], text + [NEWLINE]);
    FeedTwo(d, 0x04, 0x14);
    var e := Feed(d, [0x04, 0x14]).decoder;
    FeedLine(e, text);
    LineParts([0x04, 0x14], text);
    AtobBtoa(slice);
    Empty(Feed(e, text + [NEWLINE]).packets);
  }

  /** Text that emits nothing only moves the decoder on. */
  lemma FeedThen(d: Decoder, a: seq<byte>, e: Decoder, b: seq<byte>)
    requires Feed(d, a) == Fed(e, [])
    ensures Feed(d, a + b) == Feed(e, b)
  {
    FeedConcat(d, a, b);
    Empty(Feed(e, b).packets);
  }

  /** The text of a packet's frames, one frame at a time. */
  lemma TextStep(pkt: seq<byte>, first: bool)
    requires pkt != []
    ensures Flatten(Frames(pkt, first))
         == Frame(Marker(first), pkt[..Take(first, |pkt|)]) + Flatten(Frames(pkt[Take(first, |pkt|)..], false))
  {
    FramesStep(pkt, first);
    var take := Take(first, |pkt|);
    var ss := Frames(pkt[take..], false);
    assert ([Frame(Marker(first), pkt[..take])] + ss)[1..] == ss;
  }

  lemma SettleShort(pkt: seq<byte>, want: word)
    requires |pkt| < want
    ensures Settle(AtRest(pkt, want)) == Fed(AtRest(pkt, want), [])
  {
  }

  /** The frames after the first complete the packet that the first one announced. */
  lemma {:induction false} LaterFrames(pkt: seq<byte>, want: word, rest: seq<byte>)
    requires rest != [] && want >= 2 && |pkt| + |rest| == want
    ensures Feed(AtRest(pkt, want), Flatten(Frames(rest, false))) == Settle(AtRest(pkt + rest, want))
    decreases |rest|
  {
    hide Frame, Settle;
    var take := Take(false, |rest|);
    var slice, after := rest[..take], rest[take..];
    var frame, more := Frame(HDR_FRAG, slice), Flatten(Frames(after, false));
    assert rest == slice + after;
    TextStep(rest, false);
    NextFrame(pkt, want, slice);
    if after == [] {
      Empty(slice);
      Empty(frame);
    } else {
      SettleShort(pkt + slice, want);
      FeedThen(AtRest(pkt, want), frame, AtRest(pkt + slice, want), more);
      LaterFrames(pkt + slice, want, after);
      Assoc(pkt, slice, after);
    }
  }

  /** A body with its own checksum settles to the body. */
  lemma SettleChecked(body: seq<byte>)
    requires |body| <= MAX_BODY
    ensures Settle(AtRest(body + Be(Crc(body)), |body| + 2)) == Fed(AtRest([], 0), [body])
  {
    var r := Be(Crc(body));
    assert r == [r[0], r[1]];
    ZeroResidue(body, r[0], r[1]);
    assert (body + r)[..|body|] == body;
  }

  /** The bytes of a packet up to where its first frame ends. */
  lemma PacketParts(body: seq<byte>)
    requires |body| <= MAX_BODY
    ensures |Packet(body)| == |body| + 4
    ensures Packet(body)[2..] == body + Be(Crc(body))
    ensures Word(Packet(body)[0], Packet(body)[1]) == |body| + 2
  {
  }

  lemma CutHead<T>(s: seq<T>, n: nat)
    requires 2 <= n <= |s|
    ensures |s[..n]| == n && s[..n][0] == s[0] && s[..n][1] == s[1]
    ensures s[..n][2..] + s[n..] == s[2..]
  {
  }

  /** A first frame and the frames after it. */
  lemma FirstThenLater(d: Decoder, slice: seq<byte>, after: seq<byte>, want: word)
    requires 2 <= |slice| <= FIRST_INPUT
    requires want >= 2 && Word(slice[0], slice[1]) == want == |slice| + |after| - 2
    ensures Feed(d, Frame(HDR_PKT, slice) + Flatten(Frames(after, false))) == Settle(AtRest(slice[2..] + after, want))
  {
    hide Frame, Settle;
    FirstFrame(d, slice);
    if after == [] {
      Empty(slice[2..]);
      Empty(Frame(HDR_PKT, slice));
    } else {
      SettleShort(slice[2..], want);
      FeedThen(d, Frame(HDR_PKT, slice), AtRest(slice[2..], want), Flatten(Frames(after, false)));
      LaterFrames(slice[2..], want, after);
    }
  }

  /** A packet whose length word is true is reassembled from any state. */
  lemma WholePacket(d: Decoder, pkt: seq<byte>)
    requires |pkt| >= 4 && Word(pkt[0], pkt[1]) == |pkt| - 2
    ensures Feed(d, Flatten(Frames(pkt, true))) == Settle(AtRest(pkt[2..], |pkt| - 2))
  {
    hide Frame, Frames, Settle, Feed;
    var take := Take(true, |pkt|);
    CutHead(pkt, take);
    TextStep(pkt, true);
    FirstThenLater(d, pkt[..take], pkt[take..], |pkt| - 2);
  }

  /**
   From every decoder state -- after any noise, mid-line, overrun, or with a packet half
   built -- feeding one encoded packet emits exactly that packet and leaves the decoder
   clean.
   */
  lemma RoundTrip(d: Decoder, body: seq<byte>)
    requires |body| <= MAX_BODY
    ensures Feed(d, Encoded(body)) == Fed(AtRest([], 0), [body])
  {
    PacketParts(body);
    WholePacket(d, Packet(body));
    SettleChecked(body);
  }

  /** Bodies sent back to back are received back to back. */
  lemma {:induction false} StreamRoundTrip(d: Decoder, bodies: seq<seq<byte>>)
    requires forall body <- bodies :: |body| <= MAX_BODY
    ensures Feed(d, EncodedAll(bodies)).packets == bodies
    decreases bodies
  {
    hide Encoded;
    if bodies != [] {
      RoundTrip(d, bodies[0]);
      FeedConcat(d, Encoded(bodies[0]), EncodedAll(bodies[1..]));
      StreamRoundTrip(AtRest([], 0), bodies[1..]);
    }
  }

  function EncodedAll(bodies: seq<seq<byte>>): seq<byte> {
    if bodies == [] then [] else Encoded(bodies[0]) + EncodedAll(bodies[1..])
  }

  lemma StepShort(d: Decoder, b: byte)
    ensures forall p <- Step(d, b).packets :: |p| <= MAX_BODY
  {
  }

  /** The length word is sixteen bits, so nothing longer is ever emitted, whatever is fed. */
  lemma {:induction false} FeedShort(d: Decoder, bytes: seq<byte>)
    ensures forall p <- Feed(d, bytes).packets :: |p| <= MAX_BODY
    decreases bytes
  {
    if bytes != [] {
      StepShort(d, bytes[0]);
      FeedShort(Step(d, bytes[0]).decoder, bytes[1..]);
    }
  }

  /** Exactly the bodies whose length word does not wrap come back. */
  lemma RoundTripIff(d: Decoder, body: seq<byte>)
    ensures Feed(d, Encoded(body)).packets == [body] <==> |body| <= MAX_BODY
  {
    if |body| <= MAX_BODY {
      RoundTrip(d, body);
    } else {
      FeedShort(d, Encoded(body));
      assert body !in Feed(d, Encoded(body)).packets;
      assert body in [body];
    }
  }

  // ----- the shape of what is sent

  /** A frame fits the limit, ends in a newline and holds no other, and spells 0x06 only in a packet marker. */
  predicate GoodFrame(f: seq<byte>, first: bool) {
    && 3 <= |f| <= MAX_FRAME
    && f[..2] == Be16(Marker(first))
    && f[|f| - 1] == NEWLINE
    && (forall i :: 2 <= i < |f| - 1 ==> Plain(f[i]))
  }

  lemma FrameShape(first: bool, slice: seq<byte>)
    requires |slice| <= if first then FIRST_INPUT else NEXT_INPUT
    ensures GoodFrame(Frame(Marker(first), slice), first)
  {
    var f, text := Frame(Marker(first), slice), Btoa(slice);
    BtoaPlain(slice);
    BtoaText(slice);
    assert forall i :: 2 <= i < |f| - 1 ==> f[i] == text[i - 2];
  }

  lemma {:induction false} FrameShapes(pkt: seq<byte>, first: bool)
    ensures forall i :: 0 <= i < |Frames(pkt, first)| ==> GoodFrame(Frames(pkt, first)[i], first && i == 0)
    decreases |pkt|
  {
    if pkt != [] {
      FramesStep(pkt, first);
      FrameShape(first, pkt[..Take(first, |pkt|)]);
      FrameShapes(pkt[Take(first, |pkt|)..], false);
    }
  }

  lemma {:induction false} NoSix(frames: seq<seq<byte>>)
    requires forall f <- frames :: GoodFrame(f, false)
    ensures 0x06 !in Flatten(frames)
  {
    if frames != [] {
      var f := frames[0];
      assert GoodFrame(f, false);
      assert f[0] == f[..2][0] && f[1] == f[..2][1];
      NoSix(frames[1..]);
    }
  }

  /** The resynchronisation pair occurs once in an encoded packet, at its very start. */
  lemma OneMarker(body: seq<byte>, i: nat)
    requires i + 1 < |Encoded(body)|
    ensures Encoded(body)[i] == 0x06 && Encoded(body)[i + 1] == 0x09 <==> i == 0
  {
    var fs := Frames(Packet(body), true);
    FrameShapes(Packet(body), true);
    FramesStep(Packet(body), true);
    var f := fs[0];
    MarkerBytes();
    assert f[0] == f[..2][0] && f[1] == f[..2][1];
    NoSix(fs[1..]);
    assert Encoded(body) == f + Flatten(fs[1..]);
    if i >= |f| {
      assert Encoded(body)[i] in Flatten(fs[1..]);
    }
  }
}
