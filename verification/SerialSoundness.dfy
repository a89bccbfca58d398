/**
 Every packet the decoder emits, over any byte stream whatsoever, is accounted for by
 lines of that stream.
 */
module SerialSoundness {
  import opened Bits
  import opened Options
  import opened Base64
  import opened Crc16
  import opened Seqs
  import opened SerialFraming
  import opened SerialRoundTrip

  /** A stretch of the stream, up to but not including index `to`. */
  datatype Span = Span(from: nat, to: nat)

  function StripCr(s: seq<byte>): seq<byte> {
    if s == [] then []
    else StripCr(s[..|s| - 1]) + (if s[|s| - 1] == 0x0d then [] else [s[|s| - 1]])
  }

  /** A stretch that holds no newline and is followed by one. */
  predicate IsLine(stream: seq<byte>, sp: Span) {
    && sp.from <= sp.to < |stream|
    && stream[sp.to] == NEWLINE
    && NEWLINE !in stream[sp.from..sp.to]
  }

  function LineText(stream: seq<byte>, sp: Span): seq<byte>
    requires sp.from <= sp.to <= |stream|
  {
    StripCr(stream[sp.from..sp.to])
  }

  /** The line at `sp` is a frame with this marker, carrying `part`. */
  predicate IsFrame(stream: seq<byte>, sp: Span, first: bool, part: seq<byte>) {
    && IsLine(stream, sp)
    && var text := LineText(stream, sp);
    && |text| >= 2
    && text[..2] == Be16(Marker(first))
    && Atob(text[2..]) == Some(part)
  }

  /** Lines of the stream, in order and apart, and what each carries. */
  datatype Evidence = Evidence(spans: seq<Span>, parts: seq<seq<byte>>)

  predicate Holds(stream: seq<byte>, ev: Evidence) {
    && |ev.spans| == |ev.parts| >= 1
    && (forall i :: 0 <= i < |ev.spans| ==> IsFrame(stream, ev.spans[i], i == 0, ev.parts[i]))
    && (forall i :: 0 < i < |ev.spans| ==> ev.spans[i - 1].to < ev.spans[i].from)
  }

  /** Where the last line of the evidence ends. */
  function EndOf(ev: Evidence): int {
    if ev.spans == [] then -1 else ev.spans[|ev.spans| - 1].to
  }

  function StartOf(ev: Evidence): nat {
    if ev.spans == [] then 0 else ev.spans[0].from
  }

  /** The evidence spells the length word, the packet and the packet's checksum. */
  predicate Explains(stream: seq<byte>, ev: Evidence, packet: seq<byte>) {
    && Holds(stream, ev)
    && |packet| <= MAX_BODY
    && Flatten(ev.parts) == Be16(|packet| + 2) + packet + Be(Crc(packet))
  }

  /** One evidence for each packet, no line used twice and none out of order. */
  predicate ExplainsAll(stream: seq<byte>, evs: seq<Evidence>, packets: seq<seq<byte>>) {
    && |evs| == |packets|
    && (forall k :: 0 <= k < |evs| ==> Explains(stream, evs[k], packets[k]))
    && (forall k :: 0 < k < |evs| ==> EndOf(evs[k - 1]) < StartOf(evs[k]))
  }

  // ----- a longer stream keeps the evidence of a shorter one

  lemma FrameGrows(stream: seq<byte>, b: byte, sp: Span, first: bool, part: seq<byte>)
    requires IsFrame(stream, sp, first, part)
    ensures IsFrame(stream + [b], sp, first, part)
  {
    assert (stream + [b])[sp.from..sp.to] == stream[sp.from..sp.to];
  }

  lemma HoldsGrows(stream: seq<byte>, b: byte, ev: Evidence)
    requires Holds(stream, ev)
    ensures Holds(stream + [b], ev)
  {
    hide IsFrame;
    forall i | 0 <= i < |ev.spans|
      ensures IsFrame(stream + [b], ev.spans[i], i == 0, ev.parts[i])
    {
      FrameGrows(stream, b, ev.spans[i], i == 0, ev.parts[i]);
    }
  }

  lemma ExplainsAllGrows(stream: seq<byte>, b: byte, evs: seq<Evidence>, packets: seq<seq<byte>>)
    requires ExplainsAll(stream, evs, packets)
    ensures ExplainsAll(stream + [b], evs, packets)
  {
    hide Holds;
    forall k | 0 <= k < |evs|
      ensures Explains(stream + [b], evs[k], packets[k])
    {
      HoldsGrows(stream, b, evs[k]);
    }
  }

  // ----- the invariant of a run

  /**
   `start` is where the current line began, `open` accounts for the packet in progress,
   and `closed` for the packets emitted.
   */
  datatype Account = Account(start: nat, open: Evidence, closed: seq<Evidence>)

  predicate LineOk(stream: seq<byte>, d: Decoder, start: nat) {
    && start <= |stream|
    && NEWLINE !in stream[start..]
    && (!d.overrun ==> d.line == StripCr(stream[start..]))
    && d.last == (if stream == [] then -1 else stream[|stream| - 1])
    && |d.line| <= MAX_FRAME
  }

  /** Where the emitted packets' lines end. */
  function ClosedEnd(evs: seq<Evidence>): int {
    if evs == [] then -1 else EndOf(evs[|evs| - 1])
  }

  /** The packet in progress: sound evidence, after the closed lines and before this one. */
  predicate OpenOk(stream: seq<byte>, d: Decoder, ac: Account) {
    && Holds(stream, ac.open)
    && EndOf(ac.open) < ac.start
    && ClosedEnd(ac.closed) < StartOf(ac.open)
    && Flatten(ac.open.parts) == Be16(d.want) + d.pkt
  }

  predicate ClosedOk(stream: seq<byte>, packets: seq<seq<byte>>, ac: Account) {
    && ExplainsAll(stream, ac.closed, packets)
    && ClosedEnd(ac.closed) < ac.start
  }

  predicate Accounts(stream: seq<byte>, r: Fed, ac: Account) {
    && LineOk(stream, r.decoder, ac.start)
    && ClosedOk(stream, r.packets, ac)
    && (r.decoder.want >= 2 ==> OpenOk(stream, r.decoder, ac))
  }

  lemma FeedLast(d: Decoder, stream: seq<byte>, b: byte)
    ensures var r := Feed(d, stream);
            Feed(d, stream + [b]) == Extend(r.packets, Step(r.decoder, b))
  {
    FeedConcat(d, stream, [b]);
    assert [b][1..] == [];
    Empty(Step(Feed(d, stream).decoder, b).packets);
  }

  lemma StripCrLast(s: seq<byte>, b: byte)
    ensures StripCr(s + [b]) == StripCr(s) + (if b == 0x0d then [] else [b])
  {
    assert (s + [b])[..|s|] == s;
  }

  lemma Suffix<T>(s: seq<T>, b: T, start: nat)
    requires start <= |s|
    ensures (s + [b])[start..] == s[start..] + [b]
    ensures (s + [b])[start..|s|] == s[start..]
    ensures (s + [b])[|s| + 1..] == []
  {
  }

  /** The marker pair starts a line of its own, at its first byte. */
  lemma MarkerLine(stream: seq<byte>)
    requires stream != [] && stream[|stream| - 1] == 0x06
    ensures var now := (stream + [0x09])[|stream| - 1..]; NEWLINE !in now && StripCr(now) == [0x06, 0x09]
  {
    assert (stream + [0x09])[|stream| - 1..] == [] + [0x06] + [0x09];
    StripCrLast([], 0x06);
    StripCrLast([] + [0x06], 0x09);
  }

  /** Any other byte lengthens the line it is in. */
  lemma LongerLine(stream: seq<byte>, b: byte, start: nat)
    requires start <= |stream| && NEWLINE !in stream[start..] && b != NEWLINE
    ensures var now := (stream + [b])[start..];
            NEWLINE !in now && StripCr(now) == if b == 0x0d then StripCr(stream[start..]) else StripCr(stream[start..]) + [b]
  {
    Suffix(stream, b, start);
    StripCrLast(stream[start..], b);
    Empty(StripCr(stream[start..]));
  }

  /** Bytes that do not end a line. */
  lemma WithinLine(stream: seq<byte>, d: Decoder, b: byte, start: nat) returns (start': nat)
    requires LineOk(stream, d, start) && b != NEWLINE
    ensures LineOk(stream + [b], Step(d, b).decoder, start')
    ensures StartsLater(stream, start, start')
    ensures Step(d, b).packets == []
    ensures Step(d, b).decoder.want == d.want && Step(d, b).decoder.pkt == d.pkt
  {
    hide StripCr, OnLine;
    if d.last == 0x06 && b == 0x09 {
      start' := |stream| - 1;
      MarkerLine(stream);
    } else {
      start' := start;
      LongerLine(stream, b, start);
    }
  }

  /** A new line starts after every line accounted for, even one that starts at a marker. */
  predicate StartsLater(stream: seq<byte>, from: nat, from': nat) {
    from' >= from || (from' + 1 == |stream| && stream[from'] == 0x06)
  }

  lemma ClosedCarries(stream: seq<byte>, b: byte, packets: seq<seq<byte>>, ac: Account, start': nat)
    requires ClosedOk(stream, packets, ac) && StartsLater(stream, ac.start, start')
    ensures ClosedOk(stream + [b], packets, ac.(start := start'))
  {
    hide ExplainsAll;
    ExplainsAllGrows(stream, b, ac.closed, packets);
    ClosedEndIsNewline(stream, ac.closed, packets);
  }

  lemma OpenCarries(stream: seq<byte>, b: byte, d: Decoder, ac: Account, start': nat)
    requires OpenOk(stream, d, ac) && StartsLater(stream, ac.start, start')
    ensures OpenOk(stream + [b], d, ac.(start := start'))
  {
    hide Holds;
    HoldsGrows(stream, b, ac.open);
    EndIsNewline(stream, ac.open);
  }

  /** What one step leaves alone is still accounted for. */
  lemma CarryOver(stream: seq<byte>, b: byte, r: Fed, ac: Account, start': nat)
    requires ClosedOk(stream, r.packets, ac)
    requires r.decoder.want >= 2 ==> OpenOk(stream, r.decoder, ac)
    requires StartsLater(stream, ac.start, start')
    ensures ClosedOk(stream + [b], r.packets, ac.(start := start'))
    ensures r.decoder.want >= 2 ==> OpenOk(stream + [b], r.decoder, ac.(start := start'))
  {
    hide ClosedOk, OpenOk;
    ClosedCarries(stream, b, r.packets, ac, start');
    if r.decoder.want >= 2 {
      OpenCarries(stream, b, r.decoder, ac, start');
    }
  }

  lemma EndIsNewline(stream: seq<byte>, ev: Evidence)
    requires Holds(stream, ev)
    ensures 0 <= EndOf(ev) < |stream| && stream[EndOf(ev)] == NEWLINE
  {
    assert IsFrame(stream, ev.spans[|ev.spans| - 1], |ev.spans| == 1, ev.parts[|ev.spans| - 1]);
  }

  lemma ClosedEndIsNewline(stream: seq<byte>, evs: seq<Evidence>, packets: seq<seq<byte>>)
    requires ExplainsAll(stream, evs, packets)
    ensures ClosedEnd(evs) == -1 || (0 <= ClosedEnd(evs) < |stream| && stream[ClosedEnd(evs)] == NEWLINE)
  {
    hide Holds;
    if evs != [] {
      var k := |evs| - 1;
      assert Explains(stream, evs[k], packets[k]);
      EndIsNewline(stream, evs[k]);
    }
  }

  // ----- a completed line

  /** A packet marker opens fresh evidence. */
  lemma OpenFirst(stream: seq<byte>, sp: Span, part: seq<byte>) returns (ev: Evidence)
    requires IsFrame(stream, sp, true, part)
    ensures Holds(stream, ev) && ev.spans == [sp] && Flatten(ev.parts) == part
  {
    ev := Evidence([sp], [part]);
    assert [part][1..] == [];
    Empty(part);
  }

  /** A continuation extends the evidence in progress. */
  lemma OpenNext(stream: seq<byte>, prev: Evidence, sp: Span, part: seq<byte>) returns (ev: Evidence)
    requires Holds(stream, prev) && IsFrame(stream, sp, false, part) && EndOf(prev) < sp.from
    ensures Holds(stream, ev) && EndOf(ev) == sp.to && ev.spans[0] == prev.spans[0]
    ensures Flatten(ev.parts) == Flatten(prev.parts) + part
  {
    hide IsFrame;
    ev := Evidence(prev.spans + [sp], prev.parts + [part]);
    FlattenAppend(prev.parts, part);
  }

  /** Evidence that settles into a packet explains it. */
  lemma SettleExplains(stream: seq<byte>, d: Decoder, ev: Evidence)
    requires Holds(stream, ev) && Flatten(ev.parts) == Be16(d.want) + d.pkt
    requires Settle(d).packets != []
    ensures Explains(stream, ev, Settle(d).packets[0]) && |Settle(d).packets| == 1
    ensures Settle(d).decoder.want == 0
  {
    hide Holds;
    var p := d.pkt[..d.want - 2];
    var hi, lo := d.pkt[d.want - 2], d.pkt[d.want - 1];
    assert d.pkt == p + [hi, lo];
    ZeroResidue(p, hi, lo);
    Assoc(Be16(d.want), p, Be(Crc(p)));
  }

  lemma CloseOne(stream: seq<byte>, packets: seq<seq<byte>>, ac: Account, p: seq<byte>)
    requires ClosedOk(stream, packets, ac)
    requires Explains(stream, ac.open, p) && ClosedEnd(ac.closed) < StartOf(ac.open) && EndOf(ac.open) < ac.start
    ensures ClosedOk(stream, packets + [p], ac.(closed := ac.closed + [ac.open]))
  {
    hide Explains;
    var evs := ac.closed + [ac.open];
    forall k | 0 <= k < |evs|
      ensures Explains(stream, evs[k], (packets + [p])[k])
    {
      assert k < |ac.closed| ==> evs[k] == ac.closed[k] && (packets + [p])[k] == packets[k];
    }
    forall k | 0 < k < |evs|
      ensures EndOf(evs[k - 1]) < StartOf(evs[k])
    {
      assert evs[k - 1] == ac.closed[k - 1];
    }
  }

  /** Settling either emits, keeps assembling with the same evidence, or starts over. */
  lemma AfterSettle(stream: seq<byte>, packets: seq<seq<byte>>, d: Decoder, ac: Account) returns (ac': Account)
    requires ClosedOk(stream, packets, ac) && OpenOk(stream, d, ac)
    ensures ac'.start == ac.start
    ensures ClosedOk(stream, packets + Settle(d).packets, ac')
    ensures Settle(d).decoder.want >= 2 ==> OpenOk(stream, Settle(d).decoder, ac')
  {
    hide Holds, ExplainsAll, Explains;
    if Settle(d).packets == [] {
      Empty(packets);
      ac' := ac;
    } else {
      SettleExplains(stream, d, ac.open);
      CloseOne(stream, packets, ac, Settle(d).packets[0]);
      ac' := ac.(closed := ac.closed + [ac.open]);
    }
  }

  lemma WordBytes(w: word, a: byte, b: byte)
    requires w == Word(a, b)
    ensures Be16(w) == [a, b]
  {
  }

  lemma OnFirst(stream: seq<byte>, r: Fed, ac: Account, sp: Span, text: seq<byte>) returns (ac': Account)
    requires ClosedOk(stream, r.packets, ac)
    requires IsLine(stream, sp) && text == LineText(stream, sp) && |text| >= 2 && text[..2] == Be16(HDR_PKT)
    requires ClosedEnd(ac.closed) < sp.from
    requires sp.to < ac.start
    ensures ac'.start == ac.start
    ensures var s := OnPayload(Cleared(r.decoder), true, text[2..]);
            && ClosedOk(stream, r.packets + s.packets, ac')
            && (s.decoder.want >= 2 ==> OpenOk(stream, s.decoder, ac'))
  {
    hide Holds, ExplainsAll, Atob;
    var bytes := Atob(text[2..]);
    Empty(r.packets);
    ac' := ac;
    if bytes.Some? && |bytes.value| >= 2 {
      var part := bytes.value;
      Empty(part);
      var ev := OpenFirst(stream, sp, part);
      var d := r.decoder.(pkt := part[2..], want := Word(part[0], part[1]));
      WordBytes(d.want, part[0], part[1]);
      assert part == [part[0], part[1]] + part[2..];
      ac' := AfterSettle(stream, r.packets, d, ac.(open := ev));
    }
  }

  lemma OnNext(stream: seq<byte>, r: Fed, ac: Account, sp: Span, text: seq<byte>) returns (ac': Account)
    requires ClosedOk(stream, r.packets, ac)
    requires r.decoder.want >= 2 ==> OpenOk(stream, r.decoder, ac) && EndOf(ac.open) < sp.from
    requires IsLine(stream, sp) && text == LineText(stream, sp) && |text| >= 2 && text[..2] == Be16(HDR_FRAG)
    requires sp.to < ac.start
    ensures ac'.start == ac.start
    ensures var s := OnPayload(r.decoder, false, text[2..]);
            && ClosedOk(stream, r.packets + s.packets, ac')
            && (s.decoder.want >= 2 ==> OpenOk(stream, s.decoder, ac'))
  {
    hide Holds, ExplainsAll, Atob;
    var bytes := Atob(text[2..]);
    Empty(r.packets);
    ac' := ac;
    if bytes.Some? && r.decoder.want >= 2 {
      var ev := OpenNext(stream, ac.open, sp, bytes.value);
      var d := r.decoder.(pkt := r.decoder.pkt + bytes.value);
      Assoc(Be16(d.want), r.decoder.pkt, bytes.value);
      ac' := AfterSettle(stream, r.packets, d, ac.(open := ev));
    }
  }

  /** Judging a line's text touches only the packet in progress. */
  lemma OnlyPacket(d: Decoder, first: bool, text: seq<byte>)
    ensures var e := OnPayload(d, first, text).decoder;
            e == d.(pkt := e.pkt, want := e.want)
  {
  }

  /** A completed line, whatever it holds. */
  lemma AtNewline(stream: seq<byte>, r: Fed, ac: Account) returns (ac': Account)
    requires Accounts(stream, r, ac)
    ensures Accounts(stream + [NEWLINE], Extend(r.packets, Step(r.decoder, NEWLINE)), ac')
  {
    hide Holds, ExplainsAll, OnPayload, Atob;
    var longer, n := stream + [NEWLINE], |stream|;
    var d := r.decoder;
    var text := d.line;
    var sp := Span(ac.start, n);
    Suffix(stream, NEWLINE, ac.start);
    CarryOver(stream, NEWLINE, r, ac, n + 1);
    ac' := ac.(start := n + 1);
    Empty(r.packets);
    if !d.overrun && |text| >= 2 {
      var q := Fed(d.(last := NEWLINE), r.packets);
      var marker := Word(text[0], text[1]);
      WordBytes(marker, text[0], text[1]);
      assert text[..2] == [text[0], text[1]];
      OnlyPacket(Cleared(q.decoder), true, text[2..]);
      OnlyPacket(q.decoder, false, text[2..]);
      if marker == HDR_PKT {
        ac' := OnFirst(longer, q, ac', sp, text);
      } else if marker == HDR_FRAG && !(d.pkt == [] && d.want == 0) {
        ac' := OnNext(longer, q, ac', sp, text);
      }
    }
  }

  lemma {:induction false} Audit(stream: seq<byte>) returns (ac: Account)
    ensures Accounts(stream, Feed(FRESH, stream), ac)
  {
    hide Step, Holds;
    if stream == [] {
      ac := Account(0, Evidence([], []), []);
    } else {
      var s, b := stream[..|stream| - 1], stream[|stream| - 1];
      assert s + [b] == stream;
      var r := Feed(FRESH, s);
      var before := Audit(s);
      FeedLast(FRESH, s, b);
      if b == NEWLINE {
        ac := AtNewline(s, r, before);
      } else {
        var start' := WithinLine(s, r.decoder, b, before.start);
        CarryOver(s, b, r, before, start');
        Empty(r.packets);
        ac := before.(start := start');
      }
    }
  }

  /**
   Over any stream, every packet emitted is spelled out by a 0x0609 line and 0x0414 lines
   after it, length word and checksum included, and no line serves two packets.
   */
  lemma Sound(stream: seq<byte>)
    ensures exists evs :: ExplainsAll(stream, evs, Feed(FRESH, stream).packets)
  {
    var ac := Audit(stream);
  }

  /** However much noise arrives, the line buffer holds at most one frame. */
  lemma LineBounded(stream: seq<byte>)
    ensures |Feed(FRESH, stream).decoder.line| <= MAX_FRAME
  {
    var ac := Audit(stream);
  }
}
