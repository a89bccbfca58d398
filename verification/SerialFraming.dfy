/**
 mcumgr's serial framing: a packet is a length word, a body and a checksum, carried
 in newline-terminated base64 frames. The encoder slices a packet into frames; the
 decoder reassembles packets out of a byte stream that also carries noise.
 */
module SerialFraming {
  import opened Bits
  import opened Options
  import opened Base64
  import opened Crc16
  import opened Seqs

  const HDR_PKT: word := 0x0609
  const HDR_FRAG: word := 0x0414
  const MAX_FRAME: nat := 127
  const FIRST_INPUT: nat := (MAX_FRAME - 3) / 4 * 3
  const NEXT_INPUT: nat := FIRST_INPUT - 3
  const NEWLINE: byte := 0x0a

  /** The longest body whose length word does not wrap. */
  const MAX_BODY: nat := 65533

  // ----- encoder

  /** The length word counts the checksum but not itself, and is sixteen bits wide. */
  function Packet(body: seq<byte>): seq<byte> {
    Be16((|body| + 2) % 0x1_0000) + body + Be(Crc(body))
  }

  function Frame(marker: word, slice: seq<byte>): seq<byte> {
    Be16(marker) + Btoa(slice) + [NEWLINE]
  }

  /** How much of `n` remaining packet bytes the next frame carries. */
  function Take(first: bool, n: nat): (t: nat)
    ensures t <= n && (n > 0 ==> t > 0) && (t < n ==> t >= 2)
    ensures t <= if first then FIRST_INPUT else NEXT_INPUT
  {
    var cap := if first then FIRST_INPUT else NEXT_INPUT;
    if cap < n then cap else n
  }

  function Marker(first: bool): word {
    if first then HDR_PKT else HDR_FRAG
  }

  /** The frames that carry `pkt`, the first or a later part of a packet. */
  function Frames(pkt: seq<byte>, first: bool): seq<seq<byte>>
    decreases |pkt|
  {
    if pkt == [] then []
    else
      var take := Take(first, |pkt|);
      [Frame(Marker(first), pkt[..take])] + Frames(pkt[take..], false)
  }

  function Encoded(body: seq<byte>): seq<byte> {
    Flatten(Frames(Packet(body), true))
  }

  lemma FramesStep(pkt: seq<byte>, first: bool)
    requires pkt != []
    ensures Frames(pkt, first)
         == [Frame(Marker(first), pkt[..Take(first, |pkt|)])] + Frames(pkt[Take(first, |pkt|)..], false)
  {
  }

  lemma NothingLeft(pkt: seq<byte>)
    ensures pkt[0..] == pkt && pkt[|pkt|..] == []
    ensures Frames([], true) == Frames([], false) == [] && Flatten<byte>([]) == []
  {
  }

  method EncodePacket(body: seq<byte>) returns (text: seq<byte>)
    ensures text == Encoded(body)
  {
    var crc := Compute(body);
    text := Slice(Be16((|body| + 2) % 0x1_0000) + body + Be(crc));
  }

  /** The loop that cuts a packet into frames. */
  method Slice(pkt: seq<byte>) returns (text: seq<byte>)
    ensures text == Flatten(Frames(pkt, true))
  {
    hide Frame, Frames, Flatten, Marker, Take;
    NothingLeft(pkt);
    text := [];
    var off := 0;
    var first := true;
    ghost var all := Frames(pkt, first);
    ghost var done: seq<seq<byte>> := [];
    Empty(all);
    while off < |pkt|
      invariant 0 <= off <= |pkt|
      invariant text == Flatten(done)
      invariant all == done + Frames(pkt[off..], first)
    {
      var take := Take(first, |pkt| - off);
      var frame := Frame(Marker(first), pkt[off..off + take]);
      CutRest(pkt, off, take);
      FramesStep(pkt[off..], first);
      Assoc(done, [frame], Frames(pkt[off + take..], false));
      FlattenAppend(done, frame);
      done := done + [frame];
      text := text + frame;
      off := off + take;
      first := false;
    }
    Empty(done);
  }

  // ----- decoder

  /** `last` is the previous byte, or -1 before the first. */
  datatype Decoder = Decoder(line: seq<byte>, pkt: seq<byte>, want: word, overrun: bool, last: int)

  const FRESH := Decoder([], [], 0, false, -1)

  datatype Fed = Fed(decoder: Decoder, packets: seq<seq<byte>>)

  function Cleared(d: Decoder): Decoder {
    d.(pkt := [], want := 0)
  }

  /** Is the packet complete, and does it check? */
  function Settle(d: Decoder): Fed {
    if d.want < 2 || |d.pkt| < d.want then Fed(d, [])
    else if |d.pkt| > d.want || Crc(d.pkt) != Zeros(16) then Fed(Cleared(d), [])
    else Fed(Cleared(d), [d.pkt[..d.want - 2]])
  }

  /** A frame's text, once its marker has been judged. */
  function OnPayload(d: Decoder, first: bool, text: seq<byte>): Fed {
    match Atob(text)
    case None => Fed(Cleared(d), [])
    case Some(bytes) =>
      var pkt := d.pkt + bytes;
      if first && |pkt| < 2 then Fed(d.(pkt := pkt), [])
      else
        Settle(if first then d.(pkt := pkt[2..], want := Word(pkt[0], pkt[1])) else d.(pkt := pkt))
  }

  function OnLine(d: Decoder, line: seq<byte>): Fed {
    if |line| < 2 then Fed(d, [])
    else
      var marker := Word(line[0], line[1]);
      if marker == HDR_PKT then OnPayload(Cleared(d), true, line[2..])
      else if marker != HDR_FRAG then Fed(d, [])
      else if d.pkt == [] && d.want == 0 then Fed(d, [])
      else OnPayload(d, false, line[2..])
  }

  function Step(d: Decoder, b: byte): Fed {
    if d.last == 0x06 && b == 0x09 then
      Fed(d.(overrun := false, line := [0x06, 0x09], last := b), [])
    else if b == NEWLINE then
      if d.overrun then Fed(d.(overrun := false, line := [], last := b), [])
      else
        var r := OnLine(d.(last := b), d.line);
        r.(decoder := r.decoder.(line := []))
    else if b == 0x0d || d.overrun then Fed(d.(last := b), [])
    else if |d.line| < MAX_FRAME then Fed(d.(line := d.line + [b], last := b), [])
    else Fed(d.(overrun := true, line := [], last := b), [])
  }

  function Feed(d: Decoder, bytes: seq<byte>): Fed
    decreases bytes
  {
    if bytes == [] then Fed(d, [])
    else
      var r := Step(d, bytes[0]);
      var s := Feed(r.decoder, bytes[1..]);
      Fed(s.decoder, r.packets + s.packets)
  }

  function Extend(done: seq<seq<byte>>, r: Fed): Fed {
    r.(packets := done + r.packets)
  }

  lemma FeedStep(d: Decoder, bytes: seq<byte>)
    requires bytes != []
    ensures Feed(d, bytes) == Extend(Step(d, bytes[0]).packets, Feed(Step(d, bytes[0]).decoder, bytes[1..]))
  {
  }

  /** The reassembler, its fields updated byte by byte. */
  class Framer {
    var line: seq<byte>
    var pkt: seq<byte>
    var want: word
    var overrun: bool
    var last: int

    ghost function State(): Decoder
      reads this
    {
      Decoder(line, pkt, want, overrun, last)
    }

    constructor ()
      ensures State() == FRESH
    {
      line, pkt, want, overrun, last := [], [], 0, false, -1;
    }

    method FeedChunk(chunk: seq<byte>) returns (done: seq<seq<byte>>)
      modifies this
      ensures Fed(State(), done) == Feed(old(State()), chunk)
    {
      hide Step;
      done := [];
      for k := 0 to |chunk|
        invariant Extend(done, Feed(State(), chunk[k..])) == Feed(old(State()), chunk)
      {
        assert chunk[k..][0] == chunk[k] && chunk[k..][1..] == chunk[k + 1..];
        FeedStep(State(), chunk[k..]);
        var packets := FeedByte(chunk[k]);
        done := done + packets;
      }
      assert chunk[|chunk|..] == [];
    }

    method FeedByte(b: byte) returns (packets: seq<seq<byte>>)
      modifies this
      ensures Fed(State(), packets) == Step(old(State()), b)
    {
      hide OnLine;
      packets := [];
      if last == 0x06 && b == 0x09 {
        overrun, line, last := false, [0x06, 0x09], b;
        return;
      }
      last := b;
      if b == NEWLINE {
        if overrun {
          overrun, line := false, [];
          return;
        }
        var packet := Line(line);
        line := [];
        if packet.Some? {
          packets := [packet.value];
        }
      } else if b != 0x0d && !overrun {
        if |line| < MAX_FRAME {
          line := line + [b];
        } else {
          overrun, line := true, [];
        }
      }
    }

    method Line(text: seq<byte>) returns (packet: Option<seq<byte>>)
      modifies this
      ensures OnLine(old(State()), text) == Fed(State(), if packet.Some? then [packet.value] else [])
    {
      hide Atob, Crc;
      packet := None;
      if |text| < 2 {
        return;
      }
      var marker := Word(text[0], text[1]);
      if marker == HDR_PKT {
        pkt, want := [], 0;
      } else if marker != HDR_FRAG || (pkt == [] && want == 0) {
        return;
      }
      var bytes := Atob(text[2..]);
      if bytes.None? {
        Reset();
        return;
      }
      pkt := pkt + bytes.value;
      if marker == HDR_PKT {
        if |pkt| < 2 {
          return;
        }
        want, pkt := Word(pkt[0], pkt[1]), pkt[2..];
      }
      if want < 2 || |pkt| < want {
        return;
      }
      if |pkt| > want {
        Reset();
        return;
      }
      var full := pkt;
      Reset();
      var crc := Compute(full);
      if crc == Zeros(16) {
        packet := Some(full[..|full| - 2]);
      }
    }

    method Reset()
      modifies this
      ensures State() == Cleared(old(State()))
    {
      pkt, want := [], 0;
    }
  }

}
