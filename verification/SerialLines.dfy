/**
 The serial transport line by line: which bytes of a packet each frame carries, and what
 the decoder makes of a line of any length.
 */
module SerialLines {
  import opened Bits
  import opened Options
  import opened Base64
  import opened Seqs
  import opened SerialFraming
  import opened SerialRoundTrip
  import opened SerialSoundness

  // ----- the frames of a packet

  function Least(a: nat, b: nat): nat {
    if a < b then a else b
  }

  /** Where the bytes of frame `k` begin: 93 in the first, 90 in every other. */
  function Begins(k: nat): nat {
    if k == 0 then 0 else 93 + 90 * (k - 1)
  }

  lemma {:induction false} LaterFrames(pkt: seq<byte>, k: nat)
    ensures k < |Frames(pkt, false)| <==> 90 * k < |pkt|
    ensures 90 * k < |pkt| ==>
              Frames(pkt, false)[k] == [4, 20] + Btoa(pkt[90 * k..Least(90 * (k + 1), |pkt|)]) + [10]
    decreases |pkt|
  {
    hide Btoa;
    if pkt != [] {
      FramesStep(pkt, false);
      if k > 0 {
        LaterTail(pkt, k);
      }
    }
  }

  lemma {:induction false} LaterTail(pkt: seq<byte>, k: nat)
    requires pkt != [] && k > 0
    ensures var rest := pkt[Least(90, |pkt|)..];
            && (k - 1 < |Frames(rest, false)| <==> 90 * k < |pkt|)
            && (90 * k < |pkt| ==>
                  Frames(rest, false)[k - 1] == [4, 20] + Btoa(pkt[90 * k..Least(90 * (k + 1), |pkt|)]) + [10])
    decreases |pkt|, 0
  {
    hide Btoa, Frames;
    var rest := pkt[Least(90, |pkt|)..];
    LaterFrames(rest, k - 1);
    if 90 * k < |pkt| {
      assert rest[90 * (k - 1)..Least(90 * k, |rest|)] == pkt[90 * k..Least(90 * (k + 1), |pkt|)];
    }
  }

  lemma FirstTail(pkt: seq<byte>, k: nat)
    requires k > 0
    ensures var rest := pkt[Least(93, |pkt|)..];
            && (k - 1 < |Frames(rest, false)| <==> Begins(k) < |pkt|)
            && (Begins(k) < |pkt| ==>
                  Frames(rest, false)[k - 1]
                  == [4, 20] + Btoa(pkt[Begins(k)..Least(Begins(k + 1), |pkt|)]) + [10])
  {
    hide Btoa, Frames;
    var rest := pkt[Least(93, |pkt|)..];
    LaterFrames(rest, k - 1);
    if Begins(k) < |pkt| {
      assert rest[90 * (k - 1)..Least(90 * k, |rest|)] == pkt[Begins(k)..Least(Begins(k + 1), |pkt|)];
    }
  }

  lemma NoFrames()
    ensures Frames([], true) == []
  {
  }

  /**
   Every packet goes out as one 0x0609 line with its first 93 bytes and 0x0414 lines with
   90 each, the last with what is left, none of them empty.
   */
  lemma FramesAre(pkt: seq<byte>, k: nat)
    ensures k < |Frames(pkt, true)| <==> Begins(k) < |pkt|
    ensures Begins(k) < |pkt| ==>
              Frames(pkt, true)[k]
              == (if k == 0 then [6, 9] else [4, 20]) + Btoa(pkt[Begins(k)..Least(Begins(k + 1), |pkt|)]) + [10]
  {
    hide Btoa, Frames;
    NoFrames();
    if pkt != [] {
      FramesStep(pkt, true);
      if k > 0 {
        FirstTail(pkt, k);
      } else {
        FirstFrame(pkt);
      }
    }
  }

  lemma FirstFrame(pkt: seq<byte>)
    requires pkt != []
    ensures Frame(Marker(true), pkt[..Take(true, |pkt|)]) == [6, 9] + Btoa(pkt[0..Least(93, |pkt|)]) + [10]
  {
    hide Btoa;
    assert pkt[..Take(true, |pkt|)] == pkt[0..Least(93, |pkt|)];
  }

  // ----- a line received

  function Before(last: int, text: seq<byte>, i: nat): int
    requires i < |text|
  {
    if i == 0 then last else text[i - 1]
  }

  /** No newline, and the pair 0x06 0x09 nowhere but at the start of the line. */
  predicate OneLine(last: int, text: seq<byte>) {
    forall i :: 0 <= i < |text| ==>
      text[i] != 10 && (i == 1 || !(Before(last, text, i) == 6 && text[i] == 9))
  }

  function LastOf(last: int, text: seq<byte>): int {
    if text == [] then last else text[|text| - 1]
  }

  /** What the decoder holds of a line not yet ended. */
  function Holding(d: Decoder, text: seq<byte>): Decoder {
    var kept := StripCr(text);
    d.(line := if |kept| <= 127 then kept else [], overrun := |kept| > 127, last := LastOf(d.last, text))
  }

  lemma Holds(d: Decoder, text: seq<byte>, b: byte)
    requires OneLine(d.last, text + [b])
    ensures Step(Holding(d, text), b) == Fed(Holding(d, text + [b]), [])
  {
    hide OnLine;
    var more := text + [b];
    assert more[..|text|] == text && more[|text|] == b;
    assert Before(d.last, more, |text|) == LastOf(d.last, text);
    if |text| == 1 && text[0] == 6 && b == 9 {
      assert text[..0] == [] && StripCr(text) == [6];
    }
  }

  lemma FeedOne(d: Decoder, b: byte)
    ensures Feed(d, [b]) == Step(d, b)
  {
    assert [b][1..] == [];
    Empty(Step(d, b).packets);
  }

  lemma {:induction false} LineHeld(d: Decoder, text: seq<byte>)
    requires d.line == [] && !d.overrun && OneLine(d.last, text)
    ensures Feed(d, text) == Fed(Holding(d, text), [])
  {
    hide Step, Holding, OneLine;
    if text == [] {
      NothingHeld(d);
    } else {
      var before, b := text[..|text| - 1], text[|text| - 1];
      assert text == before + [b];
      Shorter(d.last, before, b);
      LineHeld(d, before);
      FeedConcat(d, before, [b]);
      FeedOne(Holding(d, before), b);
      Holds(d, before, b);
    }
  }

  lemma NothingHeld(d: Decoder)
    requires d.line == [] && !d.overrun
    ensures Holding(d, []) == d && Feed(d, []) == Fed(d, [])
  {
  }

  lemma Shorter(last: int, text: seq<byte>, b: byte)
    requires OneLine(last, text + [b])
    ensures OneLine(last, text)
  {
    var more := text + [b];
    forall i | 0 <= i < |text|
      ensures text[i] != 10 && (i == 1 || !(Before(last, text, i) == 6 && text[i] == 9))
    {
      assert text[i] == more[i] && Before(last, text, i) == Before(last, more, i);
    }
  }

  /**
   A whole line, carriage returns apart, is taken if it has at most 127 bytes; a longer one
   is passed over and disturbs nothing, not even a packet half received.
   */
  lemma LineIs(d: Decoder, text: seq<byte>)
    requires d.line == [] && !d.overrun && OneLine(d.last, text)
    ensures var line := StripCr(text);
            Feed(d, text + [10])
            == if |line| > 127 then Fed(d.(last := 10), [])
               else
                 var r := OnLine(d.(line := line, last := 10), line);
                 Fed(r.decoder.(line := []), r.packets)
  {
    hide OnLine, StripCr, OneLine;
    LineHeld(d, text);
    FeedConcat(d, text, [10]);
    FeedOne(Holding(d, text), 10);
    Empty(Step(Holding(d, text), 10).packets);
  }
}
