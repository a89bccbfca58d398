/**
 The manual pairing code as it is printed, four digits, three and four, and what reading
 any eleven digits makes of them.
 */
module ManualReading {
  import opened Options
  import opened Verhoeff
  import opened PairingCodes

  function Letter(d: digit): char {
    ('0' as int + d) as char
  }

  function Shown(s: seq<digit>): (r: string)
    ensures |r| == |s|
  {
    if s == [] then [] else [Letter(s[0])] + Shown(s[1..])
  }

  /** The code with its dashes. */
  function Grouped(code: seq<digit>): string {
    var text := Shown(code);
    if |text| < 7 then text else text[..4] + "-" + text[4..7] + "-" + text[7..]
  }

  lemma {:induction false} DigitsConcat(a: string, b: string)
    ensures Digits(a + b) == Digits(a) + Digits(b)
  {
    if a == [] {
      assert a + b == b;
    } else {
      assert (a + b)[1..] == a[1..] + b;
      DigitsConcat(a[1..], b);
    }
  }

  lemma {:induction false} DigitsShown(s: seq<digit>)
    ensures Digits(Shown(s)) == s
  {
    if s != [] {
      DigitsShown(s[1..]);
      assert Shown(s)[1..] == Shown(s[1..]);
      assert s == [s[0]] + s[1..];
    }
  }

  lemma Dash()
    ensures Digits("-") == []
  {
    assert "-"[1..] == [];
  }

  lemma DigitsGrouped(code: seq<digit>)
    ensures Digits(Grouped(code)) == code
  {
    hide Digits, Shown;
    var text := Shown(code);
    DigitsShown(code);
    Dash();
    if |text| >= 7 {
      var a, b, c := text[..4], text[4..7], text[7..];
      assert text == a + b + c;
      DigitsConcat(a + b, c);
      DigitsConcat(a, b);
      DigitsConcat(a + "-" + b + "-", c);
      DigitsConcat(a + "-" + b, "-");
      DigitsConcat(a + "-", b);
      DigitsConcat(a, "-");
    }
  }

  /** What one tool prints the other reads back. */
  lemma PrintedReads(disc: nat, passcode: nat)
    requires passcode < 0x800_0000
    ensures DecodeManual(Grouped(ManualCode(disc, passcode))) == Some(Setup((disc / 256) % 16, passcode))
  {
    hide Grouped, DecodeManual, ManualCode;
    DigitsGrouped(ManualCode(disc, passcode));
    DecodeRecovers(disc, passcode, Grouped(ManualCode(disc, passcode)));
  }

  lemma {:induction false} PaddedParsed(s: seq<digit>)
    ensures Padded(Parsed(s), |s|) == s
  {
    if s != [] {
      var t, x := s[..|s| - 1], s[|s| - 1];
      PaddedParsed(t);
      assert Parsed(s) / 10 == Parsed(t) && Parsed(s) % 10 == x;
      assert t + [x] == s;
    }
  }

  /** The three numbers a code is cut into, put together again. */
  lemma Reassembled(chunk1: nat, chunk2: nat, chunk3: nat)
    ensures var short := (chunk2 / 16384) % 4 + 4 * (chunk1 % 4);
            var passcode := chunk2 % 16384 + (chunk3 % 8192) * 16384;
            && short < 16 && passcode < 0x800_0000
            && Top(256 * short) == chunk1 % 4
            && Middle(256 * short, passcode) == chunk2 % 0x1_0000
            && passcode / 16384 == chunk3 % 8192
  {
    var low := (chunk2 / 16384) % 4;
    var short := low + 4 * (chunk1 % 4);
    assert 256 * short / 1024 == chunk1 % 4;
    assert 256 * short / 256 == short;
    assert short % 4 == low;
    TwoCuts(chunk2);
  }

  lemma TwoCuts(v: nat)
    ensures ((v / 16384) % 4) * 16384 + v % 16384 == v % 0x1_0000
  {
    var q := v / 16384;
    assert q == 4 * (q / 4) + q % 4;
    assert v == 0x1_0000 * (q / 4) + ((q % 4) * 16384 + v % 16384);
  }

  /**
   Any eleven digits are read, check digit or not, as a passcode of 27 bits and a
   discriminator's four; printing those gives the digits back if and only if the last is
   their check digit and none of the three numbers is out of range.
   */
  lemma ReadsBackIff(text: string)
    requires |Digits(text)| == 11
    ensures var d := Digits(text);
            var r := DecodeManual(text);
            && r.Some? && r.value.short < 16 && r.value.passcode < 0x800_0000
            && (ManualCode(256 * r.value.short, r.value.passcode) == d
                <==> Coded(d) && Parsed(d[0..1]) < 4 && Parsed(d[1..6]) < 0x1_0000 && Parsed(d[6..10]) < 8192)
  {
    hide Digits, Padded, Parsed, Check, Top, Middle;
    var d := Digits(text);
    var one, two, three := Parsed(d[0..1]), Parsed(d[1..6]), Parsed(d[6..10]);
    Reassembled(one, two, three);
    var r := DecodeManual(text).value;
    var body := Padded(one % 4, 1) + Padded(two % 0x1_0000, 5) + Padded(three % 8192, 4);
    assert ManualCode(256 * r.short, r.passcode) == Coding(body);
    PaddedParsed(d[0..1]);
    PaddedParsed(d[1..6]);
    PaddedParsed(d[6..10]);
    if ManualCode(256 * r.short, r.passcode) == d {
      CodeParts(256 * r.short, r.passcode);
      ParsedPadded(one % 4, 1);
      ParsedPadded(two % 0x1_0000, 5);
      ParsedPadded(three % 8192, 4);
    }
    if Coded(d) && one < 4 && two < 0x1_0000 && three < 8192 {
      assert body == d[..10];
      assert d == d[..10] + [d[10]];
    }
  }
}
