/**
 The codes a person pairs a lock with (Matter Core sections 5.1.3 and 5.1.4): the manual
 code as two tools print it and one reads it back, and the QR payload.
 */
module PairingCodes {
  import opened Bits
  import opened Options
  import opened Numbers
  import opened Verhoeff
  import Base38

  // ----- decimal text

  /** `%0wd`: at least `w` digits, zero padded. */
  function Padded(v: nat, w: nat): seq<digit>
    decreases v, w
  {
    if v == 0 && w == 0 then []
    else Padded(v / 10, if w == 0 then 0 else w - 1) + [v % 10]
  }

  function Parsed(s: seq<digit>): nat {
    if s == [] then 0 else 10 * Parsed(s[..|s| - 1]) + (s[|s| - 1] as int)
  }

  function Pow10(n: nat): nat {
    if n == 0 then 1 else 10 * Pow10(n - 1)
  }

  lemma {:induction false} ParsedPadded(v: nat, w: nat)
    ensures Parsed(Padded(v, w)) == v
    decreases v, w
  {
    if v != 0 || w != 0 {
      ParsedPadded(v / 10, if w == 0 then 0 else w - 1);
      var s := Padded(v, w);
      assert s[..|s| - 1] == Padded(v / 10, if w == 0 then 0 else w - 1);
    }
  }

  lemma {:induction false} PaddedLength(v: nat, w: nat)
    requires v < Pow10(w)
    ensures |Padded(v, w)| == w
    decreases v, w
  {
    if v != 0 || w != 0 {
      PaddedLength(v / 10, w - 1);
    }
  }

  // ----- the manual code, as each tool builds it

  /** The discriminator's bits 10 and 11. */
  function Top(disc: nat): nat {
    (disc / 1024) % 4
  }

  /** Its bits 8 and 9 above the passcode's low 14. */
  function Middle(disc: nat, passcode: nat): nat {
    ((disc / 256) % 4) * 16384 + passcode % 16384
  }

  function Coding(body: seq<digit>): seq<digit> {
    body + [Check(body)]
  }

  /** scripts/spake2p_verifier.py: the passcode's high part as it comes. */
  function ManualCode(disc: nat, passcode: nat): seq<digit> {
    Coding(Padded(Top(disc), 1) + Padded(Middle(disc, passcode), 5) + Padded(passcode / 16384, 4))
  }

  /** web/flasher/check_codes.py: by way of the short discriminator, the high part masked to 13 bits. */
  function FlasherCode(disc: nat, passcode: nat): seq<digit> {
    var short := (disc / 256) % 16;
    Coding(Padded((short / 4) % 4, 1) + Padded(passcode % 16384 + (short % 4) * 16384, 5)
           + Padded((passcode / 16384) % 8192, 4))
  }

  method PrintManualCode(disc: nat, passcode: nat) returns (code: seq<digit>)
    ensures code == ManualCode(disc, passcode)
  {
    var digits := Padded(Top(disc), 1) + Padded(Middle(disc, passcode), 5) + Padded(passcode / 16384, 4);
    var check := CheckDigit(digits);
    code := digits + [check];
  }

  lemma ShortIs(disc: nat)
    ensures var short := (disc / 256) % 16;
            (short / 4) % 4 == Top(disc) && short % 4 == (disc / 256) % 4
            && short == 4 * Top(disc) + (disc / 256) % 4
  {
    assert disc / 1024 == (disc / 256) / 4;
  }

  lemma SamePrefix<T>(a: seq<T>, x: seq<T>, y: seq<T>)
    requires a + x == a + y
    ensures x == y
  {
    assert x == (a + x)[|a|..] && y == (a + y)[|a|..];
  }

  lemma SameBody(a: seq<digit>, b: seq<digit>)
    requires Coding(a) == Coding(b)
    ensures a == b
  {
    assert |a| + 1 == |Coding(a)| && |b| + 1 == |Coding(b)|;
    assert a == Coding(a)[..|a|] && b == Coding(b)[..|b|];
  }

  /** The two tools print the same code if and only if the passcode fits in 27 bits, whatever the discriminator. */
  lemma ToolsAgreeIff(disc: nat, passcode: nat)
    ensures ManualCode(disc, passcode) == FlasherCode(disc, passcode) <==> passcode < 0x800_0000
  {
    hide Padded, Check, Coding;
    ShortIs(disc);
    var head := Padded(Top(disc), 1) + Padded(Middle(disc, passcode), 5);
    var high := passcode / 16384;
    assert FlasherCode(disc, passcode) == Coding(head + Padded(high % 8192, 4));
    if ManualCode(disc, passcode) == FlasherCode(disc, passcode) {
      SameBody(head + Padded(high, 4), head + Padded(high % 8192, 4));
      SamePrefix(head, Padded(high, 4), Padded(high % 8192, 4));
      ParsedPadded(high, 4);
      ParsedPadded(high % 8192, 4);
    }
  }

  // ----- reading it back

  predicate IsDigit(c: char) {
    '0' <= c <= '9'
  }

  /** The digits of a text, whatever stands between them. */
  function Digits(text: string): seq<digit> {
    if text == [] then []
    else (if IsDigit(text[0]) then [text[0] as int - '0' as int] else []) + Digits(text[1..])
  }

  datatype Setup = Setup(short: nat, passcode: nat)

  /** None is the exit on a text that does not hold eleven digits. */
  function DecodeManual(text: string): Option<Setup> {
    var d := Digits(text);
    if |d| != 11 then None
    else
      var chunk1, chunk2, chunk3 := Parsed(d[0..1]), Parsed(d[1..6]), Parsed(d[6..10]);
      Some(Setup((chunk2 / 16384) % 4 + 4 * (chunk1 % 4), chunk2 % 16384 + (chunk3 % 8192) * 16384))
  }

  /** The code of any passcode that fits: eleven digits, cut where the reader cuts them. */
  lemma CodeParts(disc: nat, passcode: nat)
    requires passcode < 0x800_0000
    ensures var c := ManualCode(disc, passcode);
            && |c| == 11 && c[0..1] == Padded(Top(disc), 1) && c[1..6] == Padded(Middle(disc, passcode), 5)
            && c[6..10] == Padded(passcode / 16384, 4) && Coded(c)
  {
    hide Padded, Check;
    assert Pow10(1) == 10 && Pow10(4) == 10000 && Pow10(5) == 100000;
    PaddedLength(Top(disc), 1);
    PaddedLength(Middle(disc, passcode), 5);
    PaddedLength(passcode / 16384, 4);
    var body := Padded(Top(disc), 1) + Padded(Middle(disc, passcode), 5) + Padded(passcode / 16384, 4);
    assert Coding(body)[..10] == body;
  }

  /**
   However the eleven digits are grouped, reading a code gives back the passcode exactly
   and the discriminator's bits 8 to 11, which are its top four when it has twelve.
   */
  lemma DecodeRecovers(disc: nat, passcode: nat, text: string)
    requires passcode < 0x800_0000 && Digits(text) == ManualCode(disc, passcode)
    ensures DecodeManual(text) == Some(Setup((disc / 256) % 16, passcode))
  {
    hide Padded, Check, Digits, ManualCode, Parsed;
    CodeParts(disc, passcode);
    ParsedPadded(Top(disc), 1);
    ParsedPadded(Middle(disc, passcode), 5);
    ParsedPadded(passcode / 16384, 4);
    ShortIs(disc);
    var two := (disc / 256) % 4;
    assert Middle(disc, passcode) / 16384 == two;
    assert Middle(disc, passcode) % 16384 == passcode % 16384;
  }

  // ----- the QR payload

  datatype Field = Field(value: nat, width: nat)

  function Total(fs: seq<Field>): nat {
    if fs == [] then 0 else fs[0].width + Total(fs[1..])
  }

  /** The fields masked to their widths, the first in the lowest bits. */
  function Packed(fs: seq<Field>): nat {
    if fs == [] then 0
    else fs[0].value % Pow2(fs[0].width) + Pow2(fs[0].width) * Packed(fs[1..])
  }

  function Masked(fs: seq<Field>): seq<nat> {
    if fs == [] then [] else [fs[0].value % Pow2(fs[0].width)] + Masked(fs[1..])
  }

  function Widths(fs: seq<Field>): seq<nat> {
    if fs == [] then [] else [fs[0].width] + Widths(fs[1..])
  }

  /** A number cut into fields of the given widths. */
  function Unpacked(v: nat, widths: seq<nat>): seq<nat>
    decreases |widths|
  {
    if widths == [] then []
    else
      var p := Pow2(widths[0]);
      QuotientIsNat(v, p);
      [v % p] + Unpacked(v / p, widths[1..])
  }

  lemma {:induction false} Pow2Sum(a: nat, b: nat)
    ensures Pow2(a + b) == Pow2(a) * Pow2(b)
  {
    if a > 0 {
      Pow2Sum(a - 1, b);
      assert 2 * (Pow2(a - 1) * Pow2(b)) == (2 * Pow2(a - 1)) * Pow2(b);
    }
  }

  lemma {:induction false} PackedFits(fs: seq<Field>)
    ensures Packed(fs) < Pow2(Total(fs))
  {
    if fs != [] {
      var w, rest := fs[0].width, fs[1..];
      PackedFits(rest);
      Pow2Sum(w, Total(rest));
      var p, q := Pow2(w), Packed(rest);
      assert p * q + p <= p * Pow2(Total(rest)) by { Monotone(p, q + 1, Pow2(Total(rest))); }
    }
  }

  lemma Monotone(p: nat, a: nat, b: nat)
    requires a <= b
    ensures p * a <= p * b
  {
  }

  lemma {:induction false} UnpackedPacked(fs: seq<Field>)
    ensures Unpacked(Packed(fs), Widths(fs)) == Masked(fs)
  {
    if fs != [] {
      var p := Pow2(fs[0].width);
      DivModOf(p, fs[0].value % p, Packed(fs[1..]));
      UnpackedPacked(fs[1..]);
      assert Widths(fs)[1..] == Widths(fs[1..]);
    }
  }

  lemma {:induction false} BytesAreBits(n: nat)
    ensures Base38.Pow256(n) == Pow2(8 * n)
  {
    if n > 0 {
      BytesAreBits(n - 1);
      Pow2Sum(8, 8 * (n - 1));
      assert Pow2(8) == 256;
    }
  }

  function QrFields(vid: nat, pid: nat, rendezvous: nat, disc: nat, passcode: nat): seq<Field> {
    [Field(0, 3), Field(vid, 16), Field(pid, 16), Field(0, 2), Field(rendezvous, 8), Field(disc, 12),
     Field(passcode, 27), Field(0, 4)]
  }

  const PREFIX := "MT:"

  function Payload(fs: seq<Field>): string {
    PREFIX + Base38.Encode(Base38.ToLe(Packed(fs), Total(fs) / 8))
  }

  /** The packing loop; what is ORed in lies above everything already there. */
  method PackFields(fs: seq<Field>) returns (bits: nat, offset: nat)
    ensures bits == Packed(fs) && offset == Total(fs)
  {
    hide Pow2;
    bits, offset := 0, 0;
    assert fs[0..] == fs && Pow2(0) == 1 by { PowZero(fs); }
    for k := 0 to |fs|
      invariant bits + Pow2(offset) * Packed(fs[k..]) == Packed(fs)
      invariant offset + Total(fs[k..]) == Total(fs)
    {
      var f := fs[k];
      assert fs[k..][1..] == fs[k + 1..];
      Pow2Sum(offset, f.width);
      Regroup(Pow2(offset), f.value % Pow2(f.width), Pow2(f.width), Packed(fs[k + 1..]));
      bits := bits + (f.value % Pow2(f.width)) * Pow2(offset);
      offset := offset + f.width;
    }
    assert fs[|fs|..] == [];
  }

  lemma PowZero(fs: seq<Field>)
    ensures fs[0..] == fs && Pow2(0) == 1
  {
  }

  lemma Regroup(o: nat, m: nat, w: nat, rest: nat)
    ensures o * (m + w * rest) == m * o + (o * w) * rest
  {
  }

  /** Every field of a payload of whole bytes, masked to its width, can be read back from the text. */
  lemma QrRecovers(fs: seq<Field>)
    requires Total(fs) % 8 == 0
    ensures var text := Payload(fs);
            var bytes := Base38.Decode(text[|PREFIX|..]);
            text[..|PREFIX|] == PREFIX && bytes.Some? && Unpacked(Base38.FromLe(bytes.value), Widths(fs)) == Masked(fs)
  {
    hide Base38.Encode, Base38.Decode, Packed, Unpacked, Masked;
    var n := Total(fs) / 8;
    var data := Base38.ToLe(Packed(fs), n);
    PackedFits(fs);
    BytesAreBits(n);
    Base38.LeOfNumber(Packed(fs), n);
    Base38.RoundTrip(data);
    UnpackedPacked(fs);
    assert Payload(fs)[|PREFIX|..] == Base38.Encode(data);
  }

  predicate InRange(fs: seq<Field>) {
    forall f <- fs :: f.value < Pow2(f.width)
  }

  /** Two payloads of fields in range and of the same widths are equal only if the fields are. */
  lemma QrInjective(fs: seq<Field>, gs: seq<Field>)
    requires Total(fs) % 8 == 0 && Total(gs) % 8 == 0
    requires Widths(fs) == Widths(gs) && InRange(fs) && InRange(gs)
    requires Payload(fs) == Payload(gs)
    ensures fs == gs
  {
    hide Packed, Payload, Unpacked, Base38.Decode, Total, Widths, InRange, Masked;
    QrRecovers(fs);
    QrRecovers(gs);
    MaskedSame(fs, gs);
  }

  lemma {:induction false} MaskedSame(fs: seq<Field>, gs: seq<Field>)
    requires Masked(fs) == Masked(gs) && Widths(fs) == Widths(gs) && InRange(fs) && InRange(gs)
    ensures fs == gs
  {
    hide InRange, Pow2;
    if fs != [] {
      MaskedTail(fs);
      MaskedTail(gs);
      MaskedSame(fs[1..], gs[1..]);
      assert fs == [fs[0]] + fs[1..] && gs == [gs[0]] + gs[1..];
    }
  }

  lemma MaskedTail(fs: seq<Field>)
    requires fs != [] && InRange(fs)
    ensures Masked(fs)[0] == fs[0].value && Masked(fs)[1..] == Masked(fs[1..])
    ensures Widths(fs)[0] == fs[0].width && Widths(fs)[1..] == Widths(fs[1..]) && InRange(fs[1..])
  {
    assert fs[0] in fs;
    SmallMod(fs[0].value, Pow2(fs[0].width));
  }

  lemma SmallMod(v: nat, p: nat)
    requires v < p
    ensures v % p == v
  {
    DivModOf(p, v, 0);
  }

  /** And the setup payload is such a list of fields: 88 bits, eleven bytes. */
  lemma QrIsWholeBytes(vid: nat, pid: nat, rendezvous: nat, disc: nat, passcode: nat)
    ensures Total(QrFields(vid, pid, rendezvous, disc, passcode)) == 88
  {
    var fs := QrFields(vid, pid, rendezvous, disc, passcode);
    assert fs[1..] == fs[1..8] && Total(fs[8..]) == 0;
    assert Total(fs[7..]) == 4 && Total(fs[6..]) == 31 && Total(fs[5..]) == 43 && Total(fs[4..]) == 51;
    assert Total(fs[3..]) == 53 && Total(fs[2..]) == 69 && Total(fs[1..]) == 85;
  }

  lemma Powers()
    ensures Pow2(2) == 4 && Pow2(3) == 8 && Pow2(4) == 16 && Pow2(8) == 0x100 && Pow2(12) == 0x1000 && Pow2(16) == 0x1_0000
    ensures Pow2(27) == 0x800_0000
  {
    assert Pow2(8) == 0x100;
    Pow2Sum(8, 8);
    Pow2Sum(3, 8);
    Pow2Sum(11, 16);
    assert Pow2(12) == 2 * Pow2(11);
  }

  lemma {:induction false} FieldAt(fs: seq<Field>, k: nat)
    requires k < |fs|
    ensures |Widths(fs)| == |fs| == |Masked(fs)|
    ensures Widths(fs)[k] == fs[k].width && Masked(fs)[k] == fs[k].value % Pow2(fs[k].width)
  {
    hide Pow2;
    if 1 < |fs| {
      FieldAt(fs[1..], if k == 0 then 0 else k - 1);
    }
  }

  lemma EightFields(fs: seq<Field>)
    requires |fs| == 8
    ensures |Widths(fs)| == 8 == |Masked(fs)|
    ensures forall k :: 0 <= k < 8 ==> Widths(fs)[k] == fs[k].width && Masked(fs)[k] == fs[k].value % Pow2(fs[k].width)
  {
    hide Pow2, Widths, Masked;
    FieldAt(fs, 0);
    forall k | 0 <= k < 8
      ensures Widths(fs)[k] == fs[k].width && Masked(fs)[k] == fs[k].value % Pow2(fs[k].width)
    {
      FieldAt(fs, k);
    }
  }

  /**
   The setup payload holds every field in its own place: cut into fields of these widths
   from the lowest bit up, the number read from its text is the version 0, the vendor, the
   product, the flow 0, the rendezvous bits, the discriminator, the passcode and padding.
   */
  lemma QrReadsBack(vid: nat, pid: nat, rendezvous: nat, disc: nat, passcode: nat)
    ensures var text := Payload(QrFields(vid, pid, rendezvous, disc, passcode));
            var bytes := Base38.Decode(text[3..]);
            && text[..3] == "MT:" && bytes.Some?
            && Unpacked(Base38.FromLe(bytes.value), [3, 16, 16, 2, 8, 12, 27, 4])
               == [0, vid % 0x1_0000, pid % 0x1_0000, 0, rendezvous % 0x100, disc % 0x1000, passcode % 0x800_0000, 0]
  {
    hide Base38.Encode, Base38.Decode, Base38.FromLe, Packed, Unpacked, Pow2, Widths, Masked, Payload, Total;
    var fs := QrFields(vid, pid, rendezvous, disc, passcode);
    QrIsWholeBytes(vid, pid, rendezvous, disc, passcode);
    QrRecovers(fs);
    Powers();
    EightFields(fs);
    assert Widths(fs) == [3, 16, 16, 2, 8, 12, 27, 4];
    assert Masked(fs)
        == [0, vid % 0x1_0000, pid % 0x1_0000, 0, rendezvous % 0x100, disc % 0x1000, passcode % 0x800_0000, 0];
  }
}
