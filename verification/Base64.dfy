/**
 The platform's base64 codec, which the serial transport uses rather than its own.
 Encoding is section 4 of RFC 4648. Decoding is forgiving, as browsers define it: ASCII
 white space is removed, padding may be missing, and leftover bits are discarded.
 */
module Base64 {
  import opened Bits
  import opened Options

  type sextet = v: int | 0 <= v < 64

  const PAD: byte := 0x3d

  function Char(v: sextet): (c: byte)
    ensures Val(c) == Some(v) && c != PAD && !Space(c)
  {
    if v < 26 then v + 65
    else if v < 52 then v + 71
    else if v < 62 then v - 4
    else if v == 62 then 43
    else 47
  }

  /** The value of a character, or `None` outside the alphabet. */
  function Val(c: byte): Option<sextet> {
    if 65 <= c <= 90 then Some(c - 65)
    else if 97 <= c <= 122 then Some(c - 71)
    else if 48 <= c <= 57 then Some(c + 4)
    else if c == 43 then Some(62)
    else if c == 47 then Some(63)
    else None
  }

  predicate Space(c: byte) {
    c == 0x09 || c == 0x0a || c == 0x0c || c == 0x0d || c == 0x20
  }

  /** Bytes regrouped six bits at a time, the last group filled with zeros. */
  function Sextets(s: seq<byte>): (v: seq<sextet>)
    ensures |v| % 4 != 1
    ensures |v| == |s| + (|s| + 2) / 3
  {
    if |s| == 0 then []
    else if |s| == 1 then [s[0] / 4, s[0] % 4 * 16]
    else if |s| == 2 then [s[0] / 4, s[0] % 4 * 16 + s[1] / 16, s[1] % 16 * 4]
    else [s[0] / 4, s[0] % 4 * 16 + s[1] / 16, s[1] % 16 * 4 + s[2] / 64, s[2] % 64] + Sextets(s[3..])
  }

  /** The inverse grouping; bits that do not fill a byte are dropped. */
  function Bytes(v: seq<sextet>): seq<byte>
    requires |v| % 4 != 1
  {
    if |v| == 0 then []
    else
      var a: int, b: int := v[0], v[1];
      if |v| == 2 then [a * 4 + b / 16]
      else
        var c: int := v[2];
        if |v| == 3 then [a * 4 + b / 16, b % 16 * 16 + c / 4]
        else
          var d: int := v[3];
          [a * 4 + b / 16, b % 16 * 16 + c / 4, c % 4 * 64 + d] + Bytes(v[4..])
  }

  function Chars(v: seq<sextet>): (t: seq<byte>)
    ensures |t| == |v|
    ensures forall i :: 0 <= i < |v| ==> t[i] == Char(v[i])
  {
    seq(|v|, i requires 0 <= i < |v| => Char(v[i]))
  }

  function Padding(n: nat): (t: seq<byte>)
    ensures |t| <= 2 && forall c <- t :: c == PAD
  {
    if n % 3 == 1 then [PAD, PAD] else if n % 3 == 2 then [PAD] else []
  }

  function Btoa(s: seq<byte>): seq<byte> {
    Chars(Sextets(s)) + Padding(|s|)
  }

  function Strip(t: seq<byte>): seq<byte> {
    if t == [] then []
    else (if Space(t[0]) then [] else [t[0]]) + Strip(t[1..])
  }

  function DropPadding(t: seq<byte>): seq<byte> {
    var n := |t|;
    if n % 4 != 0 || n == 0 || t[n - 1] != PAD then t
    else if t[n - 2] != PAD then t[..n - 1]
    else t[..n - 2]
  }

  function Vals(t: seq<byte>): Option<seq<sextet>> {
    if t == [] then Some([])
    else
      var v, rest := Val(t[0]), Vals(t[1..]);
      if v.None? || rest.None? then None else Some([v.value] + rest.value)
  }

  function Atob(t: seq<byte>): Option<seq<byte>> {
    var u := DropPadding(Strip(t));
    var v := Vals(u);
    if |u| % 4 == 1 || v.None? then None
    else
      ValsLength(u);
      Some(Bytes(v.value))
  }

  lemma ValsLength(t: seq<byte>)
    ensures Vals(t).Some? ==> |Vals(t).value| == |t|
  {
  }

  lemma {:induction false} BytesOfSextets(s: seq<byte>)
    ensures Bytes(Sextets(s)) == s
  {
    if |s| >= 3 {
      BytesOfSextets(s[3..]);
      assert Sextets(s)[4..] == Sextets(s[3..]);
      assert Sextets(s)[0] == s[0] / 4 && Sextets(s)[1] == s[0] % 4 * 16 + s[1] / 16;
      assert Sextets(s)[2] == s[1] % 16 * 4 + s[2] / 64 && Sextets(s)[3] == s[2] % 64;
      assert s == [s[0], s[1], s[2]] + s[3..];
    }
  }

  lemma {:induction false} ValsOfChars(v: seq<sextet>)
    ensures Vals(Chars(v)) == Some(v)
  {
    if v != [] {
      ValsOfChars(v[1..]);
      assert Chars(v)[1..] == Chars(v[1..]);
      assert Chars(v)[0] == Char(v[0]);
      assert [v[0]] + v[1..] == v;
    }
  }

  lemma {:induction false} StripNothing(t: seq<byte>)
    requires forall c <- t :: !Space(c)
    ensures Strip(t) == t
  {
    if t != [] {
      StripNothing(t[1..]);
    }
  }

  /** An encoded string is made of alphabet characters and padding, four for every three bytes. */
  lemma BtoaText(s: seq<byte>)
    ensures |Btoa(s)| == (|s| + 2) / 3 * 4
    ensures forall c <- Btoa(s) :: c == PAD || Val(c).Some?
  {
    var v := Sextets(s);
    forall c | c in Chars(v)
      ensures Val(c).Some?
    {
      var i :| 0 <= i < |v| && Chars(v)[i] == c;
    }
  }

  lemma DropPaddingOfText(t: seq<byte>, n: nat)
    requires t != [] ==> t[|t| - 1] != PAD
    requires |t| % 4 == (if n % 3 == 0 then 0 else n % 3 + 1)
    ensures DropPadding(t + Padding(n)) == t
  {
    var u := t + Padding(n);
    assert u[..|t|] == t;
    if n % 3 != 0 {
      assert t != [] && |u| % 4 == 0 && u[|u| - 1] == PAD;
    }
  }

  lemma DropPaddingOfBtoa(s: seq<byte>)
    ensures DropPadding(Btoa(s)) == Chars(Sextets(s))
  {
    var v := Sextets(s);
    if v != [] {
      assert Chars(v)[|v| - 1] == Char(v[|v| - 1]);
    }
    DropPaddingOfText(Chars(v), |s|);
  }

  /** Decoding undoes encoding, for byte strings of every length. */
  lemma AtobBtoa(s: seq<byte>)
    ensures Atob(Btoa(s)) == Some(s)
  {
    BtoaText(s);
    StripNothing(Btoa(s));
    DropPaddingOfBtoa(s);
    ValsOfChars(Sextets(s));
    BytesOfSextets(s);
  }
}
