/**
 Matter's base-38 text: three bytes become five characters, a two-byte tail four and a
 one-byte tail two, each chunk a little-endian number written least significant first.
 */
module Base38 {
  import opened Bits
  import opened Options
  import opened Seqs

  const ALPHABET := "0123456789ABCDEFGHIJKLMNOPQRSTUVWXYZ-."

  function Pow38(n: nat): (p: nat)
    ensures p >= 1
  {
    if n == 0 then 1 else 38 * Pow38(n - 1)
  }

  function Pow256(n: nat): (p: nat)
    ensures p >= 1
  {
    if n == 0 then 1 else 256 * Pow256(n - 1)
  }

  // ----- numbers as bytes and as characters

  function FromLe(s: seq<byte>): nat {
    if s == [] then 0 else (s[0] as int) + 256 * FromLe(s[1..])
  }

  function ToLe(v: nat, n: nat): (s: seq<byte>)
    ensures |s| == n
  {
    if n == 0 then [] else [v % 256] + ToLe(v / 256, n - 1)
  }

  lemma {:induction false} LeRoundTrip(s: seq<byte>)
    ensures FromLe(s) < Pow256(|s|) && ToLe(FromLe(s), |s|) == s
  {
    if s != [] {
      LeRoundTrip(s[1..]);
      assert s == [s[0]] + s[1..];
    }
  }

  lemma {:induction false} LeOfNumber(v: nat, n: nat)
    requires v < Pow256(n)
    ensures FromLe(ToLe(v, n)) == v
  {
    if n > 0 {
      LeOfNumber(v / 256, n - 1);
      assert ToLe(v, n)[1..] == ToLe(v / 256, n - 1);
    }
  }

  function Symbols(v: nat, n: nat): (s: string)
    ensures |s| == n
  {
    if n == 0 then [] else [ALPHABET[v % 38]] + Symbols(v / 38, n - 1)
  }

  /** The place of a character in the alphabet. */
  function Index(c: char): Option<nat> {
    IndexFrom(c, 0)
  }

  function IndexFrom(c: char, i: nat): (r: Option<nat>)
    requires i <= 38
    ensures r.Some? ==> r.value < 38
    decreases 38 - i
  {
    if i == 38 then None else if ALPHABET[i] == c then Some(i) else IndexFrom(c, i + 1)
  }

  function Code(i: nat): int {
    if i < 10 then 48 + i else if i < 36 then 55 + i else if i == 36 then 45 else 46
  }

  lemma SymbolIs(i: nat)
    requires i < 38
    ensures ALPHABET[i] as int == Code(i)
  {
  }

  /** No character stands twice in the alphabet. */
  lemma Distinct(i: nat, j: nat)
    requires i < j < 38
    ensures ALPHABET[i] != ALPHABET[j]
  {
    SymbolIs(i);
    SymbolIs(j);
  }

  lemma {:induction false} IndexOfSymbol(k: nat, i: nat)
    requires i <= k < 38
    ensures IndexFrom(ALPHABET[k], i) == Some(k)
    decreases k - i
  {
    if i < k {
      Distinct(i, k);
      IndexOfSymbol(k, i + 1);
    }
  }

  function Number(s: string): Option<nat> {
    if s == [] then Some(0)
    else
      var d, rest := Index(s[0]), Number(s[1..]);
      if d.Some? && rest.Some? then Some(d.value + 38 * rest.value) else None
  }

  lemma {:induction false} NumberOfSymbols(v: nat, n: nat)
    requires v < Pow38(n)
    ensures Number(Symbols(v, n)) == Some(v)
  {
    if n > 0 {
      NumberOfSymbols(v / 38, n - 1);
      IndexOfSymbol(v % 38, 0);
      assert Symbols(v, n)[1..] == Symbols(v / 38, n - 1);
    }
  }

  // ----- chunks

  /** How many bytes the next chunk holds. */
  function Chunk(n: nat): nat {
    if n < 3 then n else 3
  }

  function Width(bytes: nat): nat {
    if bytes == 3 then 5 else if bytes == 2 then 4 else if bytes == 1 then 2 else 0
  }

  function Encode(data: seq<byte>): string {
    if data == [] then []
    else
      var n := Chunk(|data|);
      Symbols(FromLe(data[..n]), Width(n)) + Encode(data[n..])
  }

  /** How many bytes the next characters stand for, if any count does. */
  function Bytes(chars: nat): nat {
    if chars >= 5 then 3 else if chars == 4 then 2 else if chars == 2 then 1 else 0
  }

  function Decode(text: string): Option<seq<byte>>
    decreases |text|
  {
    if text == [] then Some([])
    else
      var n := Bytes(|text|);
      if n == 0 then None
      else
        var v, rest := Number(text[..Width(n)]), Decode(text[Width(n)..]);
        if v.Some? && rest.Some? then Some(ToLe(v.value, n) + rest.value) else None
  }

  lemma ChunkFits(n: nat)
    requires 1 <= n <= 3
    ensures Pow256(n) <= Pow38(Width(n))
  {
    assert Pow256(1) == 256 && Pow256(2) == 65536;
    assert Pow38(2) == 1444 && Pow38(4) == 2085136;
    assert Pow38(5) == 79235168;
  }

  lemma {:induction false} EncodedLength(data: seq<byte>)
    ensures |Encode(data)| == 5 * (|data| / 3) + Width(|data| % 3)
  {
    if data != [] {
      EncodedLength(data[Chunk(|data|)..]);
    }
  }

  /** Decoding takes back every byte string. */
  lemma {:induction false} RoundTrip(data: seq<byte>)
    ensures Decode(Encode(data)) == Some(data)
  {
    if data != [] {
      hide Number, ToLe, FromLe, Symbols;
      var n := Chunk(|data|);
      var head, rest := data[..n], data[n..];
      RoundTrip(rest);
      EncodedLength(data);
      LeRoundTrip(head);
      ChunkFits(n);
      NumberOfSymbols(FromLe(head), Width(n));
      var text := Encode(data);
      assert text[..Width(n)] == Symbols(FromLe(head), Width(n));
      assert text[Width(n)..] == Encode(rest);
      assert Bytes(|text|) == n;
      assert head + rest == data;
    }
  }

  /** So no two byte strings share their text. */
  lemma Injective(a: seq<byte>, b: seq<byte>)
    requires Encode(a) == Encode(b)
    ensures a == b
  {
    RoundTrip(a);
    RoundTrip(b);
  }

  // ----- the encoder's loops

  lemma EncodeStep(data: seq<byte>)
    ensures data[0..] == data && data[|data|..] == [] && Encode([]) == []
    ensures data != [] ==> var n := Chunk(|data|);
                           Encode(data) == Symbols(FromLe(data[..n]), Width(n)) + Encode(data[n..])
  {
  }

  method EncodeText(data: seq<byte>) returns (text: string)
    ensures text == Encode(data)
  {
    hide Symbols, FromLe, Encode, Width;
    text := [];
    var i := 0;
    EncodeStep(data);
    Empty(Encode(data));
    while i < |data|
      invariant 0 <= i <= |data|
      invariant text + Encode(data[i..]) == Encode(data)
    {
      var n := Chunk(|data| - i);
      EncodeStep(data[i..]);
      CutRest(data, i, n);
      var part := ChunkText(FromLe(data[i..i + n]), Width(n));
      Assoc(text, part, Encode(data[i + n..]));
      text := text + part;
      i := i + n;
    }
    Empty(text);
  }

  method ChunkText(value: nat, width: nat) returns (part: string)
    ensures part == Symbols(value, width)
  {
    part := [];
    var v := value;
    for k := 0 to width
      invariant part + Symbols(v, width - k) == Symbols(value, width)
    {
      assert (part + [ALPHABET[v % 38]]) + Symbols(v / 38, width - k - 1)
          == part + ([ALPHABET[v % 38]] + Symbols(v / 38, width - k - 1));
      part := part + [ALPHABET[v % 38]];
      v := v / 38;
    }
  }
}
