/**
 The subset of CBOR that carries mcumgr requests and replies (sections 3.1 and 3.2.2 of
 RFC 8949): the encoder, the decoder, and every way a peer may spell the values both
 handle. Text is held as its UTF-8 bytes.
 */
module Cbor {
  import opened Bits
  import opened Options

  datatype Value =
    | Int(n: int)
    | Bool(b: bool)
    | Null
    | Blob(bytes: seq<byte>)
    | Text(utf8: seq<byte>)
    | List(items: seq<Value>)
    | Map(entries: seq<Entry>)

  /** A dictionary keeps its entries in the order their keys were first added. */
  datatype Entry = Entry(key: Value, value: Value)

  const LIMIT: nat := 0x1_0000_0000

  // ----- dictionaries

  /** Lists and dictionaries cannot be keys. */
  predicate Hashable(v: Value) {
    !v.List? && !v.Map?
  }

  /** Keys compare as the host language compares them, where true and false are one and zero. */
  function KeyOf(v: Value): Value {
    if v.Bool? then Int(if v.b then 1 else 0) else v
  }

  predicate HasKey(entries: seq<Entry>, k: Value) {
    exists e <- entries :: KeyOf(e.key) == KeyOf(k)
  }

  /** Assignment to a key: in place if it is there, at the end if not. */
  function Put(entries: seq<Entry>, k: Value, v: Value): seq<Entry> {
    if entries == [] then [Entry(k, v)]
    else if KeyOf(entries[0].key) == KeyOf(k) then [Entry(entries[0].key, v)] + entries[1..]
    else [entries[0]] + Put(entries[1..], k, v)
  }

  lemma {:induction false} PutNew(entries: seq<Entry>, k: Value, v: Value)
    requires !HasKey(entries, k)
    ensures Put(entries, k, v) == entries + [Entry(k, v)]
  {
    if entries != [] {
      assert entries[0] in entries;
      PutNew(entries[1..], k, v);
      assert [entries[0]] + (entries[1..] + [Entry(k, v)]) == entries + [Entry(k, v)];
    }
  }

  // ----- encoding

  /** A major type and its argument, in the shortest of four widths. */
  function Head(major: byte, n: nat): seq<byte>
    requires major % 32 == 0 && n < LIMIT
  {
    if n < 24 then [major + n]
    else if n < 0x100 then [major + 24, n]
    else if n < 0x1_0000 then [major + 25, n / 0x100, n % 0x100]
    else
      var a := n / 0x100;
      var b := a / 0x100;
      [major + 26, b / 0x100, b % 0x100, a % 0x100, n % 0x100]
  }

  /** The host's encoder. It refuses null, negative numbers, and anything past 32 bits. */
  function Encode(v: Value): Option<seq<byte>> {
    match v
    case Bool(b) => Some([if b then 0xf5 else 0xf4])
    case Int(n) => if 0 <= n < LIMIT then Some(Head(0x00, n)) else None
    case Blob(b) => if |b| < LIMIT then Some(Head(0x40, |b|) + b) else None
    case Text(b) => if |b| < LIMIT then Some(Head(0x60, |b|) + b) else None
    case Map(es) =>
      var body := EncodeEntries(es);
      if body.None? || |es| >= LIMIT then None else Some(Head(0xa0, |es|) + body.value)
    case List(vs) =>
      var body := EncodeAll(vs);
      if body.None? || |vs| >= LIMIT then None else Some(Head(0x80, |vs|) + body.value)
    case Null => None
  }

  function EncodeAll(vs: seq<Value>): Option<seq<byte>> {
    if vs == [] then Some([])
    else
      var first, rest := Encode(vs[0]), EncodeAll(vs[1..]);
      if first.None? || rest.None? then None else Some(first.value + rest.value)
  }

  function EncodeEntries(es: seq<Entry>): Option<seq<byte>> {
    if es == [] then Some([])
    else
      var first, rest := EncodeEntry(es[0]), EncodeEntries(es[1..]);
      if first.None? || rest.None? then None else Some(first.value + rest.value)
  }

  function EncodeEntry(e: Entry): Option<seq<byte>> {
    var k, v := Encode(e.key), Encode(e.value);
    if k.None? || v.None? then None else Some(k.value + v.value)
  }

  // ----- decoding

  datatype Decoded<T> = Decoded(value: T, next: nat)

  /** How much of the buffer is left at `i`. */
  function Left(buf: seq<byte>, i: nat): nat {
    if i < |buf| then |buf| - i else 0
  }

  /** A slice that stops at the end of the buffer. */
  function Clamped(buf: seq<byte>, i: nat, n: nat): seq<byte> {
    if i >= |buf| then [] else if i + n > |buf| then buf[i..] else buf[i..i + n]
  }

  /** The argument of a head whose low five bits are `extra`. */
  function Argument(buf: seq<byte>, i: nat, extra: nat): (r: Option<Decoded<nat>>)
    ensures r.Some? ==> r.value.next >= i
  {
    if extra < 24 then Some(Decoded(extra, i))
    else if extra == 24 then
      if i < |buf| then Some(Decoded(buf[i], i + 1)) else None
    else if extra == 25 then
      if i + 2 <= |buf| then Some(Decoded(0x100 * (buf[i] as int) + buf[i + 1] as int, i + 2)) else None
    else if extra == 26 then
      if i + 4 <= |buf| then
        Some(Decoded(0x100 * (0x100 * (0x100 * (buf[i] as int) + buf[i + 1] as int) + buf[i + 2] as int) + buf[i + 3] as int, i + 4))
      else None
    else None
  }

  /** The value at `i` and the index after it; `None` where the host raises. */
  function Decode(buf: seq<byte>, i: nat): (r: Option<Decoded<Value>>)
    ensures r.Some? ==> i < |buf| && r.value.next > i
    decreases Left(buf, i), 0
  {
    if i >= |buf| then None
    else
      var major, extra := buf[i] / 32 * 32, buf[i] % 32;
      if major == 0xe0 then
        if extra == 20 || extra == 21 then Some(Decoded(Bool(extra == 21), i + 1))
        else if extra == 22 then Some(Decoded(Null, i + 1))
        else None
      else if extra == 31 then
        if major == 0x80 then
          var items := DecodeUntil(buf, i + 1);
          if items.None? then None else Some(Decoded(List(items.value.value), items.value.next))
        else if major == 0xa0 then
          var es := DecodePairsUntil(buf, i + 1, []);
          if es.None? then None else Some(Decoded(Map(es.value.value), es.value.next))
        else None
      else
        var arg := Argument(buf, i + 1, extra);
        if arg.None? then None
        else
          var n, j := arg.value.value, arg.value.next;
          if major == 0x00 then Some(Decoded(Int(n), j))
          else if major == 0x20 then Some(Decoded(Int(-1 - n), j))
          else if major == 0x40 then Some(Decoded(Blob(Clamped(buf, j, n)), j + n))
          else if major == 0x60 then Some(Decoded(Text(Clamped(buf, j, n)), j + n))
          else if major == 0x80 then
            var items := DecodeN(buf, j, n);
            if items.None? then None else Some(Decoded(List(items.value.value), items.value.next))
          else if major == 0xa0 then
            var es := DecodePairs(buf, j, n, []);
            if es.None? then None else Some(Decoded(Map(es.value.value), es.value.next))
          else None
  }

  function DecodeN(buf: seq<byte>, i: nat, n: nat): (r: Option<Decoded<seq<Value>>>)
    ensures r.Some? ==> r.value.next >= i
    decreases Left(buf, i), 1
  {
    if n == 0 then Some(Decoded([], i))
    else
      var first := Decode(buf, i);
      if first.None? then None
      else
        var rest := DecodeN(buf, first.value.next, n - 1);
        if rest.None? then None else Some(Decoded([first.value.value] + rest.value.value, rest.value.next))
  }

  /** Items up to a break byte, which is consumed. */
  function DecodeUntil(buf: seq<byte>, i: nat): (r: Option<Decoded<seq<Value>>>)
    ensures r.Some? ==> r.value.next > i
    decreases Left(buf, i), 1
  {
    if i >= |buf| then None
    else if buf[i] == 0xff then Some(Decoded([], i + 1))
    else
      var first := Decode(buf, i);
      if first.None? then None
      else
        var rest := DecodeUntil(buf, first.value.next);
        if rest.None? then None else Some(Decoded([first.value.value] + rest.value.value, rest.value.next))
  }

  /** One key and its value; a key that cannot be hashed raises when it is assigned. */
  function DecodePair(buf: seq<byte>, i: nat): (r: Option<Decoded<Entry>>)
    ensures r.Some? ==> i < |buf| && r.value.next > i
    decreases Left(buf, i), 1
  {
    var k := Decode(buf, i);
    if k.None? then None
    else
      var v := Decode(buf, k.value.next);
      if v.None? || !Hashable(k.value.value) then None
      else Some(Decoded(Entry(k.value.value, v.value.value), v.value.next))
  }

  function DecodePairs(buf: seq<byte>, i: nat, n: nat, acc: seq<Entry>): (r: Option<Decoded<seq<Entry>>>)
    ensures r.Some? ==> r.value.next >= i
    decreases Left(buf, i), 2
  {
    if n == 0 then Some(Decoded(acc, i))
    else
      var p := DecodePair(buf, i);
      if p.None? then None
      else DecodePairs(buf, p.value.next, n - 1, Put(acc, p.value.value.key, p.value.value.value))
  }

  function DecodePairsUntil(buf: seq<byte>, i: nat, acc: seq<Entry>): (r: Option<Decoded<seq<Entry>>>)
    ensures r.Some? ==> r.value.next > i
    decreases Left(buf, i), 2
  {
    if i >= |buf| then None
    else if buf[i] == 0xff then Some(Decoded(acc, i + 1))
    else
      var p := DecodePair(buf, i);
      if p.None? then None
      else DecodePairsUntil(buf, p.value.next, Put(acc, p.value.value.key, p.value.value.value))
  }
}
