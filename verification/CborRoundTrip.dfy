/**
 Decoding undoes every spelling of a value: nested to any depth, with each list and
 dictionary either counted or ended by a break byte.
 */
module CborRoundTrip {
  import opened Bits
  import opened Options
  import opened Seqs
  import opened Cbor

  /** A spelling: a value, and for each container whether its length is left open. */
  datatype Form =
    | Leaf(v: Value)
    | ListForm(open: bool, items: seq<Form>)
    | MapForm(open: bool, entries: seq<FormEntry>)

  datatype FormEntry = FormEntry(key: Value, form: Form)

  /** A value that is not a container, within the ranges a head can carry. */
  predicate Scalar(v: Value) {
    match v
    case Int(n) => -1 - n < LIMIT && n < LIMIT
    case Blob(b) => |b| < LIMIT
    case Text(b) => |b| < LIMIT
    case Bool(_) => true
    case Null => true
    case _ => false
  }

  /** What can be spelled: scalars in range, counts in range, keys hashable and pairwise different. */
  predicate Spellable(f: Form) {
    match f
    case Leaf(v) => Scalar(v)
    case ListForm(open, fs) => (open || |fs| < LIMIT) && forall x <- fs :: Spellable(x)
    case MapForm(open, es) =>
      && (open || |es| < LIMIT)
      && (forall e <- es :: Scalar(e.key) && Spellable(e.form))
      && (forall i, j :: 0 <= i < j < |es| ==> KeyOf(es[i].key) != KeyOf(es[j].key))
  }

  function Meaning(f: Form): Value {
    match f
    case Leaf(v) => v
    case ListForm(_, fs) => List(MeaningAll(fs))
    case MapForm(_, es) => Map(MeaningEntries(es))
  }

  function MeaningAll(fs: seq<Form>): (vs: seq<Value>)
    ensures |vs| == |fs|
  {
    if fs == [] then [] else [Meaning(fs[0])] + MeaningAll(fs[1..])
  }

  function MeaningEntry(e: FormEntry): Entry {
    Entry(e.key, Meaning(e.form))
  }

  function MeaningEntries(es: seq<FormEntry>): (r: seq<Entry>)
    ensures |r| == |es|
    ensures forall i :: 0 <= i < |es| ==> r[i].key == es[i].key
  {
    if es == [] then [] else [MeaningEntry(es[0])] + MeaningEntries(es[1..])
  }

  function ScalarBytes(v: Value): seq<byte>
    requires Scalar(v)
  {
    match v
    case Int(n) => if n >= 0 then Head(0x00, n) else Head(0x20, -1 - n)
    case Bool(b) => [if b then 0xf5 else 0xf4]
    case Null => [0xf6]
    case Blob(b) => Head(0x40, |b|) + b
    case Text(b) => Head(0x60, |b|) + b
  }

  function FormBytes(f: Form): seq<byte>
    requires Spellable(f)
  {
    match f
    case Leaf(v) => ScalarBytes(v)
    case ListForm(open, fs) => if open then [0x9f] + AllBytes(fs) + [0xff] else Head(0x80, |fs|) + AllBytes(fs)
    case MapForm(open, es) => if open then [0xbf] + EntriesBytes(es) + [0xff] else Head(0xa0, |es|) + EntriesBytes(es)
  }

  function AllBytes(fs: seq<Form>): seq<byte>
    requires forall x <- fs :: Spellable(x)
  {
    if fs == [] then [] else FormBytes(fs[0]) + AllBytes(fs[1..])
  }

  function EntryBytes(e: FormEntry): seq<byte>
    requires Scalar(e.key) && Spellable(e.form)
  {
    ScalarBytes(e.key) + FormBytes(e.form)
  }

  function EntriesBytes(es: seq<FormEntry>): seq<byte>
    requires forall e <- es :: Scalar(e.key) && Spellable(e.form)
  {
    if es == [] then [] else EntryBytes(es[0]) + EntriesBytes(es[1..])
  }

  // ----- heads

  /** `s` stands at `i` in `buf`. */
  predicate At(buf: seq<byte>, i: nat, s: seq<byte>) {
    i + |s| <= |buf| && buf[i..i + |s|] == s
  }

  lemma AtSplit(buf: seq<byte>, i: nat, a: seq<byte>, b: seq<byte>)
    requires At(buf, i, a + b)
    ensures At(buf, i, a) && At(buf, i + |a|, b)
  {
    var s := buf[i..i + |a + b|];
    assert s[..|a|] == a && s[|a|..] == b;
    assert buf[i..i + |a|] == s[..|a|] && buf[i + |a|..i + |a| + |b|] == s[|a|..];
  }

  lemma AtByte(buf: seq<byte>, i: nat, s: seq<byte>, k: nat)
    requires At(buf, i, s) && k < |s|
    ensures i + k < |buf| && buf[i + k] == s[k]
  {
    assert buf[i..i + |s|][k] == buf[i + k];
  }

  /** A head is read back as it was written. */
  lemma HeadRead(buf: seq<byte>, i: nat, major: byte, n: nat)
    requires major % 32 == 0 && major < 0xe0 && n < LIMIT
    requires At(buf, i, Head(major, n))
    ensures i < |buf| && buf[i] / 32 * 32 == major && buf[i] % 32 < 27
    ensures Argument(buf, i + 1, buf[i] % 32) == Some(Decoded(n, i + |Head(major, n)|))
  {
    var h := Head(major, n);
    AtByte(buf, i, h, 0);
    FirstByte(major, n);
    if 24 <= n < 0x100 {
      AtByte(buf, i, h, 1);
    } else if 0x100 <= n < 0x1_0000 {
      AtByte(buf, i, h, 1);
      AtByte(buf, i, h, 2);
    } else if n >= 0x1_0000 {
      AtByte(buf, i, h, 1);
      AtByte(buf, i, h, 2);
      AtByte(buf, i, h, 3);
      AtByte(buf, i, h, 4);
    }
  }

  lemma FirstByte(major: byte, n: nat)
    requires major % 32 == 0 && n < LIMIT
    ensures var b := Head(major, n)[0];
            b / 32 * 32 == major && b % 32 == (if n < 24 then n else if n < 0x100 then 24 else if n < 0x1_0000 then 25 else 26)
  {
  }

  /** No spelling starts with the break byte. */
  lemma NotBreak(f: Form)
    requires Spellable(f)
    ensures |FormBytes(f)| > 0 && FormBytes(f)[0] != 0xff
  {
    match f {
      case Leaf(v) => ScalarNotBreak(v);
      case ListForm(open, fs) => if !open { FirstByte(0x80, |fs|); }
      case MapForm(open, es) => if !open { FirstByte(0xa0, |es|); }
    }
  }

  lemma ScalarNotBreak(v: Value)
    requires Scalar(v)
    ensures |ScalarBytes(v)| > 0 && ScalarBytes(v)[0] != 0xff
  {
    match v {
      case Int(n) => if n >= 0 { FirstByte(0x00, n); } else { FirstByte(0x20, -1 - n); }
      case Blob(b) => FirstByte(0x40, |b|);
      case Text(b) => FirstByte(0x60, |b|);
      case _ =>
    }
  }

  // ----- the round trip

  lemma ScalarRead(buf: seq<byte>, i: nat, v: Value)
    requires Scalar(v) && At(buf, i, ScalarBytes(v))
    ensures Decode(buf, i) == Some(Decoded(v, i + |ScalarBytes(v)|))
  {
    hide Head, Argument;
    match v {
      case Int(n) =>
        if n >= 0 { HeadRead(buf, i, 0x00, n); } else { HeadRead(buf, i, 0x20, -1 - n); }
      case Blob(b) =>
        AtSplit(buf, i, Head(0x40, |b|), b);
        HeadRead(buf, i, 0x40, |b|);
      case Text(b) =>
        AtSplit(buf, i, Head(0x60, |b|), b);
        HeadRead(buf, i, 0x60, |b|);
      case Bool(b) =>
        AtByte(buf, i, ScalarBytes(v), 0);
      case Null =>
        AtByte(buf, i, ScalarBytes(v), 0);
    }
  }

  lemma {:induction false} FormRead(buf: seq<byte>, i: nat, f: Form)
    requires Spellable(f) && At(buf, i, FormBytes(f))
    ensures Decode(buf, i) == Some(Decoded(Meaning(f), i + |FormBytes(f)|))
    decreases f, 0
  {
    hide Head, Argument, DecodeN, DecodeUntil, DecodePairs, DecodePairsUntil;
    match f {
      case Leaf(v) => ScalarRead(buf, i, v);
      case ListForm(open, fs) => ListRead(buf, i, open, fs);
      case MapForm(open, es) => MapRead(buf, i, open, es);
    }
  }

  lemma {:induction false} ListRead(buf: seq<byte>, i: nat, open: bool, fs: seq<Form>)
    requires Spellable(ListForm(open, fs)) && At(buf, i, FormBytes(ListForm(open, fs)))
    ensures Decode(buf, i) == Some(Decoded(List(MeaningAll(fs)), i + |FormBytes(ListForm(open, fs))|))
    decreases fs, 2
  {
    hide Head, Argument, DecodeN, DecodeUntil, AllBytes, MeaningAll;
    if open {
      Assoc([0x9f], AllBytes(fs), [0xff]);
      AtSplit(buf, i, [0x9f], AllBytes(fs) + [0xff]);
      AtByte(buf, i, [0x9f], 0);
      AllReadOpen(buf, i + 1, fs);
    } else {
      AtSplit(buf, i, Head(0x80, |fs|), AllBytes(fs));
      HeadRead(buf, i, 0x80, |fs|);
      AllRead(buf, i + |Head(0x80, |fs|)|, fs);
    }
  }

  lemma {:induction false} MapRead(buf: seq<byte>, i: nat, open: bool, es: seq<FormEntry>)
    requires Spellable(MapForm(open, es)) && At(buf, i, FormBytes(MapForm(open, es)))
    ensures Decode(buf, i) == Some(Decoded(Map(MeaningEntries(es)), i + |FormBytes(MapForm(open, es))|))
    decreases es, 2
  {
    hide Head, Argument, DecodePairs, DecodePairsUntil, EntriesBytes, MeaningEntries;
    Empty(MeaningEntries(es));
    if open {
      Assoc([0xbf], EntriesBytes(es), [0xff]);
      AtSplit(buf, i, [0xbf], EntriesBytes(es) + [0xff]);
      AtByte(buf, i, [0xbf], 0);
      EntriesReadOpen(buf, i + 1, es, []);
    } else {
      AtSplit(buf, i, Head(0xa0, |es|), EntriesBytes(es));
      HeadRead(buf, i, 0xa0, |es|);
      EntriesRead(buf, i + |Head(0xa0, |es|)|, es, []);
    }
  }

  lemma {:induction false} AllRead(buf: seq<byte>, i: nat, fs: seq<Form>)
    requires (forall x <- fs :: Spellable(x)) && At(buf, i, AllBytes(fs))
    ensures DecodeN(buf, i, |fs|) == Some(Decoded(MeaningAll(fs), i + |AllBytes(fs)|))
    decreases fs, 1
  {
    hide Decode, FormBytes;
    if fs != [] {
      AtSplit(buf, i, FormBytes(fs[0]), AllBytes(fs[1..]));
      FormRead(buf, i, fs[0]);
      AllRead(buf, i + |FormBytes(fs[0])|, fs[1..]);
    }
  }

  lemma {:induction false} AllReadOpen(buf: seq<byte>, i: nat, fs: seq<Form>)
    requires (forall x <- fs :: Spellable(x)) && At(buf, i, AllBytes(fs) + [0xff])
    ensures DecodeUntil(buf, i) == Some(Decoded(MeaningAll(fs), i + |AllBytes(fs)| + 1))
    decreases fs, 1
  {
    hide Decode, FormBytes, Spellable, Meaning;
    if fs == [] {
      Empty([0xff]);
      AtByte(buf, i, [0xff], 0);
    } else {
      var head := FormBytes(fs[0]);
      Assoc(head, AllBytes(fs[1..]), [0xff]);
      AtSplit(buf, i, head, AllBytes(fs[1..]) + [0xff]);
      NotBreak(fs[0]);
      AtByte(buf, i, head, 0);
      FormRead(buf, i, fs[0]);
      AllReadOpen(buf, i + |head|, fs[1..]);
    }
  }

  lemma {:induction false} EntryRead(buf: seq<byte>, i: nat, e: FormEntry)
    requires Scalar(e.key) && Spellable(e.form) && At(buf, i, EntryBytes(e))
    ensures DecodePair(buf, i) == Some(Decoded(MeaningEntry(e), i + |EntryBytes(e)|))
    decreases e, 1
  {
    hide Decode, FormBytes, ScalarBytes;
    AtSplit(buf, i, ScalarBytes(e.key), FormBytes(e.form));
    ScalarRead(buf, i, e.key);
    FormRead(buf, i + |ScalarBytes(e.key)|, e.form);
  }

  /** The entries can be added to `acc` without replacing anything. */
  predicate Fresh(acc: seq<Entry>, es: seq<FormEntry>) {
    && (forall e <- es :: !HasKey(acc, e.key))
    && (forall i, j :: 0 <= i < j < |es| ==> KeyOf(es[i].key) != KeyOf(es[j].key))
  }

  /** Adding the first of them appends it and leaves the rest fresh. */
  lemma FreshStep(acc: seq<Entry>, es: seq<FormEntry>)
    requires es != [] && Fresh(acc, es)
    ensures var e := MeaningEntry(es[0]);
            Put(acc, e.key, e.value) == acc + [e] && Fresh(acc + [e], es[1..])
  {
    var e := MeaningEntry(es[0]);
    assert es[0] in es;
    PutNew(acc, e.key, e.value);
    forall x | x in es[1..]
      ensures !HasKey(acc + [e], x.key)
    {
      assert x in es;
      var j :| 0 < j < |es| && es[j] == x;
    }
  }

  lemma {:induction false} EntriesRead(buf: seq<byte>, i: nat, es: seq<FormEntry>, acc: seq<Entry>)
    requires (forall e <- es :: Scalar(e.key) && Spellable(e.form)) && Fresh(acc, es)
    requires At(buf, i, EntriesBytes(es))
    ensures DecodePairs(buf, i, |es|, acc) == Some(Decoded(acc + MeaningEntries(es), i + |EntriesBytes(es)|))
    decreases es, 1
  {
    hide DecodePair, EntryBytes, MeaningEntry, Put, Fresh;
    if es == [] {
      Empty(acc);
    } else {
      var e := MeaningEntry(es[0]);
      AtSplit(buf, i, EntryBytes(es[0]), EntriesBytes(es[1..]));
      EntryRead(buf, i, es[0]);
      FreshStep(acc, es);
      EntriesRead(buf, i + |EntryBytes(es[0])|, es[1..], acc + [e]);
      Assoc(acc, [e], MeaningEntries(es[1..]));
    }
  }

  lemma {:induction false} EntriesReadOpen(buf: seq<byte>, i: nat, es: seq<FormEntry>, acc: seq<Entry>)
    requires (forall e <- es :: Scalar(e.key) && Spellable(e.form)) && Fresh(acc, es)
    requires At(buf, i, EntriesBytes(es) + [0xff])
    ensures DecodePairsUntil(buf, i, acc) == Some(Decoded(acc + MeaningEntries(es), i + |EntriesBytes(es)| + 1))
    decreases es, 1
  {
    hide DecodePair, EntryBytes, MeaningEntry, Put, Fresh;
    if es == [] {
      Empty(acc);
      Empty([0xff]);
      AtByte(buf, i, [0xff], 0);
    } else {
      var e, head := MeaningEntry(es[0]), EntryBytes(es[0]);
      Assoc(head, EntriesBytes(es[1..]), [0xff]);
      AtSplit(buf, i, head, EntriesBytes(es[1..]) + [0xff]);
      EntryNotBreak(es[0]);
      AtByte(buf, i, head, 0);
      EntryRead(buf, i, es[0]);
      FreshStep(acc, es);
      EntriesReadOpen(buf, i + |head|, es[1..], acc + [e]);
      Assoc(acc, [e], MeaningEntries(es[1..]));
    }
  }

  lemma EntryNotBreak(e: FormEntry)
    requires Scalar(e.key) && Spellable(e.form)
    ensures |EntryBytes(e)| > 0 && EntryBytes(e)[0] != 0xff
  {
    ScalarNotBreak(e.key);
  }

  /**
   Whatever comes before and after it, a spelling decodes to its meaning and to its exact
   end, however deep it nests and whichever containers were left open.
   */
  lemma DecodeSpelling(pre: seq<byte>, f: Form, post: seq<byte>)
    requires Spellable(f)
    ensures Decode(pre + FormBytes(f) + post, |pre|) == Some(Decoded(Meaning(f), |pre| + |FormBytes(f)|))
  {
    var buf := pre + FormBytes(f) + post;
    assert buf[|pre|..|pre| + |FormBytes(f)|] == FormBytes(f);
    FormRead(buf, |pre|, f);
  }

  /** No spelling is the beginning of another with a different meaning. */
  lemma Unambiguous(f: Form, g: Form, a: seq<byte>, b: seq<byte>)
    requires Spellable(f) && Spellable(g) && FormBytes(f) + a == FormBytes(g) + b
    ensures Meaning(f) == Meaning(g) && FormBytes(f) == FormBytes(g)
  {
    DecodeSpelling([], f, a);
    DecodeSpelling([], g, b);
    Empty(FormBytes(f));
    Empty(FormBytes(g));
    assert (FormBytes(f) + a)[..|FormBytes(f)|] == FormBytes(f);
    assert (FormBytes(g) + b)[..|FormBytes(g)|] == FormBytes(g);
  }

  // ----- the host's own encoder

  /** A value the host can hold: every dictionary's keys are hashable and different. */
  predicate Proper(v: Value) {
    match v
    case List(vs) => forall x <- vs :: Proper(x)
    case Map(es) =>
      && (forall e <- es :: Hashable(e.key) && Proper(e.value))
      && (forall i, j :: 0 <= i < j < |es| ==> KeyOf(es[i].key) != KeyOf(es[j].key))
    case _ => true
  }

  /** The spelling the host's encoder uses: every container counted. */
  function Plain(v: Value): Form {
    match v
    case List(vs) => ListForm(false, PlainAll(vs))
    case Map(es) => MapForm(false, PlainEntries(es))
    case _ => Leaf(v)
  }

  function PlainAll(vs: seq<Value>): (r: seq<Form>)
    ensures |r| == |vs|
  {
    if vs == [] then [] else [Plain(vs[0])] + PlainAll(vs[1..])
  }

  function PlainEntry(e: Entry): FormEntry {
    FormEntry(e.key, Plain(e.value))
  }

  function PlainEntries(es: seq<Entry>): (r: seq<FormEntry>)
    ensures |r| == |es|
    ensures forall i :: 0 <= i < |es| ==> r[i].key == es[i].key
  {
    if es == [] then [] else [PlainEntry(es[0])] + PlainEntries(es[1..])
  }

  lemma {:induction false} EncodeIsPlain(v: Value)
    requires Proper(v) && Encode(v).Some?
    ensures Spellable(Plain(v)) && Meaning(Plain(v)) == v && FormBytes(Plain(v)) == Encode(v).value
    decreases v, 0
  {
    match v {
      case List(vs) => EncodeAllIsPlain(vs);
      case Map(es) => EncodeEntriesIsPlain(es);
      case _ =>
    }
  }

  lemma {:induction false} EncodeAllIsPlain(vs: seq<Value>)
    requires (forall x <- vs :: Proper(x)) && EncodeAll(vs).Some?
    ensures forall x <- PlainAll(vs) :: Spellable(x)
    ensures MeaningAll(PlainAll(vs)) == vs && AllBytes(PlainAll(vs)) == EncodeAll(vs).value
    decreases vs, 1
  {
    if vs != [] {
      EncodeIsPlain(vs[0]);
      EncodeAllIsPlain(vs[1..]);
      assert PlainAll(vs)[1..] == PlainAll(vs[1..]);
    }
  }

  lemma {:induction false} EncodeEntryIsPlain(e: Entry)
    requires Hashable(e.key) && Proper(e.value) && EncodeEntry(e).Some?
    ensures var p := PlainEntry(e);
            && Scalar(p.key) && Spellable(p.form)
            && MeaningEntry(p) == e && EntryBytes(p) == EncodeEntry(e).value
    decreases e, 1
  {
    EncodeIsPlain(e.key);
    EncodeIsPlain(e.value);
  }

  lemma {:induction false} EncodeEntriesIsPlain(es: seq<Entry>)
    requires (forall e <- es :: Hashable(e.key) && Proper(e.value)) && EncodeEntries(es).Some?
    ensures forall e <- PlainEntries(es) :: Scalar(e.key) && Spellable(e.form)
    ensures MeaningEntries(PlainEntries(es)) == es && EntriesBytes(PlainEntries(es)) == EncodeEntries(es).value
    decreases es, 1
  {
    if es != [] {
      EncodeEntryIsPlain(es[0]);
      EncodeEntriesIsPlain(es[1..]);
      assert PlainEntries(es)[1..] == PlainEntries(es[1..]);
    }
  }

  /** Decoding what the host encoded, anywhere in a buffer, gives the value back and its exact length. */
  lemma RoundTrip(pre: seq<byte>, v: Value, post: seq<byte>)
    requires Proper(v) && Encode(v).Some?
    ensures Decode(pre + Encode(v).value + post, |pre|) == Some(Decoded(v, |pre| + |Encode(v).value|))
  {
    EncodeIsPlain(v);
    DecodeSpelling(pre, Plain(v), post);
  }
}
