/**
 Which values the CBOR encoder takes, and what becomes of a key that a peer repeats.
 */
module CborLaw {
  import opened Bits
  import opened Options
  import opened Seqs
  import opened Cbor
  import opened CborRoundTrip

  // ----- what can be encoded

  /** Null and negative numbers cannot, nor anything whose number, length or count needs more than 32 bits. */
  predicate Encodable(v: Value) {
    match v
    case Null => false
    case Bool(_) => true
    case Int(n) => 0 <= n < 0x1_0000_0000
    case Blob(b) => |b| < 0x1_0000_0000
    case Text(b) => |b| < 0x1_0000_0000
    case List(vs) => |vs| < 0x1_0000_0000 && forall x <- vs :: Encodable(x)
    case Map(es) => |es| < 0x1_0000_0000 && forall e <- es :: Encodable(e.key) && Encodable(e.value)
  }

  lemma {:induction false} EncodesIff(v: Value)
    ensures Encode(v).Some? <==> Encodable(v)
    decreases v, 2
  {
    match v
    case List(vs) => AllEncodeIff(vs);
    case Map(es) => EntriesEncodeIff(es);
    case _ =>
  }

  lemma {:induction false} AllEncodeIff(vs: seq<Value>)
    ensures EncodeAll(vs).Some? <==> forall x <- vs :: Encodable(x)
    decreases vs, 1
  {
    hide Encode, Encodable;
    if vs != [] {
      EncodesIff(vs[0]);
      AllEncodeIff(vs[1..]);
      assert vs == [vs[0]] + vs[1..];
    }
  }

  lemma {:induction false} EntriesEncodeIff(es: seq<Entry>)
    ensures EncodeEntries(es).Some? <==> forall e <- es :: Encodable(e.key) && Encodable(e.value)
    decreases es, 1
  {
    hide Encode, Encodable;
    if es != [] {
      EntryEncodesIff(es[0]);
      EntriesEncodeIff(es[1..]);
      assert es == [es[0]] + es[1..];
    }
  }

  lemma {:induction false} EntryEncodesIff(e: Entry)
    ensures EncodeEntry(e).Some? <==> Encodable(e.key) && Encodable(e.value)
    decreases e, 1
  {
    hide Encode, Encodable;
    EncodesIff(e.key);
    EncodesIff(e.value);
  }

  // ----- repeated keys

  predicate Numbers(b: Value, n: Value) {
    b.Bool? && n.Int? && n.n == if b.b then 1 else 0
  }

  /** Two keys are one if they are equal, or one is true or false and the other 1 or 0. */
  predicate SameKey(a: Value, b: Value) {
    a == b || Numbers(a, b) || Numbers(b, a)
  }

  lemma KeysCollideIff(a: Value, b: Value)
    ensures KeyOf(a) == KeyOf(b) <==> SameKey(a, b)
  {
  }

  function Lookup(es: seq<Entry>, k: Value): Option<Value> {
    if es == [] then None
    else if SameKey(es[0].key, k) then Some(es[0].value)
    else Lookup(es[1..], k)
  }

  function Keys(es: seq<Entry>): seq<Value> {
    if es == [] then [] else [es[0].key] + Keys(es[1..])
  }

  /** An assignment changes what its own key finds and nothing else, and only a new key is added, at the end. */
  lemma {:induction false} PutFinds(es: seq<Entry>, k: Value, v: Value, j: Value)
    ensures Lookup(Put(es, k, v), j) == if SameKey(k, j) then Some(v) else Lookup(es, j)
    ensures Keys(Put(es, k, v)) == if Lookup(es, k).Some? then Keys(es) else Keys(es) + [k]
  {
    hide SameKey, KeyOf;
    SameKeys(k, k, j);
    if es == [] {
      assert Put(es, k, v)[1..] == [];
    } else {
      PutFinds(es[1..], k, v, j);
      SameKeys(es[0].key, k, j);
      assert Put(es, k, v)[1..] == if SameKey(es[0].key, k) then es[1..] else Put(es[1..], k, v);
    }
  }

  lemma SameKeys(a: Value, k: Value, j: Value)
    ensures KeyOf(a) == KeyOf(k) <==> SameKey(a, k)
    ensures SameKey(a, k) ==> (SameKey(a, j) <==> SameKey(k, j))
    ensures SameKey(a, j) && SameKey(k, j) ==> SameKey(a, k)
  {
  }

  /** All the entries assigned in turn. */
  function PutAll(acc: seq<Entry>, es: seq<Entry>): seq<Entry>
    decreases |es|
  {
    if es == [] then acc else PutAll(Put(acc, es[0].key, es[0].value), es[1..])
  }

  /** The last value given to a key. */
  function LastValue(es: seq<Entry>, k: Value): Option<Value> {
    if es == [] then None
    else
      var later := LastValue(es[1..], k);
      if later.Some? then later else if SameKey(es[0].key, k) then Some(es[0].value) else None
  }

  lemma {:induction false} PutAllFinds(acc: seq<Entry>, es: seq<Entry>, k: Value)
    ensures Lookup(PutAll(acc, es), k) == if LastValue(es, k).Some? then LastValue(es, k) else Lookup(acc, k)
    decreases |es|
  {
    hide SameKey, Put, Lookup;
    if es != [] {
      PutFinds(acc, es[0].key, es[0].value, k);
      PutAllFinds(Put(acc, es[0].key, es[0].value), es[1..], k);
    }
  }

  lemma {:induction false} EntriesPut(buf: seq<byte>, i: nat, es: seq<FormEntry>, acc: seq<Entry>)
    requires (forall e <- es :: Scalar(e.key) && Spellable(e.form)) && At(buf, i, EntriesBytes(es))
    ensures DecodePairs(buf, i, |es|, acc) == Some(Decoded(PutAll(acc, MeaningEntries(es)), i + |EntriesBytes(es)|))
    decreases |es|
  {
    hide DecodePair, EntryBytes, MeaningEntry, Put, Spellable, Scalar;
    if es != [] {
      var e := MeaningEntry(es[0]);
      AtSplit(buf, i, EntryBytes(es[0]), EntriesBytes(es[1..]));
      EntryRead(buf, i, es[0]);
      EntriesPut(buf, i + |EntryBytes(es[0])|, es[1..], Put(acc, e.key, e.value));
      assert MeaningEntries(es)[1..] == MeaningEntries(es[1..]);
    }
  }

  /**
   A counted map is read even if keys repeat: every key finds the last value given to it,
   and one that differs from all of them finds nothing.
   */
  lemma LastValueWins(pre: seq<byte>, es: seq<FormEntry>, post: seq<byte>, k: Value)
    requires |es| < 0x1_0000_0000 && forall e <- es :: Scalar(e.key) && Spellable(e.form)
    ensures var text := Head(0xa0, |es|) + EntriesBytes(es);
            var r := Decode(pre + text + post, |pre|);
            && r.Some? && r.value.next == |pre| + |text| && r.value.value.Map?
            && Lookup(r.value.value.entries, k) == LastValue(MeaningEntries(es), k)
  {
    hide Head, Argument, DecodePairs, EntriesBytes, MeaningEntries, PutAll, Lookup, LastValue, Spellable, Scalar;
    var head := Head(0xa0, |es|);
    var text := head + EntriesBytes(es);
    var buf := pre + text + post;
    assert At(buf, |pre|, text);
    AtSplit(buf, |pre|, head, EntriesBytes(es));
    HeadRead(buf, |pre|, 0xa0, |es|);
    EntriesPut(buf, |pre| + |head|, es, []);
    PutAllFinds([], MeaningEntries(es), k);
    assert Lookup([], k) == None by { NothingFound(k); }
  }

  lemma NothingFound(k: Value)
    ensures Lookup([], k) == None
  {
  }
}
