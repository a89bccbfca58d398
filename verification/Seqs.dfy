/** Facts about sequences that the proofs below quote by name. */
module Seqs {

  function Flatten<T>(ss: seq<seq<T>>): seq<T> {
    if ss == [] then [] else ss[0] + Flatten(ss[1..])
  }

  lemma Assoc<T>(a: seq<T>, b: seq<T>, c: seq<T>)
    ensures a + (b + c) == (a + b) + c
  {
  }

  lemma Empty<T>(a: seq<T>)
    ensures a + [] == a == [] + a
  {
  }

  /** Cutting the rest of a sequence is cutting the sequence further on. */
  lemma CutRest<T>(s: seq<T>, off: nat, n: nat)
    requires off + n <= |s|
    ensures s[off..][..n] == s[off..off + n]
    ensures s[off..][n..] == s[off + n..]
  {
  }

  lemma {:induction false} FlattenAppend<T>(ss: seq<seq<T>>, s: seq<T>)
    ensures Flatten(ss + [s]) == Flatten(ss) + s
  {
    if ss == [] {
      Empty(s);
      assert ([] + [s])[1..] == [];
    } else {
      assert (ss + [s])[1..] == ss[1..] + [s];
      FlattenAppend(ss[1..], s);
      Assoc(ss[0], Flatten(ss[1..]), s);
    }
  }
}
