/** Small facts about sequence concatenation, stated once so that proofs
    elsewhere can cite them instead of rediscovering them. */
module Seqs {
  /** A non-empty sequence followed by `x` is its head followed by the rest. */
  lemma ConsAppend<T>(a: seq<T>, x: seq<T>)
    requires a != []
    ensures a + x == [a[0]] + (a[1..] + x)
    ensures (a + x)[0] == a[0] && (a + x)[1..] == a[1..] + x
  {
  }

  lemma Assoc<T>(a: seq<T>, b: seq<T>, c: seq<T>)
    ensures a + (b + c) == (a + b) + c
  {
  }

  /** The elements of a slice that equals `part`. */
  lemma SliceElements<T>(q: seq<T>, start: nat, part: seq<T>)
    requires start + |part| <= |q| && q[start..start + |part|] == part
    ensures forall i :: 0 <= i < |part| ==> q[start + i] == part[i]
  {
    forall i | 0 <= i < |part| ensures q[start + i] == part[i] {
      assert q[start..start + |part|][i] == q[start + i];
    }
  }
}
