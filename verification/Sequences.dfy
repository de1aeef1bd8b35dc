/** Facts about sequences that loops need. */
module Sequences {
  lemma TakeOneMore<T>(s: seq<T>, i: nat)
    requires i < |s|
    ensures s[..i + 1] == s[..i] + [s[i]]
  {
  }

  /** What holds pair by pair in two pairs of sequences holds when they are put one after the other. */
  lemma PairedBoth<A, B>(fits: (A, B) -> bool, a: seq<A>, v: seq<B>, b: seq<A>, w: seq<B>)
    requires |a| == |v| && |b| == |w|
    requires (forall i :: 0 <= i < |a| ==> fits(a[i], v[i])) && forall i :: 0 <= i < |b| ==> fits(b[i], w[i])
    ensures forall i :: 0 <= i < |a + b| ==> fits((a + b)[i], (v + w)[i])
  {
  }

  lemma PlusNothing<T>(s: seq<T>)
    ensures s + [] == s
  {
  }

  lemma TakeAll<T>(s: seq<T>)
    ensures s[..|s|] == s
  {
  }
}
