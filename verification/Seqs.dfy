/** The few facts about concatenation that proofs name instead of rediscovering. */
module Seqs {

  lemma Assoc<T>(a: seq<T>, b: seq<T>, c: seq<T>)
    ensures (a + b) + c == a + (b + c)
  {}

  lemma Units<T>(a: seq<T>)
    ensures a + [] == a && [] + a == a
  {}

  lemma Split<T>(s: seq<T>, k: nat)
    requires k <= |s|
    ensures s[..k] + s[k..] == s
  {}
}
