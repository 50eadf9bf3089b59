/** Sequence and text helpers shared by the other modules. */
module Strings {
  /** Extending a prefix by one element. */
  lemma PrefixStep<T>(s: seq<T>, n: nat)
    requires n < |s|
    ensures s[..n + 1] == s[..n] + [s[n]]
  {
  }

  /** `s.replace(from, to)` for one-character arguments: every `from` becomes
      `to`, every other character stays where it is. */
  function Replace(s: string, from: char, to: char): (r: string)
    ensures |r| == |s|
    ensures forall k :: 0 <= k < |s| && s[k] == from ==> r[k] == to
    ensures forall k :: 0 <= k < |s| && s[k] != from ==> r[k] == s[k]
    ensures from != to ==> from !in r
  {
    seq(|s|, k requires 0 <= k < |s| => if s[k] == from then to else s[k])
  }
}
