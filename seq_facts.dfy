/** Small facts about sequences, each proved on its own so that the
    proofs using them need not reason about indices. */
module SeqFacts {

  /** The suffix from `i` starts with element `i`, and its tail is the
      suffix from `i + 1`. */
  lemma SuffixStep<T>(xs: seq<T>, i: nat)
    requires i < |xs|
    ensures xs[i..][0] == xs[i] && xs[i..][1..] == xs[i + 1..]
  {
  }

  /** Concatenation regroups. */
  lemma AppendAssoc<T>(a: seq<T>, b: seq<T>, c: seq<T>)
    ensures a + b + c == a + (b + c)
  {
  }

  /** Appending three sequences one after another appends their concatenation. */
  lemma AppendThree<T>(a: seq<T>, x: seq<T>, y: seq<T>, z: seq<T>)
    ensures a + x + y + z == a + (x + y + z)
  {
  }

  /** The first of three appended sequences is a prefix of the whole. */
  lemma PrefixOfAppendThree<T>(x: seq<T>, y: seq<T>, z: seq<T>)
    ensures (x + y + z)[..|x|] == x
  {
  }

  /** The last element of `a + z`, for a non-empty `z`, is the last of `z`. */
  lemma LastOfAppend<T>(a: seq<T>, z: seq<T>)
    requires |z| > 0
    ensures (a + z)[|a + z| - 1] == z[|z| - 1]
  {
  }

  /** A prefix of a suffix is a slice. */
  lemma PrefixOfSuffix<T>(s: seq<T>, i: nat, n: nat)
    requires i + n <= |s|
    ensures s[i..][..n] == s[i..i + n]
  {
  }

  /** A prefix of a prefix is the shorter prefix. */
  lemma PrefixOfPrefix<T>(s: seq<T>, j: nat, n: nat)
    requires n <= j <= |s|
    ensures s[..j][..n] == s[..n]
  {
  }

  /** After appending, the old sequence is a prefix and each appended
      element sits at its offset past it. */
  lemma AppendedAt<T>(xs: seq<T>, ys: seq<T>, zs: seq<T>)
    requires zs == xs + ys
    ensures |zs| == |xs| + |ys| && zs[..|xs|] == xs
    ensures forall i :: 0 <= i < |ys| ==> zs[|xs| + i] == ys[i]
  {
  }
}
