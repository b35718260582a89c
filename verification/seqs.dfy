/** Facts about sequence concatenation shared by the text-building modules. */
module Seqs {
  /** Regrouping a concatenation of three sequences. */
  lemma ConcatAssociative<T>(a: seq<T>, b: seq<T>, c: seq<T>)
    ensures a + (b + c) == (a + b) + c
  {
  }

  /** A non-empty prefix splits the same way as the sequence it is cut from:
      same head, and its tail is a prefix of the tail. */
  lemma PrefixOfTail<T>(s: seq<T>, i: nat)
    requires 0 < i < |s|
    ensures |s[..i]| > 0 && s[..i][0] == s[0] && s[..i][1..] == s[1..][..i - 1] && s[i] == s[1..][i - 1]
  {
  }

  /** Cutting a sequence with one more element in front. */
  lemma ConsPrefix<T>(x: T, s: seq<T>, i: nat)
    requires 0 < i <= |s|
    ensures ([x] + s)[..i] == [x] + s[..i - 1] && ([x] + s)[i] == s[i - 1]
  {
  }
}
