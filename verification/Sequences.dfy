/** Regrouping of concatenations, kept apart so that no larger proof has to search for it. */
module Sequences {
  lemma Associates<T>(a: seq<T>, b: seq<T>, c: seq<T>)
    ensures (a + b) + c == a + (b + c)
  {
  }

  lemma Regroups<T>(a: seq<T>, b: seq<T>, c: seq<T>, d: seq<T>)
    ensures a + ((b + c) + d) == ((a + b) + c) + d
  {
  }

  lemma FiveInARow<T>(a: seq<T>, b: seq<T>, c: seq<T>, d: seq<T>, e: seq<T>)
    ensures a + b + c + d + e == a + (b + (c + (d + e)))
  {
  }

  /** Taking the first element off a concatenation. */
  lemma FirstOff<T>(a: seq<T>, b: seq<T>)
    requires a != []
    ensures a + b != [] && (a + b)[0] == a[0] && (a + b)[1..] == a[1..] + b
  {
  }

  lemma TailOf<T>(first: T, rest: seq<T>)
    ensures [first] + rest != [] && ([first] + rest)[0] == first && ([first] + rest)[1..] == rest
  {
  }

  /** The elements of the middle of three sequences. */
  lemma Middle<T>(a: seq<T>, b: seq<T>, c: seq<T>, k: nat)
    requires k < |b|
    ensures |a| + k < |a + b + c| && (a + b + c)[|a| + k] == b[k]
  {
  }

  /** One element more of a prefix. */
  lemma NextPrefix<T>(s: seq<T>, i: nat)
    requires i < |s|
    ensures s[..i + 1] == s[..i] + [s[i]]
  {
  }

  lemma PrefixHead<T>(s: seq<T>, k: nat)
    requires 0 < k <= |s|
    ensures s[..k] == [s[0]] + s[1..][..k - 1]
  {
  }

  lemma WithoutLast<T>(init: seq<T>, last: T)
    ensures |init + [last]| == |init| + 1 && (init + [last])[..|init|] == init && (init + [last])[|init|] == last
  {
  }

  /** Cutting a concatenation within its first part. */
  lemma CutEarly<T>(a: seq<T>, b: seq<T>, i: nat)
    requires i < |a|
    ensures (a + b)[..i] == a[..i] && (a + b)[i + 1..] == a[i + 1..] + b
  {
  }

  lemma EmptyFirst<T>(s: seq<T>)
    ensures [] + s == s && [s][1..] == []
  {
  }

  lemma HeadAndTail<T>(s: seq<T>)
    requires s != []
    ensures [s[0]] + s[1..] == s
  {
  }
}
