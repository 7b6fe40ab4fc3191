/**
 * Facts about sequence prefixes, suffixes and concatenation, stated over
 * arbitrary strings so that proofs about queries never have to look inside
 * their literal pieces.
 */
module Sequences {

  /** `t` begins with `p`. */
  predicate StartsWith<T(==)>(t: seq<T>, p: seq<T>) {
    |p| <= |t| && t[..|p|] == p
  }

  /** `t` ends with `p`. */
  predicate EndsWith<T(==)>(t: seq<T>, p: seq<T>) {
    |p| <= |t| && t[|t| - |p|..] == p
  }

  lemma DropPrefix(a: string, b: string)
    ensures (a + b)[|a|..] == b
  {
  }

  lemma StartsWithAppend(a: string, b: string)
    ensures StartsWith(a + b, a)
  {
    assert (a + b)[..|a|] == a;
  }

  lemma EndsWithAppend(a: string, b: string)
    ensures EndsWith(a + b, b)
  {
    assert (a + b)[|a|..] == b;
  }

  lemma SliceOfSuffix(q: string, k: nat, i: nat)
    requires k + i <= |q|
    ensures q[k..][i..] == q[k + i..]
    ensures q[k..][..i] == q[k..k + i]
  {
  }

  /** What follows `head` in `head + (mid + rest)`, and what follows `mid`. */
  lemma SliceAfter(q: string, head: string, mid: string, rest: string)
    requires q == head + (mid + rest)
    ensures |head| + |mid| <= |q|
    ensures q[|head|..] == mid + rest
    ensures q[|head| + |mid|..] == rest
  {
    DropPrefix(head, mid + rest);
    DropPrefix(mid, rest);
    SliceOfSuffix(q, |head|, |mid|);
  }

  lemma ConcatSplit(a: string, b: string, c: string, d: string, e: string, f: string)
    ensures a + b + c + d + e + f == a + (b + c + d + e + f)
    ensures a + b + c + d + e + f == (a + b + c) + (d + e + f)
  {
  }

  lemma ConcatGroupMiddle(a: string, b: string, c: string, d: string, e: string, f: string, g: string)
    ensures a + b + c + d + e + f + g == a + b + c + (d + e + f) + g
  {
  }

  lemma ConcatRegroup(a: string, b: string, c: string, d: string, e: string, f: string, g: string, h: string, i: string)
    ensures a + b + c + d + e + (f + g + h) + i == a + b + c + d + (e + f) + g + h + i
  {
  }
}
