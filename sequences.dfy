/** Order-preserving selection from a sequence, used to state enumeration and report order. */
module Sequences {

  /** `xs` is obtained from `ys` by deleting elements, keeping the order of the rest. */
  predicate IsSubsequence<T(==)>(xs: seq<T>, ys: seq<T>)
    decreases ys
  {
    xs == [] || (ys != [] && ((xs[0] == ys[0] && IsSubsequence(xs[1..], ys[1..])) || IsSubsequence(xs, ys[1..])))
  }

  lemma {:induction false} SubsequenceBounds<T>(xs: seq<T>, ys: seq<T>)
    requires IsSubsequence(xs, ys)
    ensures |xs| <= |ys|
    ensures forall x :: x in xs ==> x in ys
    decreases ys
  {
    if xs != [] {
      if xs[0] == ys[0] && IsSubsequence(xs[1..], ys[1..]) {
        SubsequenceBounds(xs[1..], ys[1..]);
        forall x | x in xs ensures x in ys {
          if x != xs[0] {
            assert x in xs[1..];
          }
        }
      } else {
        SubsequenceBounds(xs, ys[1..]);
      }
    }
  }

  lemma {:induction false} SubsequencePrepend<T>(xs: seq<T>, ws: seq<T>, ys: seq<T>)
    requires IsSubsequence(xs, ys)
    ensures IsSubsequence(xs, ws + ys)
    decreases ws
  {
    if ws != [] {
      SubsequencePrepend(xs, ws[1..], ys);
      assert (ws + ys)[1..] == ws[1..] + ys;
      assert IsSubsequence(xs, (ws + ys)[1..]);
    } else {
      assert ws + ys == ys;
    }
  }

  lemma {:induction false} SubsequenceConcat<T>(a: seq<T>, b: seq<T>, c: seq<T>, d: seq<T>)
    requires IsSubsequence(a, b) && IsSubsequence(c, d)
    ensures IsSubsequence(a + c, b + d)
    decreases b
  {
    if a == [] {
      SubsequencePrepend(c, b, d);
      assert a + c == c;
    } else if a[0] == b[0] && IsSubsequence(a[1..], b[1..]) {
      SubsequenceConcat(a[1..], b[1..], c, d);
      assert (a + c)[1..] == a[1..] + c;
      assert (b + d)[1..] == b[1..] + d;
    } else {
      SubsequenceConcat(a, b[1..], c, d);
      assert (b + d)[1..] == b[1..] + d;
    }
  }

  lemma SubsequenceEmpty<T>(ys: seq<T>)
    ensures IsSubsequence([], ys)
  {
  }
}
