/** The stream combinators the transaction listing composes: take-while,
    take and (for comparison) filter, over a finite prefix of a
    forward-only stream. */
module Pager {
  import opened Ints

  /** `k` is the length of the longest leading run of `s` whose elements all
      satisfy `p`. */
  ghost predicate IsLeadingRun<T>(s: seq<T>, p: T -> bool, k: nat) {
    && k <= |s|
    && (forall i :: 0 <= i < k ==> p(s[i]))
    && (k < |s| ==> !p(s[k]))
  }

  lemma LeadingRunUnique<T>(s: seq<T>, p: T -> bool, k1: nat, k2: nat)
    requires IsLeadingRun(s, p, k1) && IsLeadingRun(s, p, k2)
    ensures k1 == k2
  {
  }

  /** Stream `take_while`: yields elements while `p` holds and stops for good
      at the first element that fails it. */
  function TakeWhile<T>(s: seq<T>, p: T -> bool): (r: seq<T>)
    ensures IsLeadingRun(s, p, |r|)
    ensures r == s[..|r|]
    decreases |s|
  {
    if |s| == 0 || !p(s[0]) then [] else [s[0]] + TakeWhile(s[1..], p)
  }

  /** Stream `take(n)`: at most the first `n` elements. */
  function Take<T>(s: seq<T>, n: nat): (r: seq<T>)
    ensures |r| == Min(n, |s|)
    ensures r == s[..|r|]
    decreases n
  {
    if n == 0 || |s| == 0 then [] else [s[0]] + Take(s[1..], n - 1)
  }

  /** Stream `filter`: every element that satisfies `p`, in order. */
  function Filter<T>(s: seq<T>, p: T -> bool): (r: seq<T>)
    ensures |r| <= |s|
    ensures forall i :: 0 <= i < |r| ==> p(r[i])
    decreases |s|
  {
    if |s| == 0 then []
    else if p(s[0]) then [s[0]] + Filter(s[1..], p)
    else Filter(s[1..], p)
  }

  /** When `p` can only go from true to false along `s` (as `lt > B` does on
      a sequence ordered by decreasing `lt`), taking while `p` holds is the
      same as filtering by `p`: the early stop loses nothing. */
  lemma {:induction false} TakeWhileIsFilterWhenMonotone<T>(s: seq<T>, p: T -> bool)
    requires forall i, j :: 0 <= i < j < |s| && p(s[j]) ==> p(s[i])
    ensures TakeWhile(s, p) == Filter(s, p)
    decreases |s|
  {
    if |s| > 0 {
      if p(s[0]) {
        TakeWhileIsFilterWhenMonotone(s[1..], p);
      } else {
        NoneSatisfy(s, p);
      }
    }
  }

  /** If the head fails a monotone `p`, nothing after it satisfies `p`. */
  lemma {:induction false} NoneSatisfy<T>(s: seq<T>, p: T -> bool)
    requires |s| > 0 && !p(s[0])
    requires forall i, j :: 0 <= i < j < |s| && p(s[j]) ==> p(s[i])
    ensures Filter(s, p) == []
    decreases |s|
  {
    if |s| > 1 {
      assert !p(s[1]);
      NoneSatisfy(s[1..], p);
    }
  }
}
