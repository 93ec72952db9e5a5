/** Order-preserving filtering of sequences, the shape of the list
    comprehension `[f(x) for x in xs if keep(x)]` without the mapping part. */
module Seqs {

  /** The elements of `s` for which `keep` holds, in their original order. */
  function Filter<T(!new)>(s: seq<T>, keep: T -> bool): (r: seq<T>)
    ensures |r| <= |s|
    ensures forall k :: 0 <= k < |r| ==> keep(r[k])
    ensures forall x :: x in r <==> x in s && keep(x)
    decreases |s|
  {
    if |s| == 0 then []
    else if keep(s[0]) then [s[0]] + Filter(s[1..], keep)
    else Filter(s[1..], keep)
  }

  /** Filtering distributes over concatenation: nothing kept from the front
      part is moved behind anything kept from the back part, so the relative
      order of the kept elements is that of `s`. */
  lemma {:induction false} FilterConcat<T(!new)>(a: seq<T>, b: seq<T>, keep: T -> bool)
    ensures Filter(a + b, keep) == Filter(a, keep) + Filter(b, keep)
    decreases |a|
  {
    if |a| == 0 {
      assert a + b == b;
    } else {
      assert (a + b)[1..] == a[1..] + b;
      FilterConcat(a[1..], b, keep);
    }
  }

  /** A sequence whose every element is kept passes through unchanged. */
  lemma {:induction false} FilterKeepsAll<T(!new)>(s: seq<T>, keep: T -> bool)
    requires forall k :: 0 <= k < |s| ==> keep(s[k])
    ensures Filter(s, keep) == s
    decreases |s|
  {
    if |s| > 0 {
      FilterKeepsAll(s[1..], keep);
    }
  }

  /** The filtered sequence is empty exactly when no element is kept. */
  lemma FilterEmpty<T(!new)>(s: seq<T>, keep: T -> bool)
    ensures |Filter(s, keep)| == 0 <==> forall k :: 0 <= k < |s| ==> !keep(s[k])
  {
    if |Filter(s, keep)| == 0 {
      forall k | 0 <= k < |s|
        ensures !keep(s[k])
      {
        assert s[k] in s;
      }
    } else {
      assert Filter(s, keep)[0] in Filter(s, keep);
    }
  }
}
