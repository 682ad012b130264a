/** Small shared vocabulary: an Option type for JavaScript's null/undefined,
    and the list operations the store is built from (filter, counting, sums). */
module Common {

  /** `None` stands for JavaScript's `null` or `undefined`. */
  datatype Option<+T> = None | Some(value: T)

  /** The outcome of a merge reducer: whether it reports a change, and the list the
      namespace holds afterwards (the local list itself when nothing changed). */
  datatype Merged<T> = Merged(changed: bool, list: seq<T>)

  /** `Array.prototype.filter`: the elements satisfying `keep`, in their original order. */
  function Filter<T>(s: seq<T>, keep: T -> bool): (r: seq<T>)
    ensures |r| <= |s|
    ensures forall i :: 0 <= i < |r| ==> keep(r[i]) && r[i] in s
    ensures forall x :: x in s && keep(x) ==> x in r
    ensures multiset(r) <= multiset(s)
  {
    if |s| == 0 then []
    else
      assert s == [s[0]] + s[1..];
      (if keep(s[0]) then [s[0]] else []) + Filter(s[1..], keep)
  }

  /** The number of elements that `keep` rejects: what a filter callback counts when it
      increments a counter before returning false. */
  function CountRejected<T>(s: seq<T>, keep: T -> bool): nat
  {
    if |s| == 0 then 0
    else (if keep(s[0]) then 0 else 1) + CountRejected(s[1..], keep)
  }

  /** Filtering distributes over concatenation: together with the one-element case this
      pins `Filter` down as "the kept elements, in order". */
  lemma {:induction false} FilterConcat<T>(a: seq<T>, b: seq<T>, keep: T -> bool)
    ensures Filter(a + b, keep) == Filter(a, keep) + Filter(b, keep)
  {
    if |a| == 0 {
      assert a + b == b;
    } else {
      assert (a + b)[1..] == a[1..] + b;
      FilterConcat(a[1..], b, keep);
    }
  }

  /** Filtering keeps the relative order of the kept elements: any relation that holds
      between every element and each later one still holds in the filtered list. */
  lemma {:induction false} FilterKeepsOrder<T>(s: seq<T>, keep: T -> bool, before: (T, T) -> bool)
    requires forall i, j :: 0 <= i < j < |s| ==> before(s[i], s[j])
    ensures forall i, j :: 0 <= i < j < |Filter(s, keep)| ==> before(Filter(s, keep)[i], Filter(s, keep)[j])
  {
    if |s| > 0 {
      var t := s[1..];
      forall i, j | 0 <= i < j < |t|
        ensures before(t[i], t[j])
      {
        assert t[i] == s[i + 1] && t[j] == s[j + 1];
      }
      FilterKeepsOrder(t, keep, before);
      if keep(s[0]) {
        var ft := Filter(t, keep);
        forall y | y in ft
          ensures before(s[0], y)
        {
          var k :| 0 <= k < |t| && t[k] == y;
          assert t[k] == s[k + 1];
        }
        ConsKeepsOrder(s[0], ft, before);
      }
    }
  }

  /** A list whose head precedes every later element, and whose tail is ordered, is ordered. */
  lemma {:induction false} ConsKeepsOrder<T>(x: T, t: seq<T>, before: (T, T) -> bool)
    requires forall y :: y in t ==> before(x, y)
    requires forall i, j :: 0 <= i < j < |t| ==> before(t[i], t[j])
    ensures forall i, j :: 0 <= i < j < |[x] + t| ==> before(([x] + t)[i], ([x] + t)[j])
  {
    var r := [x] + t;
    forall i, j | 0 <= i < j < |r|
      ensures before(r[i], r[j])
    {
      assert r[j] == t[j - 1];
      if i > 0 {
        assert r[i] == t[i - 1];
      }
    }
  }

  /** A filter that rejects nothing returns its input. */
  lemma {:induction false} FilterKeepsAll<T>(s: seq<T>, keep: T -> bool)
    requires forall i :: 0 <= i < |s| ==> keep(s[i])
    ensures Filter(s, keep) == s
  {
    if |s| > 0 {
      FilterKeepsAll(s[1..], keep);
    }
  }

  /** Kept plus rejected accounts for every element. */
  lemma {:induction false} FilterCount<T>(s: seq<T>, keep: T -> bool)
    ensures |Filter(s, keep)| + CountRejected(s, keep) == |s|
  {
    if |s| > 0 {
      FilterCount(s[1..], keep);
    }
  }

  /** A filter that returns as many elements as it was given rejected nothing. */
  lemma {:induction false} FilterFullLength<T>(s: seq<T>, keep: T -> bool)
    requires |Filter(s, keep)| == |s|
    ensures Filter(s, keep) == s
  {
    if |s| > 0 {
      assert |Filter(s, keep)| == (if keep(s[0]) then 1 else 0) + |Filter(s[1..], keep)|;
      assert |Filter(s[1..], keep)| <= |s| - 1;
      FilterFullLength(s[1..], keep);
    }
  }

  /** One rejected element means a positive count. */
  lemma {:induction false} CountRejectedPositive<T>(s: seq<T>, keep: T -> bool, i: int)
    requires 0 <= i < |s| && !keep(s[i])
    ensures CountRejected(s, keep) > 0
  {
    if i > 0 && keep(s[0]) {
      CountRejectedPositive(s[1..], keep, i - 1);
    }
  }

  /** Nothing rejected means nothing counted. */
  lemma {:induction false} CountRejectedZero<T>(s: seq<T>, keep: T -> bool)
    requires forall i :: 0 <= i < |s| ==> keep(s[i])
    ensures CountRejected(s, keep) == 0
  {
    if |s| > 0 {
      CountRejectedZero(s[1..], keep);
    }
  }

  /** `arr.reduce((a, b) => a + b, 0)`. */
  function Sum(s: seq<int>): int
  {
    if |s| == 0 then 0 else s[0] + Sum(s[1..])
  }

  /** Every element lies in `lo..hi`, so the sum lies in `|s|*lo .. |s|*hi`. */
  lemma {:induction false} SumBounds(s: seq<int>, lo: int, hi: int)
    requires forall i :: 0 <= i < |s| ==> lo <= s[i] <= hi
    ensures |s| * lo <= Sum(s) <= |s| * hi
  {
    if |s| > 0 {
      SumBounds(s[1..], lo, hi);
    }
  }
}
