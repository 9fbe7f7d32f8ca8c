/** The activity list shown under the two filter selectors: a stable filter
    over the loaded activities, where the selector value "all" matches any
    category and any activity. */
module ActivityFilter {
  import opened Types

  /** The wildcard value of both selectors. */
  const All: string := "all"

  /** The category selector admits `a`. */
  predicate CategoryMatch(a: Activity, category: string) {
    category == All || a.categoryId == category
  }

  /** The activity selector admits `a`. */
  predicate ActivityMatch(a: Activity, activity: string) {
    activity == All || a.id == activity
  }

  /** Both selectors admit `a`. */
  predicate Matches(a: Activity, category: string, activity: string) {
    CategoryMatch(a, category) && ActivityMatch(a, activity)
  }

  /** The activities both selectors admit, in load order. Written as a
      left-to-right scan, so a prefix's result is a prefix of the result. */
  function Filter(acts: seq<Activity>, category: string, activity: string): (r: seq<Activity>)
    ensures |r| <= |acts|
    ensures forall i :: 0 <= i < |r| ==> Matches(r[i], category, activity) && r[i] in acts
  {
    if |acts| == 0 then []
    else
      var init := Filter(acts[..|acts| - 1], category, activity);
      var last := acts[|acts| - 1];
      assert forall a :: a in acts[..|acts| - 1] ==> a in acts;
      if Matches(last, category, activity) then init + [last] else init
  }

  /** `idx` lists, in strictly increasing order, the positions in `ys` at
      which the elements of `xs` occur. */
  ghost predicate Embeds<T>(idx: seq<int>, xs: seq<T>, ys: seq<T>) {
    && |idx| == |xs|
    && (forall k :: 0 <= k < |idx| ==> 0 <= idx[k] < |ys| && ys[idx[k]] == xs[k])
    && (forall k, l :: 0 <= k < l < |idx| ==> idx[k] < idx[l])
  }

  /** `xs` is `ys` with some elements dropped and the rest kept in order. */
  ghost predicate IsSubsequence<T>(xs: seq<T>, ys: seq<T>) {
    exists idx :: Embeds(idx, xs, ys)
  }

  /** With both selectors on "all" the list is every activity, unchanged and
      in order. */
  lemma {:induction false} FilterAllIsIdentity(acts: seq<Activity>)
    ensures Filter(acts, All, All) == acts
  {
    if |acts| > 0 {
      FilterAllIsIdentity(acts[..|acts| - 1]);
      assert acts[..|acts| - 1] + [acts[|acts| - 1]] == acts;
    }
  }

  /** The list is an order-preserving subsequence of the loaded activities. */
  lemma {:induction false} FilterIsSubsequence(acts: seq<Activity>, category: string, activity: string)
    ensures IsSubsequence(Filter(acts, category, activity), acts)
  {
    var idx := FilterPositions(acts, category, activity);
  }

  /** The positions the filter keeps, with the embedding they form. */
  lemma {:induction false} FilterPositions(acts: seq<Activity>, category: string, activity: string)
    returns (idx: seq<int>)
    ensures Embeds(idx, Filter(acts, category, activity), acts)
  {
    if |acts| == 0 {
      idx := [];
    } else {
      var n := |acts| - 1;
      var init := acts[..n];
      var prev := FilterPositions(init, category, activity);
      var r0 := Filter(init, category, activity);
      if Matches(acts[n], category, activity) {
        idx := prev + [n];
        var r := r0 + [acts[n]];
        assert Filter(acts, category, activity) == r;
        forall k | 0 <= k < |idx|
          ensures 0 <= idx[k] < |acts| && acts[idx[k]] == r[k]
        {
          if k < |prev| {
            assert init[prev[k]] == r0[k];
          }
        }
      } else {
        idx := prev;
        forall k | 0 <= k < |idx|
          ensures 0 <= idx[k] < |acts| && acts[idx[k]] == r0[k]
        {
          assert init[prev[k]] == r0[k];
        }
      }
    }
  }

  /** Each activity occurs in the list exactly as often as in the loaded
      activities when both selectors admit it, and not at all otherwise. */
  lemma {:induction false} FilterMultiplicity(acts: seq<Activity>, category: string, activity: string, a: Activity)
    ensures multiset(Filter(acts, category, activity))[a]
         == if Matches(a, category, activity) then multiset(acts)[a] else 0
  {
    if |acts| > 0 {
      var n := |acts| - 1;
      FilterMultiplicity(acts[..n], category, activity, a);
      assert acts == acts[..n] + [acts[n]];
      assert multiset(acts) == multiset(acts[..n]) + multiset{acts[n]};
    }
  }

  /** An activity is listed if and only if it is loaded and matches both the
      category selector and the activity selector. */
  lemma {:induction false} FilterMembership(acts: seq<Activity>, category: string, activity: string, a: Activity)
    ensures a in Filter(acts, category, activity)
        <==> a in acts && CategoryMatch(a, category) && ActivityMatch(a, activity)
  {
    FilterMultiplicity(acts, category, activity, a);
  }

  /** Choosing a category (activity selector on "all") lists exactly the
      loaded activities of that category. */
  lemma FilterByCategory(acts: seq<Activity>, category: string, a: Activity)
    requires category != All
    ensures a in Filter(acts, category, All) <==> a in acts && a.categoryId == category
  {
    FilterMembership(acts, category, All, a);
  }
}
