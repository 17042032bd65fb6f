/** First-match linear search, the one search strategy the source uses:
    `for ... of` loops that `break`/`return` on the first hit, and the
    store's `findFirst`/`findUnique` in row order. */
module Search {
  import opened Base

  /** The index of the first element satisfying `p`, or None when no element does. */
  function FirstIndex<T>(s: seq<T>, p: T -> bool): (r: Option<nat>)
    ensures r.Some? ==> r.value < |s| && p(s[r.value])
    ensures r.Some? ==> forall j :: 0 <= j < r.value ==> !p(s[j])
    ensures r.None? ==> forall j :: 0 <= j < |s| ==> !p(s[j])
  {
    FirstFrom(s, p, 0)
  }

  function FirstFrom<T>(s: seq<T>, p: T -> bool, k: nat): (r: Option<nat>)
    requires k <= |s|
    ensures r.Some? ==> k <= r.value < |s| && p(s[r.value])
    ensures r.Some? ==> forall j :: k <= j < r.value ==> !p(s[j])
    ensures r.None? ==> forall j :: k <= j < |s| ==> !p(s[j])
    decreases |s| - k
  {
    if k == |s| then None
    else if p(s[k]) then Some(k)
    else FirstFrom(s, p, k + 1)
  }

  /** The first hit is determined by where `p` holds: an index that satisfies
      `p` with no earlier index satisfying it is the result. */
  lemma FirstIndexIs<T>(s: seq<T>, p: T -> bool, i: nat)
    requires i < |s| && p(s[i])
    requires forall j :: 0 <= j < i ==> !p(s[j])
    ensures FirstIndex(s, p) == Some(i)
  {
  }

  /** Two sequences on which `p` agrees position by position have the same first hit. */
  lemma FirstIndexStable<T>(s: seq<T>, t: seq<T>, p: T -> bool)
    requires |s| == |t|
    requires forall j :: 0 <= j < |s| ==> p(s[j]) == p(t[j])
    ensures FirstIndex(s, p) == FirstIndex(t, p)
  {
    var r := FirstIndex(s, p);
    if r.Some? {
      FirstIndexIs(t, p, r.value);
    }
  }

  /** When `p` holds of at most one element, replacing that element by one
      that fails `p` leaves no hit at all. */
  lemma OnlyHitReplaced<T>(s: seq<T>, i: nat, x: T, p: T -> bool)
    requires FirstIndex(s, p) == Some(i)
    requires forall j, k :: 0 <= j < k < |s| && p(s[j]) ==> !p(s[k])
    requires !p(x)
    ensures FirstIndex(s[i := x], p).None?
  {
    var t := s[i := x];
    forall k | 0 <= k < |t| ensures !p(t[k]) {
      if i < k {
        assert p(s[i]);
      }
    }
  }
}
