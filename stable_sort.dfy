/**
 * Python's `sorted(..., key=lambda cnt: cnt[2][0])`: a stable sort of the
 * flattened regions by the left x of their bounding boxes.
 *
 * The sort is modelled as an insertion sort. What makes that faithful is
 * SortedUnique: a list sorted by x in which, for every x, the regions with
 * that x keep their input order is determined uniquely, so any stable sort
 * (Python's included) returns this same list.
 */
module StableSort {
  import opened Regions

  /** Non-decreasing in the left x of the boxes. */
  predicate SortedByX(s: seq<Region>) {
    forall i, j :: 0 <= i < j < |s| ==> s[i].box.x <= s[j].box.x
  }

  /** The regions whose box has left x equal to `x`, in their order in `s`. */
  function WithX(s: seq<Region>, x: int): seq<Region> {
    if s == [] then []
    else (if s[0].box.x == x then [s[0]] else []) + WithX(s[1..], x)
  }

  /** Puts `r` in front of the first region whose x is not smaller than its own. */
  function InsertByX(r: Region, s: seq<Region>): (t: seq<Region>)
    ensures |t| == |s| + 1
  {
    if s == [] then [r]
    else if r.box.x <= s[0].box.x then [r] + s
    else [s[0]] + InsertByX(r, s[1..])
  }

  /**
   * The stable sort by left x. It keeps the length; that it is sorted, a
   * permutation and stable is proved below.
   */
  function SortByX(s: seq<Region>): (t: seq<Region>)
    ensures |t| == |s|
  {
    if s == [] then [] else InsertByX(s[0], SortByX(s[1..]))
  }

  // ---------------------------------------------------------------------------
  // Insertion
  // ---------------------------------------------------------------------------

  lemma {:induction false} InsertPermutes(r: Region, s: seq<Region>)
    ensures multiset(InsertByX(r, s)) == multiset(s) + multiset{r}
  {
    if s != [] && r.box.x > s[0].box.x {
      InsertPermutes(r, s[1..]);
      assert s == [s[0]] + s[1..];
    }
  }

  lemma {:induction false} InsertSorted(r: Region, s: seq<Region>)
    requires SortedByX(s)
    ensures SortedByX(InsertByX(r, s))
  {
    if s != [] && r.box.x > s[0].box.x {
      InsertSorted(r, s[1..]);
      InsertPermutes(r, s[1..]);
      var t := InsertByX(r, s[1..]);
      forall k | 0 <= k < |t| ensures s[0].box.x <= t[k].box.x {
        assert t[k] in multiset(t);
        assert t[k] == r || t[k] in multiset(s[1..]);
      }
    }
  }

  /** Regions skipped over by an insertion have a smaller x, so for the key
      of the inserted region it lands in front of all of its equals. */
  lemma {:induction false} InsertWithX(r: Region, s: seq<Region>, x: int)
    ensures WithX(InsertByX(r, s), x) == (if r.box.x == x then [r] else []) + WithX(s, x)
  {
    var mine := if r.box.x == x then [r] else [];
    if s == [] {
      assert WithX([r], x) == mine + WithX([], x);
    } else if r.box.x <= s[0].box.x {
      var t := [r] + s;
      assert t[0] == r && t[1..] == s;
      assert WithX(t, x) == mine + WithX(s, x);
    } else {
      var rest := InsertByX(r, s[1..]);
      var t := [s[0]] + rest;
      var head := if s[0].box.x == x then [s[0]] else [];
      assert t[0] == s[0] && t[1..] == rest;
      assert WithX(t, x) == head + WithX(rest, x);
      InsertWithX(r, s[1..], x);
      assert WithX(s, x) == head + WithX(s[1..], x);
      assert head == [] || mine == [];
    }
  }

  // ---------------------------------------------------------------------------
  // The sort
  // ---------------------------------------------------------------------------

  /** The result is ordered by left x (rightmost last). */
  lemma {:induction false} SortByXSorted(s: seq<Region>)
    ensures SortedByX(SortByX(s))
  {
    if s != [] {
      SortByXSorted(s[1..]);
      InsertSorted(s[0], SortByX(s[1..]));
    }
  }

  /** The result is a permutation of the input. */
  lemma {:induction false} SortByXPermutes(s: seq<Region>)
    ensures multiset(SortByX(s)) == multiset(s)
    ensures |SortByX(s)| == |s|
  {
    if s != [] {
      SortByXPermutes(s[1..]);
      InsertPermutes(s[0], SortByX(s[1..]));
      assert s == [s[0]] + s[1..];
    }
    assert |multiset(SortByX(s))| == |SortByX(s)|;
  }

  /** Stability: regions with the same left x keep their input order. */
  lemma {:induction false} SortByXStable(s: seq<Region>, x: int)
    ensures WithX(SortByX(s), x) == WithX(s, x)
  {
    if s != [] {
      SortByXStable(s[1..], x);
      InsertWithX(s[0], SortByX(s[1..]), x);
    }
  }

  // ---------------------------------------------------------------------------
  // Uniqueness of stable sorting
  // ---------------------------------------------------------------------------

  lemma {:induction false} WithXNone(s: seq<Region>, x: int)
    requires forall k :: 0 <= k < |s| ==> s[k].box.x != x
    ensures WithX(s, x) == []
  {
    if s != [] {
      WithXNone(s[1..], x);
    }
  }

  lemma WithXHead(s: seq<Region>)
    ensures s != [] ==> WithX(s, s[0].box.x) != []
  {
  }

  /** Removing the head of a sequence removes it from its own key's list only. */
  lemma WithXTail(s: seq<Region>, x: int)
    requires s != []
    ensures WithX(s[1..], x) == if s[0].box.x == x then WithX(s, x)[1..] else WithX(s, x)
  {
  }

  /**
   * Two lists that are both sorted by x and agree, for every x, on the
   * ordered list of regions with that x, are equal.
   */
  lemma {:induction false} SortedUnique(a: seq<Region>, b: seq<Region>)
    requires SortedByX(a) && SortedByX(b)
    requires forall x :: WithX(a, x) == WithX(b, x)
    ensures a == b
  {
    if a == [] || b == [] {
      // a region on either side would have a non-empty key list on that side only
      WithXHead(a);
      WithXHead(b);
    } else {
      var xa, xb := a[0].box.x, b[0].box.x;
      if xa < xb {
        WithXNone(b, xa);
        WithXHead(a);
      } else if xb < xa {
        WithXNone(a, xb);
        WithXHead(b);
      }
      assert WithX(a, xa)[0] == a[0] && WithX(b, xa)[0] == b[0];
      forall x ensures WithX(a[1..], x) == WithX(b[1..], x) {
        WithXTail(a, x);
        WithXTail(b, x);
      }
      SortedUnique(a[1..], b[1..]);
      assert a == [a[0]] + a[1..] && b == [b[0]] + b[1..];
    }
  }

  /**
   * Any stable sort by x agrees with SortByX: a list that is a sorted
   * rearrangement of `s` keeping every x's regions in input order is
   * SortByX(s).
   */
  lemma StableSortIsSortByX(s: seq<Region>, t: seq<Region>)
    requires SortedByX(t)
    requires forall x :: WithX(t, x) == WithX(s, x)
    ensures t == SortByX(s)
  {
    SortByXSorted(s);
    forall x ensures WithX(t, x) == WithX(SortByX(s), x) {
      SortByXStable(s, x);
    }
    SortedUnique(t, SortByX(s));
  }
}
