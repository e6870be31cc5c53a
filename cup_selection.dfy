/**
 * Selection of the correct cup from the colour-labelled regions of one frame.
 *
 * The regions are flattened and stably sorted by left x; the colour of the
 * rightmost region is the drink's colour. Walking left to right over the
 * regions inside the cup zone (left x below five sixths of the frame width,
 * rounded down to a multiple of five), the walk stops at the first region of
 * the drink's colour and otherwise counts a cup each time the colour changes.
 *
 * The walk is specified declaratively by CupTarget: the number of colour runs
 * among the in-zone regions that come before the first in-zone region of the
 * drink's colour.
 */
module CupSelection {
  import opened Wrappers
  import opened Regions
  import opened StableSort

  /**
   * Left x values strictly below this are in the cup zone: five sixths of the
   * width, rounded down to a multiple of five, and strictly below five sixths
   * when the width is not a multiple of six.
   */
  function CupZoneLimit(width: nat): (limit: int)
    ensures limit % 5 == 0 && 6 * limit <= 5 * width < 6 * limit + 30
    ensures width % 6 != 0 ==> 6 * limit < 5 * width
  {
    assert width == 6 * (width / 6) + width % 6;
    (width / 6) * 5
  }

  /** The regions whose left x lies in the cup zone, in order. */
  function InZone(s: seq<Region>, limit: int): seq<Region> {
    if s == [] then []
    else InZone(s[..|s| - 1], limit) + (if s[|s| - 1].box.x < limit then [s[|s| - 1]] else [])
  }

  /** No region of `s` has colour `c`. */
  predicate Avoids(s: seq<Region>, c: string) {
    forall k :: 0 <= k < |s| ==> s[k].color != c
  }

  /**
   * The longest prefix of `s` holding no region of colour `c`: it avoids `c`
   * and, when shorter than `s`, is followed by a region of colour `c`.
   */
  function BeforeColor(s: seq<Region>, c: string): (p: seq<Region>)
    ensures p <= s
    ensures Avoids(p, c)
    ensures |p| < |s| ==> s[|p|].color == c
  {
    if s == [] || s[0].color == c then [] else [s[0]] + BeforeColor(s[1..], c)
  }

  /**
   * The number of regions of `s` whose colour differs from that of the region
   * before it, the first region being compared with `last` (None: no colour).
   */
  function ColorChanges(s: seq<Region>, last: Option<string>): nat {
    if s == [] then 0
    else (if last != Some(s[0].color) then 1 else 0) + ColorChanges(s[1..], Some(s[0].color))
  }

  /** The colour of the last region of `s`, or `last` if `s` is empty. */
  function LastColor(s: seq<Region>, last: Option<string>): Option<string> {
    if s == [] then last else Some(s[|s| - 1].color)
  }

  /**
   * The index of the correct cup: the colour runs among the in-zone regions
   * before the first in-zone region of the drink's colour.
   */
  function CupTarget(sorted: seq<Region>, drink: string, limit: int): nat {
    ColorChanges(BeforeColor(InZone(sorted, limit), drink), None)
  }

  // ---------------------------------------------------------------------------
  // Facts about the pieces
  // ---------------------------------------------------------------------------

  /** The in-zone sublist holds exactly the regions of `s` whose left x is below the limit. */
  lemma {:induction false} InZoneMembers(s: seq<Region>, limit: int, r: Region)
    ensures r in InZone(s, limit) <==> r in s && r.box.x < limit
    ensures |InZone(s, limit)| <= |s|
  {
    if s != [] {
      var n := |s| - 1;
      InZoneMembers(s[..n], limit, r);
      assert s == s[..n] + [s[n]];
    }
  }

  lemma {:induction false} InZoneAppend(a: seq<Region>, b: seq<Region>, limit: int)
    ensures InZone(a + b, limit) == InZone(a, limit) + InZone(b, limit)
  {
    if b == [] {
      assert a + b == a;
    } else {
      var n := |b| - 1;
      InZoneAppend(a, b[..n], limit);
      assert (a + b)[..|a + b| - 1] == a + b[..n];
      assert (a + b)[|a + b| - 1] == b[n];
    }
  }

  lemma {:induction false} ColorChangesAppend(a: seq<Region>, b: seq<Region>, last: Option<string>)
    ensures ColorChanges(a + b, last) == ColorChanges(a, last) + ColorChanges(b, LastColor(a, last))
  {
    if a == [] {
      assert a + b == b;
    } else {
      ColorChangesAppend(a[1..], b, Some(a[0].color));
      assert (a + b)[0] == a[0];
      assert (a + b)[1..] == a[1..] + b;
      assert LastColor(a[1..], Some(a[0].color)) == LastColor(a, last);
    }
  }

  lemma {:induction false} ColorChangesBounded(s: seq<Region>, last: Option<string>)
    ensures ColorChanges(s, last) <= |s|
    ensures s != [] && last == None ==> ColorChanges(s, last) >= 1
  {
    if s != [] {
      ColorChangesBounded(s[1..], Some(s[0].color));
    }
  }

  lemma {:induction false} BeforeColorAppend(a: seq<Region>, b: seq<Region>, c: string)
    requires Avoids(a, c)
    ensures BeforeColor(a + b, c) == a + BeforeColor(b, c)
  {
    if a == [] {
      assert a + b == b;
    } else {
      var ab := a + b;
      assert ab[0] == a[0] && ab[1..] == a[1..] + b;
      assert BeforeColor(ab, c) == [a[0]] + BeforeColor(a[1..] + b, c);
      BeforeColorAppend(a[1..], b, c);
      assert [a[0]] + (a[1..] + BeforeColor(b, c)) == a + BeforeColor(b, c);
    }
  }

  lemma {:induction false} BeforeColorStops(a: seq<Region>, b: seq<Region>, c: string)
    requires exists k :: 0 <= k < |a| && a[k].color == c
    ensures BeforeColor(a + b, c) == BeforeColor(a, c)
  {
    assert (a + b)[0] == a[0];
    if a[0].color != c {
      BeforeColorStops(a[1..], b, c);
      assert (a + b)[1..] == a[1..] + b;
    }
  }

  lemma InZoneSnoc(s: seq<Region>, i: nat, limit: int)
    requires i < |s|
    ensures InZone(s[..i + 1], limit) == InZone(s[..i], limit) + (if s[i].box.x < limit then [s[i]] else [])
  {
    assert s[..i + 1][..i] == s[..i];
  }

  lemma InZoneSingle(r: Region, limit: int)
    ensures InZone([r], limit) == if r.box.x < limit then [r] else []
  {
    assert [r][..0] == [];
  }

  /** The walk stops at an in-zone region of the drink's colour when none came before it. */
  lemma {:induction false} WalkStops(sorted: seq<Region>, i: nat, drink: string, limit: int)
    requires i < |sorted| && sorted[i].box.x < limit && sorted[i].color == drink
    requires Avoids(InZone(sorted[..i], limit), drink)
    ensures CupTarget(sorted, drink, limit) == ColorChanges(InZone(sorted[..i], limit), None)
  {
    var seen, rest := InZone(sorted[..i], limit), InZone(sorted[i + 1..], limit);
    InZoneSnoc(sorted, i, limit);
    InZoneAppend(sorted[..i + 1], sorted[i + 1..], limit);
    assert sorted[..i + 1] + sorted[i + 1..] == sorted;
    assert InZone(sorted, limit) == seen + ([sorted[i]] + rest);
    BeforeColorAppend(seen, [sorted[i]] + rest, drink);
    assert BeforeColor([sorted[i]] + rest, drink) == [];
    assert seen + [] == seen;
  }

  /**
   * One step of the walk over an in-zone region that is not of the drink's
   * colour: the count grows by one iff its colour differs from the last one
   * counted, and its colour becomes the last one.
   */
  lemma WalkCounts(sorted: seq<Region>, i: nat, drink: string, limit: int)
    requires i < |sorted| && sorted[i].box.x < limit && sorted[i].color != drink
    requires Avoids(InZone(sorted[..i], limit), drink)
    ensures Avoids(InZone(sorted[..i + 1], limit), drink)
    ensures ColorChanges(InZone(sorted[..i + 1], limit), None) ==
      ColorChanges(InZone(sorted[..i], limit), None) +
      (if LastColor(InZone(sorted[..i], limit), None) != Some(sorted[i].color) then 1 else 0)
    ensures LastColor(InZone(sorted[..i + 1], limit), None) == Some(sorted[i].color)
  {
    var seen, r := InZone(sorted[..i], limit), sorted[i];
    InZoneSnoc(sorted, i, limit);
    ColorChangesAppend(seen, [r], None);
    assert [r][1..] == [];
  }

  /** A walk that reaches the end met no in-zone region of the drink's colour. */
  lemma WalkEnds(sorted: seq<Region>, drink: string, limit: int)
    requires Avoids(InZone(sorted, limit), drink)
    ensures CupTarget(sorted, drink, limit) == ColorChanges(InZone(sorted, limit), None)
  {
    BeforeColorAppend(InZone(sorted, limit), [], drink);
    assert InZone(sorted, limit) + [] == InZone(sorted, limit);
  }

  /**
   * How the walk's prefix changes when a region is followed by a duplicate of
   * its colour: either the walk stops at or before the first of the two and
   * sees nothing of the duplicate, or it passes both and goes on over `b`
   * exactly as before.
   */
  lemma DuplicatePrefix(a: seq<Region>, x: Region, r: Region, b: seq<Region>, drink: string)
    requires r.color == x.color
    ensures var p1, p2 := BeforeColor(a + [x] + b, drink), BeforeColor(a + [x] + [r] + b, drink);
      || (p2 == p1 && |p1| <= |a|)
      || (Avoids(a + [x], drink) && p1 == a + [x] + BeforeColor(b, drink) && p2 == a + [x] + [r] + BeforeColor(b, drink))
  {
    assert a + [x] + b == a + ([x] + b);
    assert a + [x] + [r] + b == a + ([x] + [r] + b);
    if exists k :: 0 <= k < |a| && a[k].color == drink {
      BeforeColorStops(a, [x] + b, drink);
      BeforeColorStops(a, [x] + [r] + b, drink);
    } else if x.color == drink {
      BeforeColorAppend(a, [x] + b, drink);
      BeforeColorAppend(a, [x] + [r] + b, drink);
      assert BeforeColor([x] + b, drink) == [];
      assert BeforeColor([x] + [r] + b, drink) == [];
    } else {
      assert Avoids(a + [x], drink);
      assert Avoids(a + [x] + [r], drink);
      BeforeColorAppend(a + [x], b, drink);
      BeforeColorAppend(a + [x] + [r], b, drink);
    }
  }

  /** The region at which the walk stops is the same with or without a duplicate. */
  lemma DuplicateStops(a: seq<Region>, x: Region, r: Region, b: seq<Region>, drink: string)
    requires r.color == x.color
    ensures var s1, s2 := a + [x] + b, a + [x] + [r] + b;
      var p1, p2 := BeforeColor(s1, drink), BeforeColor(s2, drink);
      && (|p1| < |s1| <==> |p2| < |s2|)
      && (|p1| < |s1| ==> |p2| < |s2| && s2[|p2|] == s1[|p1|])
  {
    var s1, s2 := a + [x] + b, a + [x] + [r] + b;
    var p1, p2 := BeforeColor(s1, drink), BeforeColor(s2, drink);
    DuplicatePrefix(a, x, r, b, drink);
    if p2 == p1 && |p1| <= |a| {
      assert s1[|p1|] == s2[|p1|];
    } else {
      var tail := BeforeColor(b, drink);
      if |tail| < |b| {
        assert s1[|a| + 1 + |tail|] == b[|tail|];
        assert s2[|a| + 2 + |tail|] == b[|tail|];
      }
    }
  }

  /**
   * On the in-zone list, a second region right after one of the same colour
   * leaves the count unchanged.
   */
  lemma DuplicateIgnored(a: seq<Region>, x: Region, r: Region, b: seq<Region>, drink: string)
    requires r.color == x.color
    ensures ColorChanges(BeforeColor(a + [x] + [r] + b, drink), None) == ColorChanges(BeforeColor(a + [x] + b, drink), None)
  {
    DuplicatePrefix(a, x, r, b, drink);
    var tail := BeforeColor(b, drink);
    if BeforeColor(a + [x] + b, drink) == a + [x] + tail {
      ColorChangesAppend(a + [x], tail, None);
      ColorChangesAppend(a + [x] + [r], tail, None);
      ColorChangesAppend(a + [x], [r], None);
      assert ColorChanges([r], Some(x.color)) == 0;
    }
  }

  // ---------------------------------------------------------------------------
  // Properties of the selection rule
  // ---------------------------------------------------------------------------

  /** The index never exceeds the number of in-zone regions. */
  lemma CupTargetBounded(sorted: seq<Region>, drink: string, limit: int)
    ensures CupTarget(sorted, drink, limit) <= |InZone(sorted, limit)|
  {
    ColorChangesBounded(BeforeColor(InZone(sorted, limit), drink), None);
  }

  /**
   * The index is 0 exactly when no region is in the zone or the first
   * in-zone region has the drink's colour.
   */
  lemma CupTargetZero(sorted: seq<Region>, drink: string, limit: int)
    ensures CupTarget(sorted, drink, limit) == 0 <==>
      (InZone(sorted, limit) == [] || InZone(sorted, limit)[0].color == drink)
  {
    ColorChangesBounded(BeforeColor(InZone(sorted, limit), drink), None);
  }

  /** A region outside the cup zone changes nothing, wherever it sits and whatever its colour. */
  lemma OutOfZoneIgnored(sorted: seq<Region>, i: nat, r: Region, drink: string, limit: int)
    requires i <= |sorted|
    requires r.box.x >= limit
    ensures CupTarget(sorted[..i] + [r] + sorted[i..], drink, limit) == CupTarget(sorted, drink, limit)
  {
    var pre, post := sorted[..i], sorted[i..];
    assert pre + post == sorted;
    InZoneAppend(pre + [r], post, limit);
    InZoneAppend(pre, [r], limit);
    InZoneAppend(pre, post, limit);
    InZoneSingle(r, limit);
    assert InZone(pre + [r], limit) == InZone(pre, limit);
  }

  /**
   * With the drink taken from the rightmost region, as the selector does, an
   * out-of-zone region still changes nothing unless it becomes the new
   * rightmost region with a different colour.
   */
  lemma OutOfZoneKeepsDrink(sorted: seq<Region>, i: nat, r: Region, limit: int)
    requires sorted != [] && i <= |sorted|
    requires r.box.x >= limit
    requires i < |sorted| || r.color == sorted[|sorted| - 1].color
    ensures var t := sorted[..i] + [r] + sorted[i..];
      CupTarget(t, t[|t| - 1].color, limit) == CupTarget(sorted, sorted[|sorted| - 1].color, limit)
  {
    var t := sorted[..i] + [r] + sorted[i..];
    if i < |sorted| {
      assert t[|t| - 1] == sorted[|sorted| - 1];
    } else {
      assert t[|t| - 1] == r;
    }
    OutOfZoneIgnored(sorted, i, r, sorted[|sorted| - 1].color, limit);
  }

  /**
   * A cup fragmented into two regions counts once: inserting, right after an
   * in-zone region, another in-zone region of the same colour leaves the index
   * unchanged.
   */
  lemma Fragmented(sorted: seq<Region>, i: nat, r: Region, drink: string, limit: int)
    requires i < |sorted|
    requires sorted[i].box.x < limit && r.box.x < limit
    requires r.color == sorted[i].color
    ensures CupTarget(sorted[..i + 1] + [r] + sorted[i + 1..], drink, limit) == CupTarget(sorted, drink, limit)
  {
    var a, x, b := InZone(sorted[..i], limit), sorted[i], InZone(sorted[i + 1..], limit);
    var t := sorted[..i + 1] + [r] + sorted[i + 1..];
    InZoneSnoc(sorted, i, limit);
    InZoneSingle(r, limit);
    InZoneAppend(sorted[..i + 1], [r], limit);
    InZoneAppend(sorted[..i + 1] + [r], sorted[i + 1..], limit);
    InZoneAppend(sorted[..i + 1], sorted[i + 1..], limit);
    assert sorted[..i + 1] + sorted[i + 1..] == sorted;
    assert InZone(sorted, limit) == a + [x] + b;
    assert InZone(t, limit) == a + [x] + [r] + b;
    DuplicateIgnored(a, x, r, b, drink);
  }

  /**
   * Worked examples on a frame 120 pixels wide (cup zone: left x below 100).
   * Pink, green, pink: the drink is pink and the walk stops at the first pink
   * region, so the index is 0. Blue, blue, green: the two blue regions
   * are one cup. A lone region is the drink.
   */
  lemma Examples()
    ensures CupZoneLimit(120) == 100
    ensures CupTarget([Region("pink", Box(10, 0, 5, 5)), Region("green", Box(50, 0, 5, 5)),
                       Region("pink", Box(90, 0, 5, 5))], "pink", 100) == 0
    ensures CupTarget([Region("blue", Box(5, 0, 5, 5)), Region("blue", Box(20, 0, 5, 5)),
                       Region("green", Box(60, 0, 5, 5))], "green", 100) == 1
    ensures CupTarget([Region("red", Box(50, 0, 5, 5))], "red", 100) == 0
  {
    var p1, g, p2 := Region("pink", Box(10, 0, 5, 5)), Region("green", Box(50, 0, 5, 5)), Region("pink", Box(90, 0, 5, 5));
    AllInZone([p1, g, p2], 100);
    assert BeforeColor([p1, g, p2], "pink") == [];
    var b1, b2, gr := Region("blue", Box(5, 0, 5, 5)), Region("blue", Box(20, 0, 5, 5)), Region("green", Box(60, 0, 5, 5));
    AllInZone([b1, b2, gr], 100);
    assert [b1, b2, gr][1..] == [b2, gr] && [b2, gr][1..] == [gr];
    assert BeforeColor([b1, b2, gr], "green") == [b1, b2];
    assert [b1, b2][1..] == [b2];
    InZoneSingle(Region("red", Box(50, 0, 5, 5)), 100);
  }

  /**
   * The drink is the colour of the rightmost region, wherever that region is,
   * so a stray detection right of the cups changes the drink and with it the
   * index. On a frame 120 pixels wide: blue, pink, pink (out of zone) gives 1;
   * with a green region further right, still out of zone, it gives 2.
   */
  lemma StrayDrink()
    ensures var s := [Region("blue", Box(10, 0, 5, 5)), Region("pink", Box(20, 0, 5, 5)),
                      Region("pink", Box(110, 0, 5, 5))];
      SortedByX(s) && CupTarget(s, s[|s| - 1].color, CupZoneLimit(120)) == 1
    ensures var t := [Region("blue", Box(10, 0, 5, 5)), Region("pink", Box(20, 0, 5, 5)),
                      Region("pink", Box(110, 0, 5, 5)), Region("green", Box(115, 0, 5, 5))];
      SortedByX(t) && CupTarget(t, t[|t| - 1].color, CupZoneLimit(120)) == 2
  {
    var b, p := Region("blue", Box(10, 0, 5, 5)), Region("pink", Box(20, 0, 5, 5));
    var q, g := Region("pink", Box(110, 0, 5, 5)), Region("green", Box(115, 0, 5, 5));
    assert "blue" != "pink" && "blue" != "green" && "pink" != "green" by {
      assert "blue"[0] == 'b' && "pink"[0] == 'p' && "green"[0] == 'g';
    }
    assert CupZoneLimit(120) == 100;
    StrayZone(b, p, q, g);
    StrayWalk(b, p, "pink");
    StrayWalk(b, p, "green");
  }

  /** The walk over two in-zone regions of different colours. */
  lemma StrayWalk(b: Region, p: Region, drink: string)
    requires b.color != p.color && b.color != drink
    ensures ColorChanges(BeforeColor([b, p], drink), None) == if p.color == drink then 1 else 2
  {
    assert [b, p][1..] == [p] && [p][1..] == [];
    if p.color == drink {
      assert BeforeColor([b, p], drink) == [b];
    } else {
      assert BeforeColor([b, p], drink) == [b, p];
      assert ColorChanges([p], Some(b.color)) == 1;
    }
  }

  lemma StrayZone(b: Region, p: Region, q: Region, g: Region)
    requires b.box.x < 100 && p.box.x < 100 && q.box.x >= 100 && g.box.x >= 100
    ensures InZone([b, p, q], 100) == [b, p]
    ensures InZone([b, p, q, g], 100) == [b, p]
  {
    AllInZone([b, p], 100);
    assert [b, p, q][..2] == [b, p];
    assert [b, p, q, g][..3] == [b, p, q];
  }

  lemma {:induction false} AllInZone(s: seq<Region>, limit: int)
    requires forall k :: 0 <= k < |s| ==> s[k].box.x < limit
    ensures InZone(s, limit) == s
  {
    if s != [] {
      AllInZone(s[..|s| - 1], limit);
      assert s[..|s| - 1] + [s[|s| - 1]] == s;
    }
  }

  // ---------------------------------------------------------------------------
  // The walk and the whole selection
  // ---------------------------------------------------------------------------

  /**
   * The left-to-right walk with the running count and the previously counted
   * colour; it stops at the first in-zone region of the drink's colour.
   */
  method CountCups(sorted: seq<Region>, drink: string, limit: int) returns (correctCup: nat)
    ensures correctCup == CupTarget(sorted, drink, limit)
  {
    correctCup := 0;
    var lastColor: Option<string> := None;
    var i := 0;
    while i < |sorted|
      invariant 0 <= i <= |sorted|
      invariant Avoids(InZone(sorted[..i], limit), drink)
      invariant correctCup == ColorChanges(InZone(sorted[..i], limit), None)
      invariant lastColor == LastColor(InZone(sorted[..i], limit), None)
    {
      var r := sorted[i];
      if r.box.x < limit {
        if r.color == drink {
          WalkStops(sorted, i, drink, limit);
          return;
        }
        WalkCounts(sorted, i, drink, limit);
        if Some(r.color) != lastColor {
          correctCup := correctCup + 1;
        }
        lastColor := Some(r.color);
      } else {
        InZoneSnoc(sorted, i, limit);
        assert InZone(sorted[..i], limit) + [] == InZone(sorted[..i], limit);
      }
      i := i + 1;
    }
    assert sorted[..i] == sorted;
    WalkEnds(sorted, drink, limit);
  }

  /**
   * The cup selector. An empty dictionary yields None. Otherwise the result is
   * the cup index and the full list of regions sorted by left x: a stable
   * permutation of the flattened dictionary, one entry per contour.
   * A non-empty dictionary without any contour makes the source fail when it
   * reads the last sorted region, hence the precondition.
   */
  method FindCups(width: nat, contours: Detections) returns (result: Option<(nat, seq<Region>)>)
    requires contours != [] ==> RegionCount(contours) > 0
    ensures result == None <==> contours == []
    ensures result != None ==>
      var (index, sorted) := result.value;
      && sorted == SortByX(Flattened(contours))
      && |sorted| == RegionCount(contours)
      && SortedByX(sorted)
      && multiset(sorted) == multiset(Flattened(contours))
      && (forall x :: WithX(sorted, x) == WithX(Flattened(contours), x))
      && index == CupTarget(sorted, sorted[|sorted| - 1].color, CupZoneLimit(width))
      && index <= |InZone(sorted, CupZoneLimit(width))|
  {
    if contours == [] {
      return None;
    }
    var each := Flatten(contours);
    var sorted := SortByX(each);
    SortByXSorted(each);
    SortByXPermutes(each);
    forall x ensures WithX(sorted, x) == WithX(each, x) {
      SortByXStable(each, x);
    }
    var drink := sorted[|sorted| - 1].color;
    var index := CountCups(sorted, drink, CupZoneLimit(width));
    CupTargetBounded(sorted, drink, CupZoneLimit(width));
    return Some((index, sorted));
  }
}
