/**
 * The detections handed to the cup selector, and their flattening into one
 * list of colour-labelled regions.
 *
 * The camera pipeline produces, per reference colour, the contours it found;
 * the selector only ever looks at each contour's bounding rectangle, so a
 * contour is modelled by that rectangle. The colour-to-contours dictionary is
 * a sequence of (colour, contours) pairs in the dictionary's insertion order.
 */
module Regions {

  /** A bounding rectangle: left x, top y, width and height in pixels. */
  datatype Box = Box(x: int, y: int, w: int, h: int)

  /** One colour-labelled region: a colour name with the box of one contour. */
  datatype Region = Region(color: string, box: Box)

  /**
   * What the dictionary holds for one colour: normally a list of contours,
   * but the selector also accepts a single contour that is not in a list.
   */
  datatype Contours = Listed(boxes: seq<Box>) | Single(box: Box)

  /** The colour-to-contours dictionary, in insertion order. */
  type Detections = seq<(string, Contours)>

  /** Python dictionaries never repeat a key. */
  predicate DistinctColors(d: Detections) {
    forall i, j :: 0 <= i < j < |d| ==> d[i].0 != d[j].0
  }

  /** The boxes one dictionary entry contributes, in order. */
  function BoxesOf(c: Contours): seq<Box> {
    match c
    case Listed(boxes) => boxes
    case Single(box) => [box]
  }

  /** The boxes of one colour, each labelled with that colour, in order. */
  function Tagged(color: string, boxes: seq<Box>): seq<Region> {
    if boxes == [] then []
    else Tagged(color, boxes[..|boxes| - 1]) + [Region(color, boxes[|boxes| - 1])]
  }

  /** Every region of every colour, colour by colour in dictionary order. */
  function Flattened(d: Detections): seq<Region> {
    if d == [] then []
    else Flattened(d[..|d| - 1]) + Tagged(d[|d| - 1].0, BoxesOf(d[|d| - 1].1))
  }

  /** Total number of contours over all colours. */
  function RegionCount(d: Detections): nat {
    if d == [] then 0
    else RegionCount(d[..|d| - 1]) + |BoxesOf(d[|d| - 1].1)|
  }

  /** The boxes recorded for a colour, or none if the colour is not a key. */
  function Lookup(d: Detections, color: string): seq<Box> {
    if d == [] then []
    else if d[|d| - 1].0 == color then BoxesOf(d[|d| - 1].1)
    else Lookup(d[..|d| - 1], color)
  }

  /** A colour's boxes become one region each, in order, labelled with that colour. */
  lemma {:induction false} TaggedAt(color: string, boxes: seq<Box>)
    ensures |Tagged(color, boxes)| == |boxes|
    ensures forall j :: 0 <= j < |boxes| ==> Tagged(color, boxes)[j] == Region(color, boxes[j])
  {
    if boxes != [] {
      TaggedAt(color, boxes[..|boxes| - 1]);
    }
  }

  /** The flattened list holds exactly one region per contour. */
  lemma {:induction false} FlattenedLength(d: Detections)
    ensures |Flattened(d)| == RegionCount(d)
  {
    if d != [] {
      FlattenedLength(d[..|d| - 1]);
      TaggedAt(d[|d| - 1].0, BoxesOf(d[|d| - 1].1));
    }
  }

  lemma {:induction false} TaggedCount(color: string, boxes: seq<Box>, r: Region)
    ensures multiset(Tagged(color, boxes))[r] == if r.color == color then multiset(boxes)[r.box] else 0
  {
    if boxes != [] {
      var n := |boxes| - 1;
      TaggedCount(color, boxes[..n], r);
      assert boxes == boxes[..n] + [boxes[n]];
    }
  }

  lemma {:induction false} LookupAbsent(d: Detections, color: string)
    requires forall i :: 0 <= i < |d| ==> d[i].0 != color
    ensures Lookup(d, color) == []
  {
    if d != [] {
      LookupAbsent(d[..|d| - 1], color);
    }
  }

  /**
   * Every region of every colour appears in the flattened list exactly as often
   * as its box appears in that colour's list, and always paired with its own
   * colour: a box occurs under a colour only if the dictionary lists it there.
   */
  lemma {:induction false} FlattenedCount(d: Detections, r: Region)
    requires DistinctColors(d)
    ensures multiset(Flattened(d))[r] == multiset(Lookup(d, r.color))[r.box]
  {
    if d != [] {
      var n := |d| - 1;
      var init := d[..n];
      assert DistinctColors(init);
      FlattenedCount(init, r);
      TaggedCount(d[n].0, BoxesOf(d[n].1), r);
      if d[n].0 == r.color {
        LookupAbsent(init, r.color);
      }
    }
  }

  lemma TaggedSnoc(color: string, boxes: seq<Box>, j: nat)
    requires j < |boxes|
    ensures Tagged(color, boxes[..j + 1]) == Tagged(color, boxes[..j]) + [Region(color, boxes[j])]
  {
    assert boxes[..j + 1][..j] == boxes[..j];
  }

  lemma FlattenedSnoc(d: Detections, i: nat)
    requires i < |d|
    ensures Flattened(d[..i + 1]) == Flattened(d[..i]) + Tagged(d[i].0, BoxesOf(d[i].1))
  {
    assert d[..i + 1][..i] == d[..i];
  }

  /**
   * The inner loop: appends one region per contour of a colour's list, in
   * list order, each labelled with that colour.
   */
  method AppendListed(each: seq<Region>, color: string, boxes: seq<Box>) returns (out: seq<Region>)
    ensures out == each + Tagged(color, boxes)
  {
    out := each;
    var j := 0;
    while j < |boxes|
      invariant 0 <= j <= |boxes|
      invariant out == each + Tagged(color, boxes[..j])
    {
      TaggedSnoc(color, boxes, j);
      out := out + [Region(color, boxes[j])];
      j := j + 1;
    }
    assert boxes[..j] == boxes;
  }

  /**
   * The outer loop that gathers every (colour, box) pair into one list: a
   * listed entry contributes each of its contours, a bare contour itself.
   */
  method Flatten(d: Detections) returns (each: seq<Region>)
    ensures each == Flattened(d)
    ensures |each| == RegionCount(d)
  {
    each := [];
    var i := 0;
    while i < |d|
      invariant 0 <= i <= |d|
      invariant each == Flattened(d[..i])
    {
      var color, cnt := d[i].0, d[i].1;
      FlattenedSnoc(d, i);
      if cnt.Listed? {
        each := AppendListed(each, color, cnt.boxes);
      } else {
        assert Tagged(color, [cnt.box]) == [Region(color, cnt.box)] by {
          assert [cnt.box][..0] == [];
        }
        each := each + [Region(color, cnt.box)];
      }
      i := i + 1;
    }
    assert d[..i] == d;
    FlattenedLength(d);
  }
}
