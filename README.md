# Cup selection and line following for a competition service robot

This project models, in Dafny, the decision logic of the robot's control
scripts:

- **Cup selection** (`find_cups` in the bartender's `control.py`). The camera
  pipeline hands over a dictionary from colour name to the contours found in
  that colour. The selector does four things:
  - it flattens the dictionary into one list of (colour, bounding box) pairs;
  - it stable-sorts that list by the box's left x;
  - it takes the colour of the right-most region as the drink's colour;
  - it walks left to right over the regions in the cup zone (left x below
    `(width // 6) * 5`). It stops at the first region of the drink's colour;
    before that it counts one cup per change of colour.

  The result is the cup index and the sorted list. An empty dictionary yields
  `None`.
- **Line-sensor arithmetic** (`normalize_brightness`, `line_sense` and the
  clamp and motor split of `line_follow`). The bartender's, the janitor's and
  the shared `control.py` repeat these verbatim, with the same constants:
  white threshold 220, black threshold 3000, motor strength 100. They are
  modelled once, in module `LineSensor`.

Files:

- `wrappers.dfy`: `Option`, for Python's `None`.
- `regions.dfy`: boxes, regions and the colour-to-contours dictionary. It holds
  the flattening loops as two methods (outer and inner loop), proved equal to a
  specification function, plus counting lemmas.
- `stable_sort.dfy`: Python's `sorted` by left x, modelled as a stable
  insertion sort. Lemmas prove the result is sorted, a permutation and stable.
  They also prove that any sorted, stable rearrangement equals it, so the
  choice of sorting algorithm does not matter.
- `cup_selection.dfy`: the walk as a method with the source's mutable counter
  and last colour. It is proved against a declarative definition, `CupTarget`:
  the colour runs among the in-zone regions that come before the first in-zone
  region of the drink's colour. Lemmas give the properties of the rule, and
  `FindCups` composes the whole selector.
- `line_sensor.dfy`: the sensor arithmetic over `real`. It includes Python's
  `round` (ties to even).

Two consequences of the code are worth spelling out. On the regions pink at
x=10, green at x=50 and pink at x=90 in a frame 120 pixels wide, the drink is
pink; the first pink region is in the cup zone and has the drink's colour, so
the walk stops at once and returns 0 (`CupSelection.Examples`). The zone limit
is `(width // 6) * 5`: five sixths of the width, rounded down to a multiple of
five, and strictly below five sixths whenever the width is not a multiple of 6
(for a width of 125 it is 100). `CupSelection.CupZoneLimit` states this.
The drink is the colour of the rightmost region, whether or not it is in the
cup zone. So a stray out-of-zone detection right of the drink becomes the drink
and can change the index (`CupSelection.StrayDrink`). Any other out-of-zone
region changes nothing (`CupSelection.OutOfZoneKeepsDrink`).

## Model

| member | source | states |
|---|---|---|
| `LineSensor.NormalizeBrightness` | bartender/sync_files/control.py:61-66 | The normalised reading always lies in [0, 1]. It is 0 at or below 220 and 1 at or above 3000, and strictly between 0 and 1 inside the band. |
| `LineSensor.NormalizeMonotone` | janitor/sync_files/control.py:36-41 | A higher raw reading never normalises lower. |
| `LineSensor.NormalizeStrictInBand` | sync_files/control.py:28-33 | Between 220 and 3000 the normalisation is strictly increasing. |
| `LineSensor.NormalizeStep` | bartender/sync_files/control.py:61-66 | One more raw unit raises the value by at most 1/2780, so there is no jump at either threshold. Inside the band [220, 3000) it raises it by exactly 1/2780: the scaling is linear. |
| `LineSensor.LineSense` | bartender/sync_files/control.py:88-95 | The signal's magnitude is the magnitude of the sum of the readings, or 0 when the readings agree. |
| `LineSensor.LineSenseAntisymmetric` | janitor/sync_files/control.py:63-70 | Swapping the two sensors negates the signal. |
| `LineSensor.LineSenseSign` | sync_files/control.py:55-62 | For non-negative readings, the signal is negative iff left > right, positive iff left < right, and 0 iff they are equal. |
| `LineSensor.LineSenseBounded` | janitor/sync_files/control.py:63-66 | For readings in [0, 1], the signal lies in [-2, 2]. |
| `LineSensor.Influence` | bartender/sync_files/control.py:119 | The clamped influence lies in [-1, 1]. It equals the signal inside that range and saturates at the nearer bound outside it. |
| `LineSensor.InfluenceMonotoneOdd` | janitor/sync_files/control.py:81 | Clamping is monotone and odd. |
| `LineSensor.LeftDrive` | bartender/sync_files/control.py:120 | The left command before rounding exceeds 100 exactly when the influence is positive, equals 100 exactly when it is 0, and lies in [0, 200] for a clamped influence. |
| `LineSensor.RightDrive` | bartender/sync_files/control.py:121 | The right command before rounding exceeds 100 exactly when the influence is negative, equals 100 exactly when it is 0, and lies in [0, 200] for a clamped influence. |
| `LineSensor.DriveSplit` | janitor/sync_files/control.py:81-83 | For a clamped influence, both unrounded commands lie in [0, 200]. They sum to 200 and sit symmetrically about 100. |
| `LineSensor.RoundHalfEven` | sync_files/control.py:74-75 | `round` returns an integer within 0.5 of its argument; at a tie it returns the even one. |
| `LineSensor.RoundUnique` | sync_files/control.py:74-75 | These two properties determine `round`'s result uniquely. |
| `LineSensor.RoundReflect` | bartender/sync_files/control.py:120-121 | Rounding commutes with reflection about an even integer: round(c - x) == c - round(x). |
| `LineSensor.RoundMonotone` | bartender/sync_files/control.py:120-121 | Rounding is monotone. |
| `LineSensor.LineFollowCommands` | sync_files/control.py:65-75 | For any two raw readings, both rounded motor commands lie in [0, 200] and sum to exactly 200. |
| `LineSensor.LineFollowMirror` | janitor/sync_files/control.py:73-83 | Swapping the two raw readings swaps the two motor commands. |
| `LineSensor.LineFollowSteers` | bartender/sync_files/control.py:111-121 | The robot steers towards the darker side: the darker side's motor gets at most 100 and the other at least 100. Equal readings give (100, 100). |
| `Regions.TaggedAt` | bartender/sync_files/control.py:242-243 | A colour's list contributes one region per contour, in list order, each labelled with that colour. |
| `Regions.AppendListed` | bartender/sync_files/control.py:241-243 | The inner loop appends exactly the colour's labelled contours, in list order, after what was gathered before. |
| `Regions.FlattenedLength` | bartender/sync_files/control.py:239-245 | The flattened list has exactly one entry per contour; a bare contour counts as one. |
| `Regions.FlattenedCount` | bartender/sync_files/control.py:239-245 | Each (colour, box) pair occurs in the flattened list exactly as often as the box occurs in that colour's entry. A region is never paired with another colour. |
| `Regions.Flatten` | bartender/sync_files/control.py:239-245 | The outer loop, with the inner one, builds exactly the colour-by-colour flattening. Its length equals the contour count. |
| `StableSort.SortByX` | bartender/sync_files/control.py:248 | The sort keeps the length of its input; the rows below give sortedness, permutation and stability. |
| `StableSort.SortByXSorted` | bartender/sync_files/control.py:248 | The sorted list is non-decreasing in left x, so the rightmost region is last. |
| `StableSort.SortByXPermutes` | bartender/sync_files/control.py:248 | The sorted list is a permutation of its input. |
| `StableSort.SortByXStable` | bartender/sync_files/control.py:248 | Regions with equal left x keep their input order, that is dictionary order and then list order. |
| `StableSort.SortedUnique` | bartender/sync_files/control.py:248 | Two lists that are sorted by x and agree on the ordered regions of every x are equal. |
| `StableSort.StableSortIsSortByX` | bartender/sync_files/control.py:248 | Any stable sort by left x returns the modelled sort's result. |
| `CupSelection.CupZoneLimit` | bartender/sync_files/control.py:256 | The zone limit is a multiple of 5 and at most five sixths of the width, less by under 5 pixels; it is strictly below five sixths when the width is not a multiple of 6. |
| `CupSelection.InZoneMembers` | bartender/sync_files/control.py:256 | The in-zone sublist holds exactly the regions whose left x is below the limit, and is no longer than the input. |
| `CupSelection.BeforeColor` | bartender/sync_files/control.py:257-258 | The walk's stopping point: the longest prefix without the drink's colour. When it is shorter than the input, a drink-coloured region follows it. |
| `CupSelection.CupTargetBounded` | bartender/sync_files/control.py:251-262 | The cup index never exceeds the number of in-zone regions. |
| `CupSelection.CupTargetZero` | bartender/sync_files/control.py:252-258 | The index is 0 exactly when no region is in the zone or the first in-zone region has the drink's colour. |
| `CupSelection.OutOfZoneIgnored` | bartender/sync_files/control.py:256 | For a fixed drink colour, inserting a region outside the cup zone anywhere, of any colour, leaves the index unchanged. |
| `CupSelection.OutOfZoneKeepsDrink` | bartender/sync_files/control.py:251-262 | With the drink taken from the last region, an inserted out-of-zone region leaves the index unchanged unless it becomes the new last region. It also leaves the index unchanged when it becomes last but has the old last region's colour. |
| `CupSelection.StrayDrink` | bartender/sync_files/control.py:251-262 | A stray detection right of the cups changes the drink and so the index. In a 120-pixel frame, sorted blue x=10, pink x=20, pink x=110 gives 1; adding green x=115, still sorted, gives 2. |
| `CupSelection.Fragmented` | bartender/sync_files/control.py:259-262 | Inserting a same-coloured in-zone region right after an in-zone region leaves the index unchanged. So a cup split into two regions counts once. |
| `CupSelection.DuplicatePrefix` | bartender/sync_files/control.py:257-262 | With a same-coloured duplicate right after a region, there are two cases. Either the walk stops at or before the original and its prefix is unchanged, or it passes both and continues over the rest exactly as before. |
| `CupSelection.DuplicateIgnored` | bartender/sync_files/control.py:259-262 | On the in-zone list, duplicating a region next to itself leaves the colour-change count unchanged. |
| `CupSelection.DuplicateStops` | bartender/sync_files/control.py:257-258 | On the in-zone list, duplicating a region next to itself does not change whether the walk breaks, nor the region at which it breaks. |
| `CupSelection.Examples` | bartender/sync_files/control.py:251-262 | Worked inputs: pink/green/pink gives 0; blue/blue/green gives 1; a lone region gives 0. The cup-zone limit of a 120-pixel frame is 100. |
| `CupSelection.CountCups` | bartender/sync_files/control.py:252-262 | The walk with the mutable counter, the last colour and the early break computes `CupTarget`. |
| `CupSelection.FindCups` | bartender/sync_files/control.py:216-264 | An empty dictionary gives None. Otherwise the result pairs the cup index with the list sorted by left x. That list is a stable permutation of the flattened dictionary, one entry per contour. The index is `CupTarget` for the rightmost region's colour and is at most the number of in-zone regions. |

## Left out

- Camera capture and colour masking (`detect_contours`) are foreign OpenCV calls. The detected contours enter the model as given bounding boxes. The filter on contour area (`MIN_AREA`) is therefore not modelled.
- The `frame` argument of `find_cups` contributes only its width, which is a parameter. The `masks` argument is unused by the source and left out. The contour objects themselves are dropped, since only their bounding boxes reach the output.
- `FindCups`: a non-empty dictionary whose lists are all empty makes the source fail with an index error on the last sorted region. The model excludes that input by a precondition.
- Python's `sorted` is Timsort; the model sorts by stable insertion. `StableSortIsSortByX` shows every stable sort by left x gives the same list.
- Floating point: normalised readings and motor commands are exact reals. Float rounding error is not modelled. Python's `round` is modelled exactly on reals.
- `LineSensor.LineSenseSign`: "zero exactly when equal" is proved only for non-negative readings. For other inputs it fails, e.g. `LineSense(1.0, -1.0) == 0.0`. The source only passes normalised readings, which are non-negative.
- Hardware I/O (sensor reads, motor and servo commands), the `print` calls, the endless loop of `main`, and the timed servo scripts of `shovel_ice` and `straighten` are actuator scripting with sleeps, so they are not modelled.
- The debug display (`display_contours`, `show_hsv` and the global `hsv`) is GUI code.
- `playground.py` (servo stepping), `bootfile_syncer.py` (SSH file sync) and `interface.py` (Tkinter launcher) are outside the modelled core.
