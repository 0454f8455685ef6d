/**
 * Palette editing (src/palettes.rs): a palette is a list of colour points
 * at percentages; a sorted copy with one wrap-around point at each end
 * drives the colouring.  Points can be moved, added in the largest gap and
 * deleted down to two; the palette cache has one colour per iteration.
 * Colour arithmetic and float-to-text conversion are parameters here.
 */
module Palettes {
  import opened Wrappers
  import opened LayerRules
  import opened LayerOrder

  const WHITE := Color(1.0, 1.0, 1.0, 1.0)

  /** The iterations a full-length Repeated palette spans. */
  const PALETTE_DEPTH: nat := 500
  /** A new point needs a gap wider than this. */
  const MIN_ADD_PERCENT: real := 0.1
  const U32_MAX: nat := 0xFFFF_FFFF

  // ---------------------------------------------------------------
  // mapping type
  // ---------------------------------------------------------------

  datatype MappingType = Constant | Repeated

  /** The one-character code of a mapping type in an exported palette. */
  function ExportNum(m: MappingType): (s: string)
    ensures |s| == 1
  {
    match m
    case Constant => "0"
    case Repeated => "1"
  }

  /** Reads a mapping type back from its code; any other character is refused. */
  function ImportFromNum(c: char): (r: Option<MappingType>)
    ensures r.Some? <==> c == '0' || c == '1'
  {
    if c == '0' then Some(Constant) else if c == '1' then Some(Repeated) else None
  }

  /** Export and import are inverse: every type reads back, and every accepted code is some type's export. */
  lemma MappingNumRoundTrip(m: MappingType, c: char)
    ensures ImportFromNum(ExportNum(m)[0]) == Some(m)
    ensures ImportFromNum(c) == Some(m) <==> ExportNum(m) == [c]
  {
  }

  // ---------------------------------------------------------------
  // colour points and the sorted map
  // ---------------------------------------------------------------

  datatype ColourPoint = ColourPoint(colour: Color, percent: real)

  function PrevPercent(p: ColourPoint): ColourPoint
  {
    p.(percent := p.percent - 1.0)
  }

  function NextPercent(p: ColourPoint): ColourPoint
  {
    p.(percent := p.percent + 1.0)
  }

  /** `(percent * 100.) as u32`: a saturating cast, so the floor clamped to the range of u32. */
  function Key(percent: real): (k: nat)
    ensures k <= U32_MAX
    ensures 0.0 <= percent * 100.0 < U32_MAX as real ==> k as real <= percent * 100.0 < k as real + 1.0
    ensures percent * 100.0 < 1.0 ==> k == 0
    ensures percent * 100.0 >= U32_MAX as real ==> k == U32_MAX
  {
    var x := percent * 100.0;
    if x < 0.0 then 0 else if x.Floor > U32_MAX then U32_MAX else x.Floor
  }

  /** A higher percentage never has a lower key. */
  lemma KeyMonotone(p: real, q: real)
    requires p <= q
    ensures Key(p) <= Key(q)
  {
    assert p * 100.0 <= q * 100.0;
  }

  /** The key sort_colour_map and unique_point_positions compare points by. */
  function PointKey(p: ColourPoint): nat
  {
    Key(p.percent)
  }

  predicate SortedByKey<T>(s: seq<T>, key: T -> nat)
  {
    forall i, j :: 0 <= i < j < |s| ==> key(s[i]) <= key(s[j])
  }

  /** Places x after every element whose key is not above its own. */
  function InsertByKey<T>(s: seq<T>, x: T, key: T -> nat): (r: seq<T>)
    ensures |r| == |s| + 1
    ensures r[0] == if |s| == 0 || key(x) < key(s[0]) then x else s[0]
  {
    if |s| == 0 || key(x) < key(s[0]) then [x] + s
    else [s[0]] + InsertByKey(s[1..], x, key)
  }

  /** Vec::sort_by_key: a stable insertion sort. */
  function SortByKey<T>(s: seq<T>, key: T -> nat): (r: seq<T>)
    ensures |r| == |s|
  {
    if |s| == 0 then [] else InsertByKey(SortByKey(s[..|s| - 1], key), s[|s| - 1], key)
  }

  lemma {:induction false} InsertByKeySorted<T>(s: seq<T>, x: T, key: T -> nat)
    requires SortedByKey(s, key)
    ensures SortedByKey(InsertByKey(s, x, key), key)
    ensures multiset(InsertByKey(s, x, key)) == multiset(s) + multiset{x}
  {
    if |s| > 0 && key(x) >= key(s[0]) {
      var inner := InsertByKey(s[1..], x, key);
      InsertByKeySorted(s[1..], x, key);
      assert s == [s[0]] + s[1..];
      assert |s| > 1 ==> key(s[0]) <= key(s[1]);
      ConsSorted(s[0], inner, key);
    }
  }

  lemma ConsSorted<T>(a: T, rest: seq<T>, key: T -> nat)
    requires SortedByKey(rest, key) && (|rest| > 0 ==> key(a) <= key(rest[0]))
    ensures SortedByKey([a] + rest, key)
  {
    var r := [a] + rest;
    forall i, j | 0 <= i < j < |r|
      ensures key(r[i]) <= key(r[j])
    {
      if i == 0 {
        assert key(rest[0]) <= key(rest[j - 1]);
      } else {
        assert r[i] == rest[i - 1] && r[j] == rest[j - 1];
      }
    }
  }

  /** sort_by_key puts the elements in key order and keeps every element. */
  lemma {:induction false} SortByKeySorted<T>(s: seq<T>, key: T -> nat)
    ensures SortedByKey(SortByKey(s, key), key)
    ensures multiset(SortByKey(s, key)) == multiset(s)
  {
    if |s| > 0 {
      SortByKeySorted(s[..|s| - 1], key);
      InsertByKeySorted(SortByKey(s[..|s| - 1], key), s[|s| - 1], key);
      assert s == s[..|s| - 1] + [s[|s| - 1]];
    }
  }

  /**
   * sort_colour_map: the points in key order, with the last one moved down
   * by 1 in front and the first one moved up by 1 behind, so the map wraps.
   * The source indexes the sorted copy, so an empty map panics.
   */
  function SortColourMap(cm: seq<ColourPoint>): (r: seq<ColourPoint>)
    requires |cm| >= 1
    ensures |r| == |cm| + 2
  {
    var sorted := SortByKey(cm, PointKey);
    [PrevPercent(sorted[|sorted| - 1])] + sorted + [NextPercent(sorted[0])]
  }

  /**
   * The sorted map holds every point of the colour map once, in key order,
   * between the two wrap-around points; taking those off again gives the
   * points in key order.
   */
  lemma SortColourMapShape(cm: seq<ColourPoint>)
    requires |cm| >= 1
    ensures var r := SortColourMap(cm); var inner := r[1..|r| - 1];
      SortedByKey(inner, PointKey) && multiset(inner) == multiset(cm) &&
      r[0] == PrevPercent(inner[|inner| - 1]) && r[|r| - 1] == NextPercent(inner[0]) &&
      RemoveExtremes(r) == inner
  {
    var sorted := SortByKey(cm, PointKey);
    SortByKeySorted(cm, PointKey);
    var r := SortColourMap(cm);
    assert r[1..|r| - 1] == sorted;
    assert RemoveExtremes(r) == sorted;
  }

  /**
   * remove_extremes: drops the two wrap-around points, except from a map
   * of exactly two points (the default palette's sorted map has none).
   */
  function RemoveExtremes(sorted: seq<ColourPoint>): (r: seq<ColourPoint>)
    requires |sorted| >= 2
    ensures |sorted| == 2 ==> r == sorted
    ensures |sorted| > 2 ==> |r| == |sorted| - 2 && forall k :: 0 <= k < |r| ==> r[k] == sorted[k + 1]
  {
    if |sorted| == 2 then sorted else Remove(Remove(sorted, 0), |sorted| - 2)
  }

  /** unique_point_positions, as a property: no two points share a key. */
  predicate KeysDistinct(cm: seq<ColourPoint>)
  {
    forall i, j :: 0 <= i < j < |cm| ==> Key(cm[i].percent) != Key(cm[j].percent)
  }

  /**
   * unique_point_positions: inserts each key into a set and stops at the
   * first key already there.
   */
  method UniquePointPositions(cm: seq<ColourPoint>) returns (unique: bool)
    ensures unique <==> KeysDistinct(cm)
  {
    var seen: set<nat> := {};
    for i := 0 to |cm|
      invariant forall k :: k in seen <==> exists j :: 0 <= j < i && Key(cm[j].percent) == k
      invariant KeysDistinct(cm[..i])
    {
      var key := Key(cm[i].percent);
      if key in seen {
        var j :| 0 <= j < i && Key(cm[j].percent) == key;
        assert Key(cm[j].percent) == Key(cm[i].percent);
        return false;
      }
      seen := seen + {key};
      assert forall a, b :: 0 <= a < b < i + 1 ==> cm[..i + 1][a] == cm[a] && cm[..i + 1][b] == cm[b];
    }
    assert cm[..|cm|] == cm;
    return true;
  }

  /**
   * change_point_percent only refuses a percentage some other point has
   * exactly, while unique_point_positions compares keys: two points can end
   * up with the same key, and a map like that is one Palette::new refuses.
   */
  lemma MoveCanShareKey()
    ensures var cm := [ColourPoint(BLACK, 0.0), ColourPoint(WHITE, 1.0)];
      KeysDistinct(cm) && cm[0].percent != 0.001 &&
      !KeysDistinct(cm[1 := cm[1].(percent := 0.001)])
  {
    var cm := [ColourPoint(BLACK, 0.0), ColourPoint(WHITE, 1.0)];
    assert Key(0.0) == 0 && Key(1.0) == 100;
    var moved := cm[1 := cm[1].(percent := 0.001)];
    assert 0.001 * 100.0 == 0.1;
    assert Key(moved[1].percent) == 0 == Key(moved[0].percent);
  }

  // ---------------------------------------------------------------
  // where a new point goes
  // ---------------------------------------------------------------

  /** valid_percent: the percentage clamped to [0, 1]. */
  function Clamp(p: real): (c: real)
    ensures 0.0 <= c <= 1.0
    ensures 0.0 <= p <= 1.0 ==> c == p
  {
    if p < 0.0 then 0.0 else if p > 1.0 then 1.0 else p
  }

  /** The gap between the clamped points i and i + 1. */
  function Gap(s: seq<ColourPoint>, i: nat): real
    requires i + 1 < |s|
  {
    Clamp(s[i + 1].percent) - Clamp(s[i].percent)
  }

  /** The middle of gap i. */
  function Mid(s: seq<ColourPoint>, i: nat): real
    requires i + 1 < |s|
  {
    Clamp(s[i].percent) + Gap(s, i) / 2.0
  }

  function Abs(x: real): real
  {
    if x < 0.0 then -x else x
  }

  /** How far a percentage is from the middle of the palette. */
  function Off(p: real): real
  {
    Abs(p - 0.5)
  }

  /** The largest of the first n gaps, and 0 when none is positive. */
  function MaxGap(s: seq<ColourPoint>, n: nat): (g: real)
    requires n < |s|
    ensures g >= 0.0
    ensures forall j :: 0 <= j < n ==> Gap(s, j) <= g
    ensures g > 0.0 ==> exists j :: 0 <= j < n && Gap(s, j) == g
  {
    if n == 0 then 0.0
    else if Gap(s, n - 1) > MaxGap(s, n - 1) then Gap(s, n - 1)
    else MaxGap(s, n - 1)
  }

  /**
   * Gap i is the one get_add_point_percent picks: a largest gap whose
   * middle is nearest the middle of the palette, the first such one.
   */
  predicate Chosen(s: seq<ColourPoint>, i: nat)
    requires |s| >= 1
  {
    i + 1 < |s| && Gap(s, i) == MaxGap(s, |s| - 1) &&
    (forall j :: 0 <= j < |s| - 1 && Gap(s, j) == MaxGap(s, |s| - 1) ==> Off(Mid(s, i)) <= Off(Mid(s, j))) &&
    (forall j :: 0 <= j < i && Gap(s, j) == MaxGap(s, |s| - 1) ==> Off(Mid(s, i)) < Off(Mid(s, j)))
  }

  /** At most one gap is the chosen one. */
  lemma ChosenUnique(s: seq<ColourPoint>, i: nat, j: nat)
    requires |s| >= 1 && Chosen(s, i) && Chosen(s, j)
    ensures i == j
  {
  }

  /**
   * A point is added only in a gap wider than MIN_ADD_PERCENT, strictly
   * inside it at equal distance from both ends, so within [0, 1].
   */
  lemma ChosenInsideGap(s: seq<ColourPoint>, i: nat)
    requires |s| >= 1 && Chosen(s, i) && MaxGap(s, |s| - 1) > MIN_ADD_PERCENT
    ensures Clamp(s[i].percent) + MIN_ADD_PERCENT / 2.0 < Mid(s, i) < Clamp(s[i + 1].percent) - MIN_ADD_PERCENT / 2.0
    ensures 0.0 < Mid(s, i) < 1.0
  {
  }

  /**
   * What get_add_point_percent knows after scanning the first n gaps: the
   * largest gap so far, and once it is positive, the gap it has chosen.
   */
  predicate Scanned(s: seq<ColourPoint>, n: nat, maxDiff: real, add: real, chosen: nat)
    requires n < |s|
  {
    maxDiff == MaxGap(s, n) &&
    (maxDiff > 0.0 ==>
      chosen < n && Gap(s, chosen) == maxDiff && add == Mid(s, chosen) &&
      (forall j :: 0 <= j < n && Gap(s, j) == maxDiff ==> Off(add) <= Off(Mid(s, j))) &&
      (forall j :: 0 <= j < chosen && Gap(s, j) == maxDiff ==> Off(add) < Off(Mid(s, j))))
  }

  /** One pass of get_add_point_percent's loop, over gap i. */
  method ScanGap(s: seq<ColourPoint>, i: nat, maxDiff: real, add: real, ghost chosen: nat)
    returns (maxDiff': real, add': real, ghost chosen': nat)
    requires i + 1 < |s| && Scanned(s, i, maxDiff, add, chosen)
    ensures Scanned(s, i + 1, maxDiff', add', chosen')
  {
    maxDiff', add', chosen' := maxDiff, add, chosen;
    var thisDiff := Clamp(s[i + 1].percent) - Clamp(s[i].percent);
    var thisAdd := Clamp(s[i].percent) + thisDiff / 2.0;
    if thisDiff < maxDiff' {
      return;
    }
    if thisDiff > maxDiff' {
      maxDiff' := thisDiff;
      add' := thisAdd;
      chosen' := i;
    }
    if thisDiff == maxDiff' && Off(thisAdd) < Off(add') {
      add' := thisAdd;
      chosen' := i;
    }
  }

  /**
   * get_add_point_percent: one scan over the gaps of the sorted map,
   * keeping the largest gap and, among equal ones, the middle nearest 0.5.
   * The source computes `len - 1` gaps, so the map must not be empty.
   */
  method AddPointPercent(s: seq<ColourPoint>) returns (r: Option<real>)
    requires |s| >= 1
    ensures r.Some? <==> MaxGap(s, |s| - 1) > MIN_ADD_PERCENT
    ensures r.Some? ==> exists i :: Chosen(s, i) && r.value == Mid(s, i)
  {
    var maxPercentDiff := 0.0;
    var percentToAdd := 0.0;
    ghost var chosen := 0;
    for i := 0 to |s| - 1
      invariant Scanned(s, i, maxPercentDiff, percentToAdd, chosen)
    {
      maxPercentDiff, percentToAdd, chosen := ScanGap(s, i, maxPercentDiff, percentToAdd, chosen);
    }
    if maxPercentDiff > MIN_ADD_PERCENT {
      r := Some(percentToAdd);
      assert Chosen(s, chosen);
    } else {
      r := None;
    }
  }

  // ---------------------------------------------------------------
  // the palette cache
  // ---------------------------------------------------------------

  /** Float `%` on non-negative operands: what is left after taking whole multiples of y. */
  function FMod(x: real, y: real): (r: real)
    requires x >= 0.0 && y > 0.0
    ensures 0.0 <= r < y
    ensures x < y ==> r == x
  {
    var q := (x / y).Floor;
    FloorDivBounds(x, y, q);
    x - q as real * y
  }

  /** q = floor(x / y) takes whole multiples of y: q * y <= x < q * y + y, and q = 0 when x < y. */
  lemma FloorDivBounds(x: real, y: real, q: int)
    requires x >= 0.0 && y > 0.0 && q == (x / y).Floor
    ensures q as real * y <= x < q as real * y + y
    ensures x < y ==> q == 0
  {
    var d := x / y;
    var qr := q as real;
    assert d * y == x;
    assert qr <= d < qr + 1.0;
    MulLess(qr, d, y);
    MulLess(d, qr + 1.0, y);
    assert (qr + 1.0) * y == qr * y + y;
    assert d * y < (qr + 1.0) * y;
    assert x < qr * y + y;
    if x < y {
      assert 1.0 * y == y && 0.0 * y == 0.0;
      MulLessInv(d, 1.0, y);
      MulAtMostInv(0.0, d, y);
      assert -1.0 < qr < 1.0;
    }
  }

  lemma MulAtMostInv(a: real, b: real, y: real)
    requires y > 0.0 && a * y <= b * y
    ensures a <= b
  {
    if a > b { MulLess(b, a, y); }
  }

  lemma MulLessInv(a: real, b: real, y: real)
    requires y > 0.0 && a * y < b * y
    ensures a < b
  {
    if a >= b { MulLess(b, a, y); }
  }

  lemma MulLess(a: real, b: real, y: real)
    requires a <= b && y > 0.0
    ensures a * y <= b * y
    ensures a < b ==> a * y < b * y
  {
  }

  /** `max_iterations as usize`: the floor, and 0 below zero. */
  function IterationCount(maxIterations: real): nat
  {
    if maxIterations < 1.0 then 0 else maxIterations.Floor
  }

  /**
   * The position within one repetition of the palette that iteration i
   * takes its colour from (get_constant_palette, get_repeated_palette): a
   * Constant palette spreads the iterations over the palette length, a
   * Repeated one gives every PALETTE_DEPTH * length iterations one
   * repetition; a zero length always reads position 0.
   */
  function CachePercent(m: MappingType, paletteLength: real, maxIterations: nat, i: nat): (p: real)
    requires 0.0 <= paletteLength <= 1.0
    requires m == Constant && paletteLength > 0.0 ==> maxIterations >= 1
    ensures 0.0 <= p < 1.0
  {
    if paletteLength == 0.0 then 0.0
    else
      match m
      case Constant =>
        var total := i as real / maxIterations as real;
        Fraction(total, paletteLength)
      case Repeated =>
        var coloursPerI := paletteLength * PALETTE_DEPTH as real;
        Fraction(i as real, coloursPerI)
  }

  /** `(x % y) / y`: how far x is into its current multiple of y, as a share of y. */
  function Fraction(x: real, y: real): (f: real)
    requires x >= 0.0 && y > 0.0
    ensures 0.0 <= f < 1.0
  {
    var r := FMod(x, y);
    MulLess(r / y, 1.0, y);
    r / y
  }

  /** A Repeated palette of length L starts over every 500 * L iterations. */
  lemma RepeatedPeriod(paletteLength: real, maxIterations: nat, i: nat, q: nat)
    requires 0.0 < paletteLength <= 1.0
    requires (PALETTE_DEPTH as real * paletteLength).Floor as real == PALETTE_DEPTH as real * paletteLength
    ensures var period := (PALETTE_DEPTH as real * paletteLength).Floor;
      CachePercent(Repeated, paletteLength, maxIterations, i + q * period) ==
      CachePercent(Repeated, paletteLength, maxIterations, i)
  {
    var c := paletteLength * PALETTE_DEPTH as real;
    var period := (PALETTE_DEPTH as real * paletteLength).Floor;
    FModShift(i as real, c, q);
    assert (i + q * period) as real == i as real + q as real * c;
  }

  lemma FModShift(x: real, y: real, q: nat)
    requires x >= 0.0 && y > 0.0
    ensures FMod(x + q as real * y, y) == FMod(x, y)
  {
    var k := (x / y).Floor;
    assert (x + q as real * y) / y == x / y + q as real;
    assert ((x + q as real * y) / y).Floor == k + q;
  }

  // ---------------------------------------------------------------
  // the export string
  // ---------------------------------------------------------------

  /** One point as `([r][g][b][a],percent)`; `show` is the float-to-text conversion. */
  function ExportPoint(p: ColourPoint, show: real -> string): string
  {
    "([" + show(p.colour.r) + "][" + show(p.colour.g) + "][" + show(p.colour.b) + "][" +
    show(p.colour.a) + "]," + show(p.percent) + ")"
  }

  function ExportMapString(cm: seq<ColourPoint>, show: real -> string): string
  {
    if |cm| == 0 then "" else ExportMapString(cm[..|cm| - 1], show) + ExportPoint(cm[|cm| - 1], show)
  }

  /** get_export_string: `#map#type[length][offset]`. */
  function ExportString(cm: seq<ColourPoint>, m: MappingType, paletteLength: real, offset: real,
                        show: real -> string): string
  {
    "#" + ExportMapString(cm, show) + "#" + ExportNum(m) + "[" + show(paletteLength) + "][" + show(offset) + "]"
  }

  /** The first index of c in s. */
  function Find(s: string, c: char): (r: Option<nat>)
    ensures r.None? <==> c !in s
    ensures r.Some? ==> r.value < |s| && s[r.value] == c
    ensures r.Some? ==> forall j :: 0 <= j < r.value ==> s[j] != c
  {
    if |s| == 0 then None
    else if s[0] == c then Some(0)
    else match Find(s[1..], c)
      case None => None
      case Some(k) => Some(k + 1)
  }

  /** c at n with none before it: n is where Find stops. */
  lemma FindStopsAt(s: string, c: char, n: nat)
    requires n < |s| && s[n] == c && forall j :: 0 <= j < n ==> s[j] != c
    ensures Find(s, c) == Some(n)
  {
  }

  /** Where import_from_str reads the mapping type: just after the second '#'. */
  function MappingIndex(text: string): Option<nat>
  {
    if |text| == 0 then None
    else match Find(text[1..], '#')
      case None => None
      case Some(k) => Some(k + 2)
  }

  /** Float text never holds '#'. */
  ghost predicate NoHash(show: real -> string)
  {
    forall x :: '#' !in show(x)
  }

  lemma {:induction false} ExportMapNoHash(cm: seq<ColourPoint>, show: real -> string)
    requires NoHash(show)
    ensures '#' !in ExportMapString(cm, show)
  {
    if |cm| > 0 {
      ExportMapNoHash(cm[..|cm| - 1], show);
      var p := cm[|cm| - 1];
      assert '#' !in show(p.colour.r) && '#' !in show(p.colour.g) && '#' !in show(p.colour.b);
      assert '#' !in show(p.colour.a) && '#' !in show(p.percent);
    }
  }

  /** A '#' at n + 1 with none in text[1..n + 1]: the mapping type is read at n + 2. */
  lemma SecondHashAt(text: string, n: nat)
    requires n + 1 < |text| && text[n + 1] == '#'
    requires forall j :: 1 <= j <= n ==> text[j] != '#'
    ensures MappingIndex(text) == Some(n + 2)
  {
    var rest := text[1..];
    assert forall j :: 0 <= j < n ==> rest[j] == text[j + 1];
    FindStopsAt(rest, '#', n);
  }

  /** Importing an exported palette reads back its mapping type. */
  lemma ExportedMappingReadsBack(cm: seq<ColourPoint>, m: MappingType, paletteLength: real, offset: real,
                                 show: real -> string)
    requires NoHash(show)
    ensures var text := ExportString(cm, m, paletteLength, offset, show);
      MappingIndex(text).Some? && MappingIndex(text).value < |text| &&
      ImportFromNum(text[MappingIndex(text).value]) == Some(m)
  {
    var mapString := ExportMapString(cm, show);
    ExportMapNoHash(cm, show);
    var text := ExportString(cm, m, paletteLength, offset, show);
    var head := "#" + mapString + "#" + ExportNum(m);
    assert text[..|head|] == head;
    assert forall j :: 1 <= j <= |mapString| ==> head[j] == mapString[j - 1];
    SecondHashAt(text, |mapString|);
    assert text[|mapString| + 2] == head[|mapString| + 2] == ExportNum(m)[0];
  }

  // ---------------------------------------------------------------
  // the palette
  // ---------------------------------------------------------------

  function DefaultMap(): seq<ColourPoint>
  {
    [ColourPoint(BLACK, 0.0), ColourPoint(WHITE, 1.0)]
  }

  /**
   * The sorted copy belongs to the colour map: with its wrap-around points
   * after any edit, or the default palette's two points as they are.
   */
  predicate SortedFrom(cm: seq<ColourPoint>, sorted: seq<ColourPoint>)
  {
    (|cm| >= 1 && sorted == SortColourMap(cm)) || (cm == DefaultMap() && sorted == DefaultMap())
  }

  /**
   * Removing the extremes recovers the points in key order for both kinds
   * of sorted copy, which is why remove_extremes leaves a two-point map alone.
   */
  lemma RemoveExtremesRecovers(cm: seq<ColourPoint>, sorted: seq<ColourPoint>)
    requires |cm| >= 2 && SortedFrom(cm, sorted)
    ensures |sorted| >= 2 && RemoveExtremes(sorted) == SortByKey(cm, PointKey)
  {
    if |cm| >= 1 && sorted == SortColourMap(cm) {
      SortColourMapShape(cm);
      assert sorted[1..|sorted| - 1] == SortByKey(cm, PointKey);
    } else {
      assert Key(1.0) == 100;
      assert SortByKey(cm[..1], PointKey) == cm[..1];
    }
  }

  class Palette {
    var colourMap: seq<ColourPoint>
    var sortedColourMap: seq<ColourPoint>
    var mappingType: MappingType
    /** The share of the palette one repetition takes, in [0, 1]. */
    var paletteLength: real
    var offset: real
    var paletteCache: seq<Color>

    ghost predicate Valid()
      reads this
    {
      |colourMap| >= 2 && SortedFrom(colourMap, sortedColourMap) && 0.0 <= paletteLength <= 1.0
    }

    /** Palette::new: at least two points, a length in [0, 1] and distinct point keys. */
    constructor(cm: seq<ColourPoint>, m: MappingType, len: real, off: real)
      requires |cm| > 1 && 0.0 <= len <= 1.0 && KeysDistinct(cm)
      ensures Valid()
      ensures colourMap == cm && sortedColourMap == SortColourMap(cm)
      ensures mappingType == m && paletteLength == len && offset == off && paletteCache == []
    {
      colourMap := cm;
      sortedColourMap := SortColourMap(cm);
      mappingType := m;
      paletteLength := len;
      offset := off;
      paletteCache := [];
    }

    /** Palette::default: black at 0 and white at 1, repeated at full length. */
    constructor Default()
      ensures Valid()
      ensures colourMap == DefaultMap() && sortedColourMap == DefaultMap()
      ensures mappingType == Repeated && paletteLength == 1.0 && offset == 0.0 && paletteCache == []
    {
      colourMap := DefaultMap();
      sortedColourMap := DefaultMap();
      mappingType := Repeated;
      paletteLength := 1.0;
      offset := 0.0;
      paletteCache := [];
    }

    /** set_palette_length: reports whether the length changed. */
    method SetPaletteLength(value: real) returns (changed: bool)
      requires Valid() && 0.0 <= value <= 1.0
      modifies this
      ensures Valid()
      ensures changed <==> old(paletteLength) != value
      ensures paletteLength == value
      ensures colourMap == old(colourMap) && sortedColourMap == old(sortedColourMap)
      ensures mappingType == old(mappingType) && offset == old(offset) && paletteCache == old(paletteCache)
    {
      if paletteLength == value {
        return false;
      }
      paletteLength := value;
      return true;
    }

    /** set_offset: reports whether the offset changed. */
    method SetOffset(value: real) returns (changed: bool)
      requires 0.0 <= value <= 1.0
      modifies this
      ensures changed <==> old(offset) != value
      ensures offset == value
      ensures colourMap == old(colourMap) && sortedColourMap == old(sortedColourMap)
      ensures mappingType == old(mappingType) && paletteLength == old(paletteLength)
      ensures paletteCache == old(paletteCache)
    {
      if offset == value {
        return false;
      }
      offset := value;
      return true;
    }

    /**
     * change_point_percent: refused when another point is at exactly that
     * percentage; otherwise only that point moves and the sorted copy is
     * rebuilt.
     */
    method ChangePointPercent(newPercent: real, pointIndex: nat) returns (ok: bool)
      requires Valid() && pointIndex < |colourMap|
      modifies this
      ensures Valid()
      ensures ok <==> forall j :: 0 <= j < |old(colourMap)| && j != pointIndex ==> old(colourMap)[j].percent != newPercent
      ensures ok ==> colourMap == old(colourMap)[pointIndex := old(colourMap)[pointIndex].(percent := newPercent)]
      ensures ok ==> sortedColourMap == SortColourMap(colourMap)
      ensures !ok ==> colourMap == old(colourMap) && sortedColourMap == old(sortedColourMap)
      ensures mappingType == old(mappingType) && paletteLength == old(paletteLength)
      ensures offset == old(offset) && paletteCache == old(paletteCache)
    {
      for i := 0 to |colourMap|
        invariant forall j :: 0 <= j < i && j != pointIndex ==> colourMap[j].percent != newPercent
      {
        if i == pointIndex {
          continue;
        }
        if colourMap[i].percent == newPercent {
          return false;
        }
      }
      colourMap := colourMap[pointIndex := colourMap[pointIndex].(percent := newPercent)];
      sortedColourMap := SortColourMap(colourMap);
      return true;
    }

    /**
     * add_point: a new point in the chosen gap of the sorted copy, coloured
     * by `colourAt` (get_colour_at_percentage, not part of this model);
     * nothing happens when no gap is wide enough.
     */
    method AddPoint(colourAt: real -> Color)
      requires Valid()
      modifies this
      ensures Valid()
      ensures |colourMap| == |old(colourMap)| + 1 <==> MaxGap(old(sortedColourMap), |old(sortedColourMap)| - 1) > MIN_ADD_PERCENT
      ensures |colourMap| == |old(colourMap)| ==> colourMap == old(colourMap) && sortedColourMap == old(sortedColourMap)
      ensures |colourMap| != |old(colourMap)| ==>
        (exists i :: Chosen(old(sortedColourMap), i) &&
          colourMap == old(colourMap) + [ColourPoint(colourAt(Mid(old(sortedColourMap), i)), Mid(old(sortedColourMap), i))]) &&
        sortedColourMap == SortColourMap(colourMap)
      ensures mappingType == old(mappingType) && paletteLength == old(paletteLength)
      ensures offset == old(offset) && paletteCache == old(paletteCache)
    {
      var percent := AddPointPercent(sortedColourMap);
      if percent.None? {
        return;
      }
      var newColour := colourAt(percent.value);
      colourMap := colourMap + [ColourPoint(newColour, percent.value)];
      sortedColourMap := SortColourMap(colourMap);
    }

    /** can_delete_point: a palette keeps at least two points. */
    predicate CanDeletePoint()
      reads this
    {
      |colourMap| > 2
    }

    /** delete_point: removes the point when more than two are left, and does nothing otherwise. */
    method DeletePoint(index: nat)
      requires Valid() && (CanDeletePoint() ==> index < |colourMap|)
      modifies this
      ensures Valid()
      ensures old(CanDeletePoint()) ==>
        colourMap == Remove(old(colourMap), index) && sortedColourMap == SortColourMap(colourMap)
      ensures !old(CanDeletePoint()) ==> colourMap == old(colourMap) && sortedColourMap == old(sortedColourMap)
      ensures mappingType == old(mappingType) && paletteLength == old(paletteLength)
      ensures offset == old(offset) && paletteCache == old(paletteCache)
    {
      if !CanDeletePoint() {
        return;
      }
      colourMap := Remove(colourMap, index);
      sortedColourMap := SortColourMap(colourMap);
    }

    /**
     * generate_palette: one colour per iteration from 0 to
     * `max_iterations as usize`, each read by `colourAt`
     * (get_colour_at_percentage with the offset, not part of this model)
     * at a position in [0, 1).  A Constant palette of non-zero length
     * divides by the iteration count, so it needs one.
     */
    method GeneratePalette(maxIterations: real, colourAt: real -> Color)
      requires Valid()
      requires mappingType == Constant && paletteLength > 0.0 ==> IterationCount(maxIterations) >= 1
      modifies this
      ensures Valid()
      ensures colourMap == old(colourMap) && sortedColourMap == old(sortedColourMap)
      ensures mappingType == old(mappingType) && paletteLength == old(paletteLength) && offset == old(offset)
      ensures |paletteCache| == IterationCount(maxIterations) + 1
      ensures forall i :: 0 <= i < |paletteCache| ==>
        paletteCache[i] == colourAt(CachePercent(mappingType, paletteLength, IterationCount(maxIterations), i))
    {
      var n := IterationCount(maxIterations);
      var palette: seq<Color> := [];
      for i := 0 to n + 1
        invariant |palette| == i
        invariant forall k :: 0 <= k < i ==> palette[k] == colourAt(CachePercent(mappingType, paletteLength, n, k))
      {
        palette := palette + [colourAt(CachePercent(mappingType, paletteLength, n, i))];
      }
      paletteCache := palette;
    }
  }
}
