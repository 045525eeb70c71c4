/**
 * tools/ha_history.py: clustering the rows of a de-duplicated export into cycles, and filling the rows
 * back in. Times are whole microseconds, as Python's timedelta keeps them.
 */
module HaHistory {

  datatype Option<T> = None | Some(value: T)

  /** One surviving row. */
  datatype Sample = Sample(at: int, value: real)

  /** A reconstructed cell and where its value comes from. */
  datatype Cell = Sampled(value: real) | Held(value: real) | Missing

  // ---- sorting and bisection ------------------------------------------------------------------------------

  predicate Ordered(s: seq<int>) {
    forall i, j :: 0 <= i < j < |s| ==> s[i] <= s[j]
  }

  lemma OrderedAppend(s: seq<int>, x: int)
    requires Ordered(s) && forall y :: y in s ==> y <= x
    ensures Ordered(s + [x])
  {
    forall i | 0 <= i < |s|
      ensures s[i] <= x
    {
      assert s[i] in s;
    }
  }

  lemma OrderedFront(s: seq<int>)
    requires Ordered(s) && s != []
    ensures Ordered(s[..|s| - 1]) && forall y :: y in s ==> y <= s[|s| - 1]
    ensures s == s[..|s| - 1] + [s[|s| - 1]]
  {
  }

  function Insert(s: seq<int>, x: int): (t: seq<int>)
    requires Ordered(s)
    ensures Ordered(t) && |t| == |s| + 1 && forall y :: y in t <==> y == x || y in s
  {
    if s == [] then [x]
    else
      OrderedFront(s);
      if s[|s| - 1] <= x then
        OrderedAppend(s, x);
        s + [x]
      else
        var front := Insert(s[..|s| - 1], x);
        OrderedAppend(front, s[|s| - 1]);
        front + [s[|s| - 1]]
  }

  /** Python's sorted(); how often a stamp occurs does not matter here. */
  function Sorted(s: seq<int>): (t: seq<int>)
    ensures Ordered(t) && |t| == |s| && forall y :: y in t <==> y in s
  {
    if s == [] then []
    else
      assert s == s[..|s| - 1] + [s[|s| - 1]];
      Insert(Sorted(s[..|s| - 1]), s[|s| - 1])
  }

  /** The number of stamps below `x`. */
  function BisectLeft(stamps: seq<int>, x: int): (k: nat)
    requires Ordered(stamps)
    ensures k <= |stamps|
    ensures (forall i :: 0 <= i < k ==> stamps[i] < x) && (forall i :: k <= i < |stamps| ==> x <= stamps[i])
  {
    if stamps == [] || stamps[|stamps| - 1] < x then |stamps| else BisectLeft(stamps[..|stamps| - 1], x)
  }

  // ---- anchors ---------------------------------------------------------------------------------------------

  function Anchors(stamps: seq<int>, epsilon: int): (a: seq<int>) {
    if stamps == [] then []
    else Extended(Anchors(stamps[..|stamps| - 1], epsilon), stamps[|stamps| - 1], epsilon)
  }

  /** A stamp at least epsilon after the last anchor is the next one. */
  function Extended(a: seq<int>, x: int, epsilon: int): (b: seq<int>) {
    if a == [] || x - a[|a| - 1] >= epsilon then a + [x] else a
  }

  /** Some neighbouring anchors are closer than one and a half epsilon. */
  predicate TooClose(anchors: seq<int>, epsilon: int) {
    exists i :: 0 <= i < |anchors| - 1 && CloseAt(anchors, i, epsilon)
  }

  predicate CloseAt(anchors: seq<int>, i: int, epsilon: int)
    requires 0 <= i < |anchors| - 1
  {
    2 * (anchors[i + 1] - anchors[i]) < 3 * epsilon
  }

  method Cluster(stamps: seq<int>, epsilon: int) returns (found: seq<int>)
    ensures found == Anchors(stamps, epsilon)
  {
    found := [];
    for i := 0 to |stamps|
      invariant found == Anchors(stamps[..i], epsilon)
    {
      assert stamps[..i + 1][..i] == stamps[..i];
      if found == [] || stamps[i] - found[|found| - 1] >= epsilon {
        found := found + [stamps[i]];
      }
    }
    assert stamps[..|stamps|] == stamps;
  }

  method FindTooClose(found: seq<int>, epsilon: int) returns (close: bool)
    ensures close <==> TooClose(found, epsilon)
  {
    for i := 0 to if found == [] then 0 else |found| - 1
      invariant forall k :: 0 <= k < i ==> !CloseAt(found, k, epsilon)
    {
      if 2 * (found[i + 1] - found[i]) < 3 * epsilon {
        assert CloseAt(found, i, epsilon);
        return true;
      }
    }
    close := false;
  }

  /** The clustering pass; None stands for AnchorError. */
  method CycleAnchors(all: seq<int>, epsilon: int) returns (anchors: Option<seq<int>>)
    ensures anchors == if all == [] || TooClose(Anchors(Sorted(all), epsilon), epsilon) then None
                       else Some(Anchors(Sorted(all), epsilon))
  {
    var stamps := Sorted(all);
    if stamps == [] {
      return None;
    }
    var found := Cluster(stamps, epsilon);
    var close := FindTooClose(found, epsilon);
    anchors := if close then None else Some(found);
  }

  // ---- one column -------------------------------------------------------------------------------------------

  function Stamps(samples: seq<Sample>): (s: seq<int>)
    ensures |s| == |samples| && forall i :: 0 <= i < |s| ==> s[i] == samples[i].at
  {
    seq(|samples|, i requires 0 <= i < |samples| => samples[i].at)
  }

  /** The cell at one anchor: the last row inside its window, or else the last one before, if not too old. */
  function CellAt(samples: seq<Sample>, anchor: int, epsilon: int, maxHold: int): (c: Cell)
    requires Ordered(Stamps(samples))
  {
    var inside := BisectLeft(Stamps(samples), anchor + epsilon) - 1;
    var before := BisectLeft(Stamps(samples), anchor) - 1;
    if inside >= 0 && samples[inside].at >= anchor then Sampled(samples[inside].value)
    else if before >= 0 && anchor - samples[before].at <= maxHold then Held(samples[before].value)
    else Missing
  }

  datatype Column = Column(cells: seq<Cell>, sampled: nat, held: nat, missing: nat)

  /** How many cells were put back, and how many are missing. */
  function CountHeld(cells: seq<Cell>): (n: nat) {
    if cells == [] then 0 else CountHeld(cells[..|cells| - 1]) + if cells[|cells| - 1].Held? then 1 else 0
  }

  function CountMissing(cells: seq<Cell>): (n: nat) {
    if cells == [] then 0 else CountMissing(cells[..|cells| - 1]) + if cells[|cells| - 1].Missing? then 1 else 0
  }

  method FillCell(samples: seq<Sample>, stamps: seq<int>, anchor: int, epsilon: int, maxHold: int) returns (cell: Cell)
    requires stamps == Stamps(samples) && Ordered(stamps)
    ensures cell == CellAt(samples, anchor, epsilon, maxHold)
  {
    var inside := BisectLeft(stamps, anchor + epsilon) - 1;
    if inside >= 0 && stamps[inside] >= anchor {
      return Sampled(samples[inside].value);
    }
    var before := BisectLeft(stamps, anchor) - 1;
    if before >= 0 && anchor - stamps[before] <= maxHold {
      return Held(samples[before].value);
    }
    cell := Missing;
  }

  /** One column of the table, with its audit counts. */
  method FillColumn(samples: seq<Sample>, anchors: seq<int>, epsilon: int, maxHold: int) returns (column: Column)
    requires Ordered(Stamps(samples))
    ensures |column.cells| == |anchors|
    ensures forall i :: 0 <= i < |anchors| ==> column.cells[i] == CellAt(samples, anchors[i], epsilon, maxHold)
    ensures column.held == CountHeld(column.cells) && column.missing == CountMissing(column.cells)
    ensures column.sampled + column.held + column.missing == |anchors|
  {
    var stamps := Stamps(samples);
    var cells: seq<Cell> := [];
    var sampled, held, missing := 0, 0, 0;
    for i := 0 to |anchors|
      invariant |cells| == i && sampled + held + missing == i
      invariant forall k :: 0 <= k < i ==> cells[k] == CellAt(samples, anchors[k], epsilon, maxHold)
      invariant held == CountHeld(cells) && missing == CountMissing(cells)
    {
      var cell := FillCell(samples, stamps, anchors[i], epsilon, maxHold);
      assert (cells + [cell])[..i] == cells;
      cells := cells + [cell];
      match cell
      case Sampled(_) => sampled := sampled + 1;
      case Held(_) => held := held + 1;
      case Missing => missing := missing + 1;
    }
    column := Column(cells, sampled, held, missing);
  }

  // ---- what was published ---------------------------------------------------------------------------------------

  /** Cycle `c` keeps its row if it is the first or its value differs from the one before. */
  predicate Kept(values: seq<real>, c: nat)
    requires c < |values|
  {
    c == 0 || values[c] != values[c - 1]
  }

  /** Home Assistant's export of one entity that published `values[c]` at `times[c]`. */
  function Dedup(times: seq<int>, values: seq<real>): (rows: seq<Sample>)
    requires |times| == |values|
  {
    if values == [] then []
    else
      var n := |values| - 1;
      Dedup(times[..n], values[..n]) + if Kept(values, n) then [Sample(times[n], values[n])] else []
  }

  /** The rows kept from the first `n` cycles. */
  function KeptCount(values: seq<real>, n: nat): (k: nat)
    requires n <= |values|
    ensures k <= n
  {
    if n == 0 then 0 else KeptCount(values, n - 1) + if Kept(values, n - 1) then 1 else 0
  }

  /** The cycle whose row still stands at cycle `c`. */
  function Standing(values: seq<real>, c: nat): (s: nat)
    requires c < |values|
    ensures s <= c && Kept(values, s) && values[s] == values[c]
    ensures s == c <==> Kept(values, c)
    ensures forall k :: s < k <= c ==> !Kept(values, k)
  {
    if Kept(values, c) then c else Standing(values, c - 1)
  }

  /** Cycles that start at `lo` and last at most `spread`, each beginning epsilon after the one before could end. */
  ghost predicate Separated(lo: seq<int>, spread: int, epsilon: int) {
    0 <= spread < epsilon && forall i, j :: 0 <= i < j < |lo| ==> lo[i] + spread + epsilon <= lo[j]
  }

  ghost predicate InCycles(times: seq<int>, lo: seq<int>, spread: int) {
    |times| == |lo| && forall c :: 0 <= c < |lo| ==> lo[c] <= times[c] <= lo[c] + spread
  }

  lemma {:induction false} KeptPrefix(values: seq<real>, m: nat, n: nat)
    requires n <= m <= |values|
    ensures KeptCount(values[..m], n) == KeptCount(values, n)
    ensures 0 < n ==> Standing(values[..m], n - 1) == Standing(values, n - 1)
  {
    if n > 0 {
      KeptPrefix(values, m, n - 1);
    }
  }

  lemma {:induction false} DedupCount(times: seq<int>, values: seq<real>)
    requires |times| == |values|
    ensures |Dedup(times, values)| == KeptCount(values, |values|)
  {
    if values != [] {
      var m := |values| - 1;
      DedupCount(times[..m], values[..m]);
      KeptPrefix(values, m, m);
    }
  }

  /** The export of the first `n` cycles is the beginning of the whole export. */
  lemma {:induction false} DedupPrefix(times: seq<int>, values: seq<real>, n: nat)
    requires n <= |times| == |values|
    ensures |Dedup(times, values)| == KeptCount(values, |values|)
    ensures KeptCount(values, n) <= |Dedup(times, values)|
    ensures Dedup(times, values)[..KeptCount(values, n)] == Dedup(times[..n], values[..n])
  {
    DedupCount(times, values);
    if n == |values| {
      assert times[..n] == times && values[..n] == values;
    } else {
      var m := |values| - 1;
      DedupPrefix(times[..m], values[..m], n);
      KeptPrefix(values, m, n);
      assert times[..m][..n] == times[..n] && values[..m][..n] == values[..n];
      assert Dedup(times[..m], values[..m]) <= Dedup(times, values);
    }
  }

  /** The newest row is the one that stands at the last cycle, and none is later than that cycle can be. */
  lemma {:induction false} DedupNewest(times: seq<int>, values: seq<real>, lo: seq<int>, spread: int, epsilon: int)
    requires Separated(lo, spread, epsilon) && InCycles(times, lo, spread) && |values| == |lo| > 0
    ensures var rows, n := Dedup(times, values), |values| - 1;
            && rows != [] && rows[|rows| - 1] == Sample(times[Standing(values, n)], values[n])
            && forall i :: 0 <= i < |rows| ==> rows[i].at <= lo[n] + spread
  {
    var n := |values| - 1;
    if n > 0 {
      DedupNewest(times[..n], values[..n], lo[..n], spread, epsilon);
      KeptPrefix(values, n, n);
    }
  }

  /** Rows beyond those of the first `n` cycles are not earlier than the next cycle's start. */
  lemma {:induction false} DedupLater(times: seq<int>, values: seq<real>, lo: seq<int>, spread: int, epsilon: int,
                                     n: nat)
    requires Separated(lo, spread, epsilon) && InCycles(times, lo, spread) && |values| == |lo| && n < |lo|
    ensures forall i :: KeptCount(values, n) <= i < |Dedup(times, values)| ==> lo[n] <= Dedup(times, values)[i].at
  {
    var m := |values| - 1;
    KeptPrefix(values, m, n);
    DedupPrefix(times[..m], values[..m], m);
    if n < m {
      DedupLater(times[..m], values[..m], lo[..m], spread, epsilon, n);
    }
  }

  /** The export is in the order of time. */
  lemma {:induction false} DedupOrdered(times: seq<int>, values: seq<real>, lo: seq<int>, spread: int, epsilon: int)
    requires Separated(lo, spread, epsilon) && InCycles(times, lo, spread) && |values| == |lo|
    ensures Ordered(Stamps(Dedup(times, values)))
  {
    if values != [] {
      var n := |values| - 1;
      DedupOrdered(times[..n], values[..n], lo[..n], spread, epsilon);
      if n > 0 {
        DedupNewest(times[..n], values[..n], lo[..n], spread, epsilon);
      }
      var front := Dedup(times[..n], values[..n]);
      assert forall i :: 0 <= i < |front| ==> Stamps(Dedup(times, values))[i] == Stamps(front)[i];
    }
  }

  lemma BisectUnique(stamps: seq<int>, x: int, k: nat)
    requires Ordered(stamps) && k <= |stamps|
    requires (forall i :: 0 <= i < k ==> stamps[i] < x) && (forall i :: k <= i < |stamps| ==> x <= stamps[i])
    ensures BisectLeft(stamps, x) == k
  {
    var b := BisectLeft(stamps, x);
  }

  // ---- one cell -------------------------------------------------------------------------------------------------

  /** How the planted cell of cycle `c` comes back: as published, unless it was held for too long. */
  function Recovered(times: seq<int>, values: seq<real>, c: nat, anchor: int, maxHold: int): (cell: Cell)
    requires c < |values| == |times|
  {
    var s := Standing(values, c);
    if s == c && anchor <= times[c] then Sampled(values[c])
    else if anchor - times[s] <= maxHold then Held(values[c])
    else Missing
  }

  /** The newest row of the first `n` cycles. */
  lemma NewestRow(times: seq<int>, values: seq<real>, lo: seq<int>, spread: int, epsilon: int, n: nat)
    requires Separated(lo, spread, epsilon) && InCycles(times, lo, spread) && |values| == |lo| && 0 < n <= |lo|
    ensures var k := KeptCount(values, n);
            0 < k <= |Dedup(times, values)|
            && Dedup(times, values)[k - 1] == Sample(times[Standing(values, n - 1)], values[n - 1])
  {
    DedupPrefix(times, values, n);
    DedupPrefix(times[..n], values[..n], n);
    KeptPrefix(values, n, n);
    DedupNewest(times[..n], values[..n], lo[..n], spread, epsilon);
  }

  /** A bound between the newest row of the first `n` cycles and the next cycle has exactly their rows below it. */
  lemma BisectAtCycle(times: seq<int>, values: seq<real>, lo: seq<int>, spread: int, epsilon: int, n: nat, x: int)
    requires Separated(lo, spread, epsilon) && InCycles(times, lo, spread) && |values| == |lo| && 0 < n <= |lo|
    requires times[Standing(values, n - 1)] < x && (n < |lo| ==> x <= lo[n])
    ensures Ordered(Stamps(Dedup(times, values)))
    ensures BisectLeft(Stamps(Dedup(times, values)), x) == KeptCount(values, n)
  {
    DedupOrdered(times, values, lo, spread, epsilon);
    NewestRow(times, values, lo, spread, epsilon, n);
    if n < |lo| {
      DedupLater(times, values, lo, spread, epsilon, n);
    } else {
      DedupPrefix(times, values, n);
    }
    BisectUnique(Stamps(Dedup(times, values)), x, KeptCount(values, n));
  }

  /**
   * Filling one cell gives back exactly the published value, for any anchor inside the cycle and any
   * entity published with it, unless its last row is older than the cap.
   */
  lemma CellIsPlanted(times: seq<int>, values: seq<real>, lo: seq<int>, spread: int, epsilon: int, maxHold: int,
                      c: nat, anchor: int)
    requires Separated(lo, spread, epsilon) && InCycles(times, lo, spread) && |values| == |lo|
    requires c < |lo| && lo[c] <= anchor <= lo[c] + spread
    ensures Ordered(Stamps(Dedup(times, values)))
    ensures CellAt(Dedup(times, values), anchor, epsilon, maxHold) == Recovered(times, values, c, anchor, maxHold)
  {
    var rows, k, s := Dedup(times, values), KeptCount(values, c + 1), Standing(values, c);
    NewestRow(times, values, lo, spread, epsilon, c + 1);
    BisectAtCycle(times, values, lo, spread, epsilon, c + 1, anchor + epsilon);
    if times[s] < anchor {
      BisectAtCycle(times, values, lo, spread, epsilon, c + 1, anchor);
    }
    assert s < c ==> times[s] < anchor;
    CellFromRow(rows, anchor, epsilon, maxHold, k);
  }

  /** The cell at an anchor depends on one row: the newest before the end of the anchor's window. */
  lemma CellFromRow(rows: seq<Sample>, anchor: int, epsilon: int, maxHold: int, k: nat)
    requires Ordered(Stamps(rows)) && 0 < k <= |rows| && BisectLeft(Stamps(rows), anchor + epsilon) == k
    requires rows[k - 1].at < anchor ==> BisectLeft(Stamps(rows), anchor) == k
    ensures CellAt(rows, anchor, epsilon, maxHold)
            == if anchor <= rows[k - 1].at then Sampled(rows[k - 1].value)
               else if anchor - rows[k - 1].at <= maxHold then Held(rows[k - 1].value) else Missing
  {
  }

  // ---- the anchors ------------------------------------------------------------------------------------------------

  ghost predicate InCycle(lo: seq<int>, spread: int, c: nat, x: int) {
    c < |lo| && lo[c] <= x <= lo[c] + spread
  }

  /** A later stamp belongs to no earlier cycle. */
  lemma CyclesGrow(lo: seq<int>, spread: int, epsilon: int, c: nat, x: int, d: nat, y: int)
    requires Separated(lo, spread, epsilon) && InCycle(lo, spread, c, x) && InCycle(lo, spread, d, y) && x <= y
    ensures c <= d
  {
  }

  /** Stamp `i` lies in its cycle: cycle 0 for the first, that of the stamp before or the next for another. */
  ghost predicate PlacedAt(cycle: int -> nat, stamps: seq<int>, lo: seq<int>, spread: int, i: nat)
    requires i < |stamps|
  {
    && InCycle(lo, spread, cycle(stamps[i]), stamps[i])
    && (i == 0 ==> cycle(stamps[0]) == 0)
    && (i > 0 ==> stamps[i - 1] <= stamps[i] && cycle(stamps[i - 1]) <= cycle(stamps[i]) <= cycle(stamps[i - 1]) + 1)
  }

  ghost predicate Places(cycle: int -> nat, stamps: seq<int>, lo: seq<int>, spread: int) {
    forall i :: 0 <= i < |stamps| ==> PlacedAt(cycle, stamps, lo, spread, i)
  }

  /** One anchor for each cycle up to the last stamp's, no later than any stamp of it. */
  ghost predicate FirstOfEach(a: seq<int>, cycle: int -> nat, stamps: seq<int>, lo: seq<int>, spread: int) {
    && (stamps == [] ==> a == [])
    && (stamps != [] ==> |a| == cycle(stamps[|stamps| - 1]) + 1)
    && (forall k :: 0 <= k < |a| ==> InCycle(lo, spread, k, a[k]))
    && (forall i :: 0 <= i < |stamps| ==> cycle(stamps[i]) < |a| && a[cycle(stamps[i])] <= stamps[i])
  }

  /** A stamp of the newest cycle is too near to its anchor to start another; one of the next cycle is far enough. */
  lemma NearOrFar(lo: seq<int>, spread: int, epsilon: int, c: nat, anchor: int, d: nat, x: int)
    requires Separated(lo, spread, epsilon) && InCycle(lo, spread, c, anchor) && InCycle(lo, spread, d, x)
    requires d == c || d == c + 1
    ensures x - anchor >= epsilon <==> d == c + 1
  {
  }

  lemma OneMoreStamp(a: seq<int>, before: seq<int>, x: int, cycle: int -> nat, lo: seq<int>, spread: int, epsilon: int)
    requires Separated(lo, spread, epsilon) && FirstOfEach(a, cycle, before, lo, spread)
    requires PlacedAt(cycle, before + [x], lo, spread, |before|)
    ensures FirstOfEach(Extended(a, x, epsilon), cycle, before + [x], lo, spread)
  {
    var n, stamps := |before|, before + [x];
    assert stamps[n] == x && forall i :: 0 <= i < n ==> stamps[i] == before[i];
    if n > 0 {
      NearOrFar(lo, spread, epsilon, |a| - 1, a[|a| - 1], cycle(x), x);
      assert a[cycle(before[n - 1])] <= before[n - 1];
    }
  }

  lemma PlacesFront(cycle: int -> nat, stamps: seq<int>, n: nat, lo: seq<int>, spread: int)
    requires n <= |stamps| && Places(cycle, stamps, lo, spread)
    ensures Places(cycle, stamps[..n], lo, spread)
  {
    forall i | 0 <= i < n
      ensures PlacedAt(cycle, stamps[..n], lo, spread, i)
    {
      assert PlacedAt(cycle, stamps, lo, spread, i);
    }
  }

  /** Clustering sorted stamps of separated cycles, none left out, finds one anchor per cycle: its first stamp. */
  lemma {:induction false} OneAnchorPerCycle(stamps: seq<int>, cycle: int -> nat, lo: seq<int>, spread: int,
                                            epsilon: int)
    requires Places(cycle, stamps, lo, spread) && Separated(lo, spread, epsilon)
    ensures FirstOfEach(Anchors(stamps, epsilon), cycle, stamps, lo, spread)
  {
    if |stamps| > 0 {
      var n := |stamps| - 1;
      var before := stamps[..n];
      PlacesFront(cycle, stamps, n, lo, spread);
      OneAnchorPerCycle(before, cycle, lo, spread, epsilon);
      assert stamps == before + [stamps[n]] && PlacedAt(cycle, stamps, lo, spread, n);
      OneMoreStamp(Anchors(before, epsilon), before, stamps[n], cycle, lo, spread, epsilon);
    }
  }

  /** When every cycle has a stamp, no two neighbours of the sorted stamps skip one. */
  lemma NoCycleSkipped(cycle: int -> nat, stamps: seq<int>, lo: seq<int>, spread: int, epsilon: int, i: nat)
    requires Ordered(stamps) && Separated(lo, spread, epsilon) && i < |stamps|
    requires forall j :: 0 <= j < |stamps| ==> InCycle(lo, spread, cycle(stamps[j]), stamps[j])
    requires forall c :: 0 <= c < |lo| ==> Occurs(cycle, stamps, c)
    ensures PlacedAt(cycle, stamps, lo, spread, i)
  {
    var c, d := if i == 0 then 0 else cycle(stamps[i - 1]) + 1, cycle(stamps[i]);
    if i > 0 {
      CyclesGrow(lo, spread, epsilon, cycle(stamps[i - 1]), stamps[i - 1], d, stamps[i]);
    }
    if c < |lo| {
      assert Occurs(cycle, stamps, c);
      var j :| 0 <= j < |stamps| && cycle(stamps[j]) == c;
      assert i <= j;
      CyclesGrow(lo, spread, epsilon, d, stamps[i], c, stamps[j]);
    }
  }

  ghost predicate Occurs(cycle: int -> nat, stamps: seq<int>, k: nat) {
    exists j :: 0 <= j < |stamps| && cycle(stamps[j]) == k
  }

  /** The last cycle that starts at or before `x`. */
  ghost function CycleOf(lo: seq<int>, x: int): (c: nat) {
    if lo == [] then 0
    else if |lo| == 1 || lo[|lo| - 1] <= x then |lo| - 1
    else CycleOf(lo[..|lo| - 1], x)
  }

  lemma {:induction false} CycleIs(lo: seq<int>, spread: int, epsilon: int, c: nat, x: int)
    requires Separated(lo, spread, epsilon) && InCycle(lo, spread, c, x)
    ensures CycleOf(lo, x) == c
  {
    if c < |lo| - 1 {
      CycleIs(lo[..|lo| - 1], spread, epsilon, c, x);
    }
  }

  // ---- the round trip -----------------------------------------------------------------------------------------------

  /** Several entities published together: entity `e` publishes `values[e][c]` at `times[e][c]` in cycle `c`. */
  datatype Planted = Planted(lo: seq<int>, spread: int, times: seq<seq<int>>, values: seq<seq<real>>)

  ghost predicate WellPlanted(p: Planted, epsilon: int) {
    && p.lo != [] && Separated(p.lo, p.spread, epsilon) && |p.times| == |p.values|
    && (forall e :: 0 <= e < |p.times| ==> InCycles(p.times[e], p.lo, p.spread) && |p.values[e]| == |p.lo|)
    && (forall c :: 0 <= c < |p.lo| ==> SomeKept(p, c))
  }

  ghost predicate KeptBy(p: Planted, e: nat, c: nat) {
    e < |p.values| == |p.times| && c < |p.values[e]| == |p.times[e]| && Kept(p.values[e], c)
  }

  /** At least one entity keeps its row of cycle `c`. */
  ghost predicate SomeKept(p: Planted, c: nat) {
    exists e: nat :: KeptBy(p, e, c)
  }

  /** The stamps of the first `n` entities' rows, one entity after the other. */
  function AllStamps(p: Planted, n: nat): (s: seq<int>)
    requires n <= |p.times| == |p.values| && forall e :: 0 <= e < n ==> |p.times[e]| == |p.values[e]|
  {
    if n == 0 then [] else AllStamps(p, n - 1) + Stamps(Dedup(p.times[n - 1], p.values[n - 1]))
  }

  ghost predicate RowAt(times: seq<int>, values: seq<real>, c: nat, x: int) {
    c < |values| == |times| && Kept(values, c) && times[c] == x
  }

  lemma {:induction false} StampOfRow(times: seq<int>, values: seq<real>, x: int)
    requires |times| == |values|
    ensures x in Stamps(Dedup(times, values)) <==> exists c: nat :: RowAt(times, values, c, x)
  {
    if values != [] {
      var n := |values| - 1;
      StampOfRow(times[..n], values[..n], x);
      assert Stamps(Dedup(times, values))
             == Stamps(Dedup(times[..n], values[..n])) + if Kept(values, n) then [times[n]] else [];
      assert forall c: nat :: c < n ==> RowAt(times[..n], values[..n], c, x) == RowAt(times, values, c, x);
      if Kept(values, n) && times[n] == x {
        assert RowAt(times, values, n, x);
      }
    }
  }

  ghost predicate StampBy(p: Planted, e: nat, c: nat, x: int) {
    e < |p.times| == |p.values| && RowAt(p.times[e], p.values[e], c, x)
  }

  lemma {:induction false} StampOfEntity(p: Planted, n: nat, x: int)
    requires n <= |p.times| == |p.values| && forall e :: 0 <= e < |p.times| ==> |p.times[e]| == |p.values[e]|
    ensures x in AllStamps(p, n) <==> exists e: nat, c: nat :: e < n && StampBy(p, e, c, x)
  {
    if n > 0 {
      StampOfEntity(p, n - 1, x);
      var times, values := p.times[n - 1], p.values[n - 1];
      StampOfRow(times, values, x);
      if c: nat :| RowAt(times, values, c, x) {
        assert StampBy(p, n - 1, c, x);
      }
    }
  }

  /** The anchors of a planted export are one stamp per cycle, the earliest of its rows. */
  lemma PlantedAnchors(p: Planted, epsilon: int)
    requires WellPlanted(p, epsilon)
    ensures AllStamps(p, |p.times|) != []
    ensures var a := Anchors(Sorted(AllStamps(p, |p.times|)), epsilon);
            && |a| == |p.lo| && (forall c :: 0 <= c < |a| ==> InCycle(p.lo, p.spread, c, a[c]))
            && (forall e: nat, c: nat :: KeptBy(p, e, c) ==> a[c] <= p.times[e][c])
  {
    var stamps := Sorted(AllStamps(p, |p.times|));
    var cycle := x => CycleOf(p.lo, x);
    StampsPlaced(p, epsilon, stamps, cycle);
    OneAnchorPerCycle(stamps, cycle, p.lo, p.spread, epsilon);
    LastCycleOccurs(cycle, stamps, p.lo, p.spread);
    var a := Anchors(stamps, epsilon);
    forall e: nat, c: nat | KeptBy(p, e, c)
      ensures a[c] <= p.times[e][c]
    {
      var i :| 0 <= i < |stamps| && stamps[i] == p.times[e][c];
    }
  }

  lemma LastCycleOccurs(cycle: int -> nat, stamps: seq<int>, lo: seq<int>, spread: int)
    requires lo != [] && Places(cycle, stamps, lo, spread) && Occurs(cycle, stamps, |lo| - 1)
    ensures stamps != [] && cycle(stamps[|stamps| - 1]) == |lo| - 1
  {
    var j :| 0 <= j < |stamps| && cycle(stamps[j]) == |lo| - 1;
    var i := j;
    while i < |stamps| - 1
      invariant j <= i < |stamps| && cycle(stamps[i]) == |lo| - 1
    {
      i := i + 1;
      assert PlacedAt(cycle, stamps, lo, spread, i);
    }
  }

  lemma StampInCycle(p: Planted, epsilon: int, cycle: int -> nat, x: int)
    requires WellPlanted(p, epsilon) && x in AllStamps(p, |p.times|) && cycle(x) == CycleOf(p.lo, x)
    ensures InCycle(p.lo, p.spread, cycle(x), x)
  {
    StampOfEntity(p, |p.times|, x);
    var e: nat, c: nat :| e < |p.times| && StampBy(p, e, c, x);
    CycleIs(p.lo, p.spread, epsilon, c, x);
  }

  lemma RowStamped(p: Planted, epsilon: int, cycle: int -> nat, e: nat, c: nat)
    requires WellPlanted(p, epsilon) && KeptBy(p, e, c) && cycle(p.times[e][c]) == CycleOf(p.lo, p.times[e][c])
    ensures p.times[e][c] in AllStamps(p, |p.times|) && cycle(p.times[e][c]) == c
  {
    assert StampBy(p, e, c, p.times[e][c]);
    StampOfEntity(p, |p.times|, p.times[e][c]);
    CycleIs(p.lo, p.spread, epsilon, c, p.times[e][c]);
  }

  /** The sorted stamps of a planted export lie in its cycles, every cycle has one, and none is skipped. */
  lemma StampsPlaced(p: Planted, epsilon: int, stamps: seq<int>, cycle: int -> nat)
    requires WellPlanted(p, epsilon) && stamps == Sorted(AllStamps(p, |p.times|))
    requires forall x :: cycle(x) == CycleOf(p.lo, x)
    ensures Places(cycle, stamps, p.lo, p.spread) && Occurs(cycle, stamps, |p.lo| - 1)
    ensures forall e: nat, c: nat :: KeptBy(p, e, c) ==> p.times[e][c] in stamps && cycle(p.times[e][c]) == c
  {
    forall e: nat, c: nat | KeptBy(p, e, c)
      ensures p.times[e][c] in stamps && cycle(p.times[e][c]) == c
    {
      RowStamped(p, epsilon, cycle, e, c);
    }
    EveryCycleOccurs(p, cycle, stamps);
    forall i | 0 <= i < |stamps|
      ensures InCycle(p.lo, p.spread, cycle(stamps[i]), stamps[i])
    {
      assert stamps[i] in stamps;
      StampInCycle(p, epsilon, cycle, stamps[i]);
    }
    AllPlaced(cycle, stamps, p.lo, p.spread, epsilon);
  }

  lemma AllPlaced(cycle: int -> nat, stamps: seq<int>, lo: seq<int>, spread: int, epsilon: int)
    requires Ordered(stamps) && Separated(lo, spread, epsilon)
    requires forall j :: 0 <= j < |stamps| ==> InCycle(lo, spread, cycle(stamps[j]), stamps[j])
    requires forall c :: 0 <= c < |lo| ==> Occurs(cycle, stamps, c)
    ensures Places(cycle, stamps, lo, spread)
  {
    forall i: nat | i < |stamps|
      ensures PlacedAt(cycle, stamps, lo, spread, i)
    {
      NoCycleSkipped(cycle, stamps, lo, spread, epsilon, i);
    }
  }

  lemma EveryCycleOccurs(p: Planted, cycle: int -> nat, stamps: seq<int>)
    requires forall c :: 0 <= c < |p.lo| ==> SomeKept(p, c)
    requires forall e: nat, c: nat :: KeptBy(p, e, c) ==> p.times[e][c] in stamps && cycle(p.times[e][c]) == c
    ensures forall c :: 0 <= c < |p.lo| ==> Occurs(cycle, stamps, c)
  {
    forall c: nat | c < |p.lo|
      ensures Occurs(cycle, stamps, c)
    {
      assert SomeKept(p, c);
      var e: nat :| KeptBy(p, e, c);
      var j :| 0 <= j < |stamps| && stamps[j] == p.times[e][c];
      assert cycle(stamps[j]) == c;
    }
  }

  /** How long the row that stands at cycle `c` has to be held at that cycle's anchor. */
  function Age(times: seq<int>, values: seq<real>, anchors: seq<int>, c: nat): (us: int)
    requires c < |values| == |times| == |anchors|
  {
    anchors[c] - times[Standing(values, c)]
  }

  /** A column comes back: which cells are sampled, and that the rest are the dropped rows, put back or missing. */
  lemma {:induction false} ColumnCounts(times: seq<int>, values: seq<real>, anchors: seq<int>, cells: seq<Cell>,
                                        maxHold: int, n: nat)
    requires |times| == |values| == |anchors| == |cells| && n <= |cells|
    requires forall c :: 0 <= c < |cells| ==> cells[c] == Recovered(times, values, c, anchors[c], maxHold)
    requires forall c :: 0 <= c < |cells| && Kept(values, c) ==> anchors[c] <= times[c]
    requires forall c :: 0 <= c < |cells| ==> Age(times, values, anchors, c) <= maxHold
    ensures CountMissing(cells[..n]) == 0 && CountHeld(cells[..n]) == n - KeptCount(values, n)
  {
    if n > 0 {
      ColumnCounts(times, values, anchors, cells, maxHold, n - 1);
      assert cells[..n][..n - 1] == cells[..n - 1];
      assert Age(times, values, anchors, n - 1) <= maxHold;
    }
  }

  /** What a reconstructed column of planted data promises. */
  ghost predicate Faithful(times: seq<int>, values: seq<real>, anchors: seq<int>, column: Column, maxHold: int) {
    && |column.cells| == |anchors| == |times| == |values|
    && column.sampled + column.held + column.missing == |anchors|
    && (forall c :: 0 <= c < |anchors| ==> CellFaithful(times, values, anchors, column.cells[c], maxHold, c))
    && (NeverTooOld(times, values, anchors, maxHold)
        ==> column.missing == 0 && column.held == |anchors| - |Dedup(times, values)|)
  }

  /** A cell is missing exactly if its row is too old, sampled exactly if the row survived, and right otherwise. */
  ghost predicate CellFaithful(times: seq<int>, values: seq<real>, anchors: seq<int>, cell: Cell, maxHold: int, c: nat)
    requires c < |values| == |times| == |anchors|
  {
    && (cell.Missing? <==> !Kept(values, c) && Age(times, values, anchors, c) > maxHold)
    && (cell.Sampled? <==> Kept(values, c))
    && (!cell.Missing? ==> cell.value == values[c])
  }

  ghost predicate NeverTooOld(times: seq<int>, values: seq<real>, anchors: seq<int>, maxHold: int)
    requires |values| == |times| == |anchors|
  {
    forall c :: 0 <= c < |anchors| ==> Age(times, values, anchors, c) <= maxHold
  }

  /** One anchor in every cycle, none later than a row the entity kept. */
  ghost predicate AnchorsFit(anchors: seq<int>, times: seq<int>, values: seq<real>, lo: seq<int>, spread: int) {
    && |anchors| == |lo| == |values| == |times|
    && (forall c :: 0 <= c < |anchors| ==> InCycle(lo, spread, c, anchors[c]))
    && (forall c :: 0 <= c < |anchors| && Kept(values, c) ==> anchors[c] <= times[c])
  }

  method Reconstruct(times: seq<int>, values: seq<real>, ghost lo: seq<int>, ghost spread: int,
                     anchors: seq<int>, epsilon: int, maxHold: int) returns (column: Column)
    requires Separated(lo, spread, epsilon) && InCycles(times, lo, spread) && |values| == |lo|
    requires AnchorsFit(anchors, times, values, lo, spread)
    ensures Faithful(times, values, anchors, column, maxHold)
  {
    DedupOrdered(times, values, lo, spread, epsilon);
    column := FillColumn(Dedup(times, values), anchors, epsilon, maxHold);
    ColumnRecovered(times, values, lo, spread, anchors, epsilon, maxHold, column.cells);
    RecoveredIsFaithful(times, values, lo, spread, anchors, maxHold, column.cells);
  }

  ghost predicate AllRecovered(times: seq<int>, values: seq<real>, anchors: seq<int>, cells: seq<Cell>, maxHold: int)
    requires |times| == |values| == |anchors| == |cells|
  {
    forall c :: 0 <= c < |cells| ==> cells[c] == Recovered(times, values, c, anchors[c], maxHold)
  }

  lemma ColumnRecovered(times: seq<int>, values: seq<real>, lo: seq<int>, spread: int, anchors: seq<int>, epsilon: int,
                        maxHold: int, cells: seq<Cell>)
    requires Separated(lo, spread, epsilon) && InCycles(times, lo, spread) && |values| == |lo|
    requires AnchorsFit(anchors, times, values, lo, spread)
    requires Ordered(Stamps(Dedup(times, values))) && |cells| == |anchors|
    requires forall c :: 0 <= c < |cells| ==> cells[c] == CellAt(Dedup(times, values), anchors[c], epsilon, maxHold)
    ensures AllRecovered(times, values, anchors, cells, maxHold)
  {
    forall c | 0 <= c < |anchors|
      ensures cells[c] == Recovered(times, values, c, anchors[c], maxHold)
    {
      CellIsPlanted(times, values, lo, spread, epsilon, maxHold, c, anchors[c]);
    }
  }

  lemma RecoveredIsFaithful(times: seq<int>, values: seq<real>, lo: seq<int>, spread: int, anchors: seq<int>,
                            maxHold: int, cells: seq<Cell>)
    requires AnchorsFit(anchors, times, values, lo, spread) && |cells| == |anchors|
    requires AllRecovered(times, values, anchors, cells, maxHold)
    ensures forall c :: 0 <= c < |anchors| ==> CellFaithful(times, values, anchors, cells[c], maxHold, c)
    ensures NeverTooOld(times, values, anchors, maxHold)
            ==> CountMissing(cells) == 0 && CountHeld(cells) == |anchors| - |Dedup(times, values)|
  {
    if NeverTooOld(times, values, anchors, maxHold) {
      ColumnCounts(times, values, anchors, cells, maxHold, |anchors|);
      assert cells[..|anchors|] == cells;
      DedupPrefix(times, values, 0);
    }
  }

  lemma PlantedAnchorsFit(p: Planted, epsilon: int, anchors: seq<int>)
    requires WellPlanted(p, epsilon) && anchors == Anchors(Sorted(AllStamps(p, |p.times|)), epsilon)
    ensures |anchors| == |p.lo|
    ensures forall e :: 0 <= e < |p.times| ==> AnchorsFit(anchors, p.times[e], p.values[e], p.lo, p.spread)
  {
    PlantedAnchors(p, epsilon);
    forall e: nat | e < |p.times|
      ensures AnchorsFit(anchors, p.times[e], p.values[e], p.lo, p.spread)
    {
      assert forall c: nat :: c < |anchors| && Kept(p.values[e], c) ==> KeptBy(p, e, c);
    }
  }

  /** Every two neighbouring cycles leave at least one and a half epsilon between them, whatever their stamps. */
  ghost predicate Spaced(lo: seq<int>, spread: int, epsilon: int) {
    forall c :: 0 <= c < |lo| - 1 ==> 2 * (lo[c + 1] - lo[c] - spread) >= 3 * epsilon
  }

  /** Some two neighbouring cycles begin so close that no stamps of them lie one and a half epsilon apart. */
  ghost predicate Crowded(lo: seq<int>, spread: int, epsilon: int) {
    exists c :: 0 <= c < |lo| - 1 && 2 * (lo[c + 1] + spread - lo[c]) < 3 * epsilon
  }

  lemma SpacingDecides(lo: seq<int>, spread: int, epsilon: int, anchors: seq<int>)
    requires |anchors| == |lo| && forall c :: 0 <= c < |anchors| ==> InCycle(lo, spread, c, anchors[c])
    ensures Spaced(lo, spread, epsilon) ==> !TooClose(anchors, epsilon)
    ensures Crowded(lo, spread, epsilon) ==> TooClose(anchors, epsilon)
  {
    forall c: nat | c < |anchors| - 1
      ensures lo[c + 1] - lo[c] - spread <= anchors[c + 1] - anchors[c]
    {
      assert InCycle(lo, spread, c, anchors[c]) && InCycle(lo, spread, c + 1, anchors[c + 1]);
    }
    if Crowded(lo, spread, epsilon) {
      var c :| 0 <= c < |lo| - 1 && 2 * (lo[c + 1] + spread - lo[c]) < 3 * epsilon;
      assert InCycle(lo, spread, c, anchors[c]) && InCycle(lo, spread, c + 1, anchors[c + 1]);
      assert CloseAt(anchors, c, epsilon);
    }
  }

  /**
   * The round trip. Dropping the unchanged rows of what was published and reconstructing the table
   * gives every published value back: one anchor per cycle, no cell missing, and as many cells held
   * as rows were dropped. The clustering refuses exactly when two anchors are nearer than one and a
   * half epsilon: never if that much time lies between any two cycles, always if it lies nowhere in two.
   */
  method ReconstructPlanted(p: Planted, epsilon: int, maxHold: int)
    returns (anchors: Option<seq<int>>, columns: seq<Column>)
    requires WellPlanted(p, epsilon)
    ensures anchors.None? <==> TooClose(Anchors(Sorted(AllStamps(p, |p.times|)), epsilon), epsilon)
    ensures Spaced(p.lo, p.spread, epsilon) ==> anchors.Some?
    ensures Crowded(p.lo, p.spread, epsilon) ==> anchors.None?
    ensures anchors.Some? ==> |anchors.value| == |p.lo| && |columns| == |p.times|
    ensures anchors.Some? ==> forall e :: 0 <= e < |columns|
                                ==> Faithful(p.times[e], p.values[e], anchors.value, columns[e], maxHold)
  {
    PlantedAnchors(p, epsilon);
    SpacingDecides(p.lo, p.spread, epsilon, Anchors(Sorted(AllStamps(p, |p.times|)), epsilon));
    columns := [];
    anchors := CycleAnchors(AllStamps(p, |p.times|), epsilon);
    if anchors.Some? {
      PlantedAnchorsFit(p, epsilon, anchors.value);
      columns := FillAll(p, anchors.value, epsilon, maxHold);
    }
  }

  method FillAll(p: Planted, anchors: seq<int>, epsilon: int, maxHold: int) returns (columns: seq<Column>)
    requires WellPlanted(p, epsilon)
    requires forall e :: 0 <= e < |p.times| ==> AnchorsFit(anchors, p.times[e], p.values[e], p.lo, p.spread)
    ensures |columns| == |p.times|
    ensures forall e :: 0 <= e < |columns| ==> Faithful(p.times[e], p.values[e], anchors, columns[e], maxHold)
  {
    columns := [];
    for e := 0 to |p.times|
      invariant |columns| == e
      invariant forall k :: 0 <= k < e ==> Faithful(p.times[k], p.values[k], anchors, columns[k], maxHold)
    {
      var column := Reconstruct(p.times[e], p.values[e], p.lo, p.spread, anchors, epsilon, maxHold);
      columns := columns + [column];
    }
  }
}
