/** What a reading order looks like: which spans share a line, how lines and runs follow each other, what the boxes are. */
module ReadingShape {
  import opened Basics
  import opened Sorting
  import opened ReadingOrder
  import opened ReadingLoops
  import opened MappedText

  // ---------------------------------------------------------------- boxes

  /** All of them lie within the box, and each of its sides is that of one of them. */
  predicate Tight(box: Box, gs: seq<Geometry>) {
    && (forall g :: g in gs ==> box.minX <= g.box.minX && box.minY <= g.box.minY && g.box.maxX <= box.maxX && g.box.maxY <= box.maxY)
    && (exists g :: g in gs && g.box.minX == box.minX) && (exists g :: g in gs && g.box.minY == box.minY)
    && (exists g :: g in gs && g.box.maxX == box.maxX) && (exists g :: g in gs && g.box.maxY == box.maxY)
  }

  lemma {:induction false} BoxIsTight(gs: seq<Geometry>)
    requires gs != []
    ensures Tight(BoxOfAll(gs), gs)
  {
    var k := |gs| - 1;
    assert gs == gs[..k] + [gs[k]];
    assert gs[k] in gs;
    if k > 0 {
      BoxIsTight(gs[..k]);
      assert forall g :: g in gs[..k] ==> g in gs;
    }
  }

  /** The box of a span holds its four corners, and each of its sides goes through one of them. */
  lemma CornersAreBoxed(p: Polygon)
    ensures var (b, corners) := (BoxOf(p), [p.p0, p.p1, p.p2, p.p3]);
            && (forall c :: c in corners ==> b.minX <= c.x <= b.maxX && b.minY <= c.y <= b.maxY)
            && (exists c :: c in corners && c.x == b.minX) && (exists c :: c in corners && c.x == b.maxX)
            && (exists c :: c in corners && c.y == b.minY) && (exists c :: c in corners && c.y == b.maxY)
  {
    var corners := [p.p0, p.p1, p.p2, p.p3];
    assert p.p0 in corners && p.p1 in corners && p.p2 in corners && p.p3 in corners;
    var b := BoxOf(p);
    hide BoxOf;
    assert p.p0.x == b.minX || p.p1.x == b.minX || p.p2.x == b.minX || p.p3.x == b.minX by { SidesAre(p); }
    assert p.p0.x == b.maxX || p.p1.x == b.maxX || p.p2.x == b.maxX || p.p3.x == b.maxX by { SidesAre(p); }
    assert p.p0.y == b.minY || p.p1.y == b.minY || p.p2.y == b.minY || p.p3.y == b.minY by { SidesAre(p); }
    assert p.p0.y == b.maxY || p.p1.y == b.maxY || p.p2.y == b.maxY || p.p3.y == b.maxY by { SidesAre(p); }
    forall c | c in corners ensures b.minX <= c.x <= b.maxX && b.minY <= c.y <= b.maxY { SidesAre(p); }
  }

  lemma SidesAre(p: Polygon)
    ensures var b := BoxOf(p);
            && (forall i :: 0 <= i < 4 ==> var c := [p.p0, p.p1, p.p2, p.p3][i]; b.minX <= c.x <= b.maxX && b.minY <= c.y <= b.maxY)
            && (p.p0.x == b.minX || p.p1.x == b.minX || p.p2.x == b.minX || p.p3.x == b.minX)
            && (p.p0.x == b.maxX || p.p1.x == b.maxX || p.p2.x == b.maxX || p.p3.x == b.maxX)
            && (p.p0.y == b.minY || p.p1.y == b.minY || p.p2.y == b.minY || p.p3.y == b.minY)
            && (p.p0.y == b.maxY || p.p1.y == b.maxY || p.p2.y == b.maxY || p.p3.y == b.maxY)
  {
  }

  /** A span has a geometry exactly when it extends further than a millionth both ways, and it is its box. */
  lemma GeometryIs(span: Span)
    ensures var b := BoxOf(span.polygon);
            GeometryOf(span)
            == if b.maxX - b.minX > 0.000001 && b.maxY - b.minY > 0.000001 then Some(Geometry(span, b)) else None
  {
    hide BoxOf;
  }

  // ---------------------------------------------------------------- sharing a line

  /** From 0 for boxes one above the other to 1 where one spans no more than the other; the same both ways. */
  lemma OverlapIs(a: Box, b: Box)
    requires Height(a) > 0.0 && Height(b) > 0.0
    ensures var r := VerticalOverlapRatio(a, b);
            && 0.0 <= r <= 1.0 && r == VerticalOverlapRatio(b, a)
            && (r == 0.0 <==> a.maxY <= b.minY || b.maxY <= a.minY)
            && (r == 1.0 <==> (a.minY <= b.minY && b.maxY <= a.maxY) || (b.minY <= a.minY && a.maxY <= b.maxY))
  {
    var overlap, least := Min(a.maxY, b.maxY) - Max(a.minY, b.minY), Min(Height(a), Height(b));
    if overlap > 0.0 {
      Quotient(overlap, least);
    }
  }

  lemma Quotient(x: real, y: real)
    requires 0.0 < x <= y
    ensures 0.0 < x / y <= 1.0 && (x / y == 1.0 <==> x == y)
  {
    assert x / y * y == x;
  }

  /** How far two spans' centres are apart. */
  function Apart(a: Geometry, b: Geometry): real {
    var d := (a.box.minY + a.box.maxY) / 2.0 - (b.box.minY + b.box.maxY) / 2.0;
    if d >= 0.0 then d else -d
  }

  /** The representative of a line for a span is the item whose centre is nearest, the leftmost of these. */
  lemma {:induction false} RepresentativeIs(g: Geometry, items: seq<Geometry>)
    requires items != []
    ensures var r := Representative(g, items);
            && r in items
            && forall x :: x in items ==>
                 Apart(r, g) < Apart(x, g) || (Apart(r, g) == Apart(x, g) && r.box.minX <= x.box.minX)
  {
    hide LexLess;
    var k := |items| - 1;
    assert items == items[..k] + [items[k]];
    if k > 0 {
      RepresentativeIs(g, items[..k]);
      LexBegins(RepresentativeKey(g, items[k]), RepresentativeKey(g, Representative(g, items[..k])));
    }
  }

  lemma LexBegins(a: seq<real>, b: seq<real>)
    requires |a| == |b| >= 2
    ensures LexLess(a, b) ==> a[0] < b[0] || (a[0] == b[0] && a[1] <= b[1])
    ensures !LexLess(a, b) ==> b[0] < a[0] || (a[0] == b[0] && b[1] <= a[1])
  {
    var (a', b') := (a[1..], b[1..]);
    assert a'[0] == a[1] && b'[0] == b[1];
    assert LexLess(a', b') <==> a'[0] < b'[0] || (a'[0] == b'[0] && LexLess(a'[1..], b'[1..]));
  }

  /** A span is on a line if it overlaps the representative enough, or its centre is near in absolute terms or for its height. */
  lemma SameLineIs(g: Geometry, items: seq<Geometry>)
    requires items != [] && HasExtent(g) && AllExtended(items)
    ensures var r := Representative(g, items);
            SameVisualLine(g, items) <==>
              || VerticalOverlapRatio(g.box, r.box) >= 0.35
              || Apart(g, r) <= 0.012 || Apart(g, r) <= 0.6 * (g.box.maxY - g.box.minY) || Apart(g, r) <= 0.6 * (r.box.maxY - r.box.minY)
  {
    hide VerticalOverlapRatio, Representative;
  }

  /** A run is cut where the gap is wide in absolute terms and for the height of either neighbour. */
  lemma SplitsIs(a: Geometry, b: Geometry)
    ensures var gap := b.box.minX - a.box.maxX;
            Splits(a, b) <==> gap > 0.055 && gap > 1.25 * (a.box.maxY - a.box.minY) && gap > 1.25 * (b.box.maxY - b.box.minY)
  {
  }

  /** Neighbouring lines are adjacent unless the gap is wide in absolute terms and for the height of either. */
  lemma AdjacentIs(reading: Reading, first: nat, second: nat)
    ensures Adjacent(reading, first, second) <==>
              && second == first + 1 && second < |reading.lines|
              && var a, b := reading.lines[first].box, reading.lines[second].box;
                 var gap := b.minY - a.maxY;
                 gap <= 0.08 || gap <= 1.5 * (a.maxY - a.minY) || gap <= 1.5 * (b.maxY - b.minY)
  {
  }

  /** Runs are near if their extents have more than a point in common or their left sides are close. */
  lemma NearIs(a: Run, b: Run)
    requires a.box.minX < a.box.maxX && b.box.minX < b.box.maxX
    ensures NearRuns(a, b) <==>
              || (a.box.minX < b.box.maxX && b.box.minX < a.box.maxX)
              || (a.box.minX <= b.box.minX + 0.18 && b.box.minX <= a.box.minX + 0.18)
  {
  }

  // ---------------------------------------------------------------- how spans come to share lines

  /** The order in which spans are placed: down the page by their centres, and left to right at one height. */
  function PlaceKey(g: Geometry): seq<real> {
    [(g.box.minY + g.box.maxY) / 2.0, g.box.minY, g.box.minX, g.box.maxY, g.box.maxX, g.span.id as real]
  }

  predicate Before(a: Geometry, b: Geometry) {
    LexLess(PlaceKey(a), PlaceKey(b))
  }

  /** Those placed before another. */
  function Earlier(group: seq<Geometry>, g: Geometry): seq<Geometry> {
    if group == [] then []
    else
      var k := |group| - 1;
      Earlier(group[..k], g) + (if Before(group[k], g) then [group[k]] else [])
  }

  predicate Fits(items: seq<Geometry>, g: Geometry) {
    items != [] && HasExtent(g) && AllExtended(items) && SameVisualLine(g, items)
  }

  /** The mean of the centres. */
  function Mean(items: seq<Geometry>): real {
    if items == [] then 0.0 else MeanCenter(items)
  }

  function Off(items: seq<Geometry>, g: Geometry): real {
    Abs(Mean(items) - (g.box.minY + g.box.maxY) / 2.0)
  }

  /**
   A span begins its line only if it fits no line there was before it, and otherwise has joined one that it fits, none
   of the others being nearer, and none begun earlier as near.
   */
  predicate JoinsWell(groups: seq<seq<Geometry>>, group: seq<Geometry>, g: Geometry) {
    var own := Earlier(group, g);
    if own == [] then forall other :: other in groups ==> !Fits(Earlier(other, g), g)
    else
      && Fits(own, g)
      && forall other :: other in groups && other != group && Fits(Earlier(other, g), g) ==>
           && Off(own, g) <= Off(Earlier(other, g), g)
           && (Off(own, g) == Off(Earlier(other, g), g) ==> BeginsBefore(group, other))
  }

  predicate BeginsBefore(a: seq<Geometry>, b: seq<Geometry>) {
    a != [] && b != [] && Before(a[0], b[0])
  }

  predicate AllJoinWell(groups: seq<seq<Geometry>>) {
    forall group, g :: group in groups && g in group ==> JoinsWell(groups, group, g)
  }

  predicate Descends(gs: seq<Geometry>) {
    forall i, j :: 0 <= i < j < |gs| ==> Before(gs[i], gs[j])
  }

  lemma KeysAgree(g: Geometry)
    ensures PlaceKey(g) == PageKey(g)
  {
  }

  lemma BeforeIsStrict(a: Geometry, b: Geometry, c: Geometry)
    ensures !Before(a, a) && !(Before(a, b) && Before(b, a))
    ensures Before(a, b) && Before(b, c) ==> Before(a, c)
  {
    hide LexLess;
    LexTotal(PlaceKey(a), PlaceKey(a));
    LexTotal(PlaceKey(a), PlaceKey(b));
    if Before(a, b) && Before(b, c) { LexTransitive(PlaceKey(a), PlaceKey(b), PlaceKey(c)); }
  }

  lemma {:induction false} EarlierIsAll(group: seq<Geometry>, g: Geometry)
    requires forall x :: x in group ==> Before(x, g)
    ensures Earlier(group, g) == group
  {
    if group != [] {
      var k := |group| - 1;
      EarlierIsAll(group[..k], g);
      assert group == group[..k] + [group[k]];
    }
  }

  lemma EarlierSkips(group: seq<Geometry>, x: Geometry, g: Geometry)
    requires !Before(x, g)
    ensures Earlier(group + [x], g) == Earlier(group, g)
  {
    assert (group + [x])[..|group|] == group;
  }

  /** The same for the line at an index. */
  predicate JoinsAt(groups: seq<seq<Geometry>>, i: nat, g: Geometry)
    requires i < |groups|
  {
    var own := Earlier(groups[i], g);
    if own == [] then forall j :: 0 <= j < |groups| ==> !Fits(Earlier(groups[j], g), g)
    else Fits(own, g) && forall j :: 0 <= j < |groups| && j != i ==> NoBetter(groups[i], groups[j], g)
  }

  predicate NoBetter(group: seq<Geometry>, other: seq<Geometry>, g: Geometry) {
    Fits(Earlier(other, g), g) ==>
      && Off(Earlier(group, g), g) <= Off(Earlier(other, g), g)
      && (Off(Earlier(group, g), g) == Off(Earlier(other, g), g) ==> BeginsBefore(group, other))
  }

  predicate AllJoinAt(groups: seq<seq<Geometry>>) {
    forall i, g :: 0 <= i < |groups| && g in groups[i] ==> JoinsAt(groups, i, g)
  }

  /** The lines after one more span: it begins one or joins one. */
  predicate OneMoreIn(groups: seq<seq<Geometry>>, x: Geometry, more: seq<seq<Geometry>>) {
    || more == groups + [[x]]
    || exists i :: 0 <= i < |groups| && more == groups[i := groups[i] + [x]]
  }

  /** What was there before a span does not change with it. */
  lemma EarlierStays(groups: seq<seq<Geometry>>, x: Geometry, more: seq<seq<Geometry>>, g: Geometry, j: nat)
    requires OneMoreIn(groups, x, more) && !Before(x, g) && j < |more|
    requires forall i :: 0 <= i < |groups| ==> groups[i] != []
    ensures Earlier(more[j], g) == if j < |groups| then Earlier(groups[j], g) else []
    ensures j < |groups| ==> more[j] != [] && groups[j] != [] && more[j][0] == groups[j][0]
  {
    hide Before;
    if j >= |groups| {
      EarlierSkips([], x, g);
      assert [] + [x] == [x] && more[j] == [x];
    } else if more[j] != groups[j] {
      assert more[j] == groups[j] + [x];
      EarlierSkips(groups[j], x, g);
    }
  }

  lemma OldJoinsStill(groups: seq<seq<Geometry>>, x: Geometry, more: seq<seq<Geometry>>, g: Geometry, i: nat)
    requires OneMoreIn(groups, x, more) && !Before(x, g) && i < |groups| <= |more| && JoinsAt(groups, i, g)
    requires forall j :: 0 <= j < |groups| ==> groups[j] != []
    ensures JoinsAt(more, i, g)
  {
    hide Fits, Before, OneMoreIn, Off, Earlier;
    forall j | 0 <= j < |more|
      ensures Earlier(more[j], g) == if j < |groups| then Earlier(groups[j], g) else []
      ensures j < |groups| ==> more[j] != [] && groups[j] != [] && more[j][0] == groups[j][0]
    {
      EarlierStays(groups, x, more, g, j);
    }
    NothingFits(g);
    if Earlier(groups[i], g) != [] {
      forall j | 0 <= j < |more| && j != i ensures NoBetter(more[i], more[j], g) {
        if j < |groups| { assert NoBetter(groups[i], groups[j], g); }
      }
    }
  }

  lemma SelectedIs(groups: seq<seq<Geometry>>, x: Geometry)
    requires ProperGroups(groups) && HasExtent(x)
    ensures var selected := SelectGroup(groups, x);
            && (selected.None? ==> forall j :: 0 <= j < |groups| ==> !Fits(groups[j], x))
            && (selected.Some? ==>
                  Fits(groups[selected.value], x)
                  && forall j :: 0 <= j < |groups| && Fits(groups[j], x) ==>
                       && Off(groups[selected.value], x) <= Off(groups[j], x)
                       && (j < selected.value ==> Off(groups[selected.value], x) < Off(groups[j], x)))
  {
    SelectGroupIsNearest(groups, x);
    hide SelectGroup, SameVisualLine, MeanCenter, HasExtent;
    var selected := SelectGroup(groups, x);
    if selected.Some? {
      var i := selected.value;
      assert Off(groups[i], x) == DistanceTo(groups[i], x);
      forall j | 0 <= j < |groups| && Fits(groups[j], x)
        ensures Off(groups[i], x) <= Off(groups[j], x) && (j < i ==> Off(groups[i], x) < Off(groups[j], x))
      {
        assert Off(groups[j], x) == DistanceTo(groups[j], x) && SameVisualLine(x, groups[j]);
      }
    }
  }

  predicate RisingLines(groups: seq<seq<Geometry>>) {
    && (forall i :: 0 <= i < |groups| ==> groups[i] != [] && Descends(groups[i]))
    && (forall i, j :: 0 <= i < j < |groups| ==> BeginsBefore(groups[i], groups[j]))
  }

  predicate AllBefore(groups: seq<seq<Geometry>>, x: Geometry) {
    forall i, k :: 0 <= i < |groups| && 0 <= k < |groups[i]| ==> Before(groups[i][k], x)
  }

  lemma NothingFits(g: Geometry)
    ensures !Fits([], g)
  {
    hide SameVisualLine;
  }

  /** What was there before the span placed last is all there was. */
  lemma EarlierThanLast(groups: seq<seq<Geometry>>, x: Geometry, more: seq<seq<Geometry>>)
    requires OneMoreIn(groups, x, more) && AllBefore(groups, x) && forall i :: 0 <= i < |groups| ==> groups[i] != []
    ensures forall j :: 0 <= j < |more| ==> Earlier(more[j], x) == if j < |groups| then groups[j] else []
  {
    hide Before, Earlier, OneMoreIn;
    BeforeIsStrict(x, x, x);
    forall j | 0 <= j < |more| ensures Earlier(more[j], x) == if j < |groups| then groups[j] else [] {
      EarlierStays(groups, x, more, x, j);
      if j < |groups| { EarlierIsAll(groups[j], x); }
    }
  }

  lemma NewJoins(groups: seq<seq<Geometry>>, x: Geometry, i: nat)
    requires ProperGroups(groups) && HasExtent(x) && RisingLines(groups) && AllBefore(groups, x)
    requires i == var selected := SelectGroup(groups, x); if selected.Some? then selected.value else |groups|
    ensures var more := Place(groups, x); OneMoreIn(groups, x, more) && i < |more| && |groups| <= |more| && JoinsAt(more, i, x)
  {
    hide Before, HasExtent, Earlier, Off, Fits, SelectGroup, Descends;
    SelectedIs(groups, x);
    var more := Place(groups, x);
    assert OneMoreIn(groups, x, more);
    EarlierThanLast(groups, x, more);
    NothingFits(x);
    if i < |groups| {
      assert more[i][0] == groups[i][0];
      forall j | 0 <= j < |more| && j != i ensures NoBetter(more[i], more[j], x) {
        assert more[j] == groups[j];
      }
    }
  }

  lemma LinesStillRise(groups: seq<seq<Geometry>>, x: Geometry, more: seq<seq<Geometry>>)
    requires RisingLines(groups) && AllBefore(groups, x) && OneMoreIn(groups, x, more)
    ensures RisingLines(more)
  {
    hide Before;
    forall j | 0 <= j < |more| ensures more[j] != [] && Descends(more[j]) {
      if j < |groups| && more[j] != groups[j] { assert more[j] == groups[j] + [x]; }
    }
  }

  lemma LineElements(groups: seq<seq<Geometry>>, x: Geometry, more: seq<seq<Geometry>>, j: nat, g: Geometry)
    requires OneMoreIn(groups, x, more) && j < |more| && g in more[j]
    ensures g == x || (j < |groups| && g in groups[j])
  {
  }

  lemma AllJoinStill(groups: seq<seq<Geometry>>, x: Geometry, gs: seq<Geometry>)
    requires ProperGroups(groups) && HasExtent(x) && RisingLines(groups) && AllBefore(groups, x) && AllJoinAt(groups)
    requires AllOf(groups, gs)
    ensures RisingLines(Place(groups, x)) && AllJoinAt(Place(groups, x)) && AllOf(Place(groups, x), gs + [x])
  {
    hide Before, HasExtent, JoinsAt, OneMoreIn, RisingLines, SelectGroup, Place;
    var more, selected := Place(groups, x), SelectGroup(groups, x);
    var at := if selected.Some? then selected.value else |groups|;
    NewJoins(groups, x, at);
    LinesStillRise(groups, x, more);
    forall i, g | 0 <= i < |more| && g in more[i] ensures g in gs + [x] && JoinsAt(more, i, g) {
      LineElements(groups, x, more, i, g);
      if i < |groups| && g in groups[i] {
        var m :| 0 <= m < |groups[i]| && groups[i][m] == g;
        BeforeIsStrict(g, x, g);
        OldStill(groups, x, more, g, i);
      } else {
        NotElsewhere(groups, x, at, i);
      }
    }
  }

  predicate AllOf(groups: seq<seq<Geometry>>, gs: seq<Geometry>) {
    forall i, g :: 0 <= i < |groups| && g in groups[i] ==> g in gs
  }

  lemma OldStill(groups: seq<seq<Geometry>>, x: Geometry, more: seq<seq<Geometry>>, g: Geometry, i: nat)
    requires RisingLines(groups) && AllJoinAt(groups) && OneMoreIn(groups, x, more) && |groups| <= |more|
    requires i < |groups| && g in groups[i] && !Before(x, g)
    ensures JoinsAt(more, i, g)
  {
    hide Before, OneMoreIn, Descends, BeginsBefore;
    assert JoinsAt(groups, i, g);
    OldJoinsStill(groups, x, more, g, i);
  }

  /** Placed down the page, spans come to share lines by that rule. */
  lemma {:induction false} GreedyLines(gs: seq<Geometry>)
    requires AllExtended(gs) && Descends(gs)
    ensures var groups := LineGroups(gs); RisingLines(groups) && AllJoinAt(groups) && AllOf(groups, gs)
  {
    hide Before, HasExtent, JoinsAt, RisingLines, Place;
    if gs != [] {
      var k := |gs| - 1;
      var before, x := LineGroups(gs[..k]), gs[k];
      GreedyLines(gs[..k]);
      assert gs == gs[..k] + [x];
      forall i, m | 0 <= i < |before| && 0 <= m < |before[i]| ensures Before(before[i][m], x) {
        assert before[i][m] in gs[..k];
        var n :| 0 <= n < k && gs[..k][n] == before[i][m];
      }
      AllJoinStill(before, x, gs[..k]);
    } else {
      NoLines();
    }
  }

  lemma NoLines()
    ensures RisingLines([]) && AllJoinAt([])
  {
  }

  lemma NotElsewhere(groups: seq<seq<Geometry>>, x: Geometry, at: nat, i: nat)
    requires ProperGroups(groups) && HasExtent(x) && AllBefore(groups, x) && i < |Place(groups, x)|
    requires at == var selected := SelectGroup(groups, x); if selected.Some? then selected.value else |groups|
    ensures i != at ==> i < |groups| && Place(groups, x)[i] == groups[i]
  {
  }

  // ---------------------------------------------------------------- the lines of a page

  /** The spans of a line in the order in which they were placed. */
  function Members(line: Line): seq<Geometry> {
    Sort(SpansOfRuns(line.runs), PlaceKey)
  }

  function MembersOf(lines: seq<Line>): (groups: seq<seq<Geometry>>)
    ensures |groups| == |lines| && forall i :: 0 <= i < |lines| ==> groups[i] == Members(lines[i])
  {
    seq(|lines|, i requires 0 <= i < |lines| => Members(lines[i]))
  }

  /** By the mean of its centres, then its top, then its left side. */
  predicate NoFurtherDown(a: Line, b: Line) {
    var (m, n) := (Mean(Members(a)), Mean(Members(b)));
    m < n || (m == n && (a.box.minY < b.box.minY || (a.box.minY == b.box.minY && a.box.minX <= b.box.minX)))
  }

  /** The runs of a line go from left to right, and so do their spans. */
  predicate GoesRight(line: Line) {
    var all := SpansOfRuns(line.runs);
    forall i, j :: 0 <= i < j < |all| ==> all[i].box.minX <= all[j].box.minX
  }

  predicate Boxed(line: Line) {
    Tight(line.box, Members(line)) && forall r :: r in line.runs ==> Tight(r.box, r.spans)
  }

  lemma PlacedOnce(spans: seq<Span>, g: Geometry)
    requires DistinctIds(spans)
    ensures multiset(Geometries(spans))[g] <= 1
  {
    GeometriesCount(spans, g);
    AtMostOnce(spans, g.span);
  }

  lemma PageDescends(spans: seq<Span>)
    requires DistinctIds(spans)
    ensures Descends(Sort(Geometries(spans), PageKey))
  {
    hide LexLess;
    var gs, sorted := Geometries(spans), Sort(Geometries(spans), PageKey);
    PageKeyIdentifies(spans);
    SortSorts(gs, PageKey, 6);
    SortMultiset(gs, PageKey);
    forall i, j | 0 <= i < j < |sorted| ensures Before(sorted[i], sorted[j]) {
      var (a, b) := (sorted[i], sorted[j]);
      KeysAgree(a);
      KeysAgree(b);
      LexTotal(PageKey(a), PageKey(b));
      assert a in multiset(gs) && b in multiset(gs);
      if PageKey(a) == PageKey(b) {
        SameKeySame(gs, a, b);
        PlacedOnce(spans, a);
        TwiceCounts(sorted, i, j);
      }
    }
  }

  lemma SameKeySame(gs: seq<Geometry>, a: Geometry, b: Geometry)
    requires KeyIdentifies(gs, PageKey) && a in gs && b in gs && PageKey(a) == PageKey(b)
    ensures a == b
  {
    hide PageKey;
  }

  lemma DescendingIsKeyed(group: seq<Geometry>)
    requires Descends(group)
    ensures Keyed(group, PlaceKey, 6) && KeyIdentifies(group, PlaceKey) && Sort(group, PlaceKey) == group
  {
    hide LexLess;
    forall i, j | 0 <= i < j < |group| ensures PlaceKey(group[i]) != PlaceKey(group[j]) {
      LexTotal(PlaceKey(group[i]), PlaceKey(group[j]));
      assert Before(group[i], group[j]);
    }
    forall i | 0 < i < |group| ensures !LexLess(PlaceKey(group[i]), PlaceKey(group[i - 1])) {
      assert Before(group[i - 1], group[i]);
      BeforeIsStrict(group[i - 1], group[i], group[i]);
    }
    SortedAlready(group, PlaceKey);
  }

  /** The members of a line are the group it was made of. */
  lemma MembersAre(index: nat, group: seq<Geometry>)
    requires group != [] && Descends(group)
    ensures Members(LineOf(index, group)) == group
  {
    hide PlaceKey, Descends, RunsForLine;
    RunsKeep(index, group);
    DescendingIsKeyed(group);
    SortIgnoresOrder(group, SpansOfRuns(RunsForLine(index, group)), PlaceKey, 6);
  }

  lemma LineIsBoxed(index: nat, group: seq<Geometry>)
    requires group != [] && Descends(group)
    ensures Boxed(LineOf(index, group)) && GoesRight(LineOf(index, group))
  {
    hide Tight, Descends, BoxOfAll, Sort, LexLess;
    MembersAre(index, group);
    BoxIsTight(group);
    var groups := RunGroups(Sort(group, RunKey));
    forall r | r in RunsForLine(index, group) ensures Tight(r.box, r.spans) {
      BoxIsTight(r.spans);
    }
    SortSorts(group, RunKey, 4);
    RunsCutExactlyAtGaps(index, group);
    var all := SpansOfRuns(RunsForLine(index, group));
    forall i, j | 0 <= i < j < |all| ensures all[i].box.minX <= all[j].box.minX {
      LexBegins(RunKey(all[j]), RunKey(all[i]));
    }
  }

  lemma JoinsByValue(groups: seq<seq<Geometry>>, i: nat, g: Geometry)
    requires i < |groups| && JoinsAt(groups, i, g)
    ensures JoinsWell(groups, groups[i], g)
  {
    hide Fits, Off, Earlier, BeginsBefore;
    forall other | other in groups && other != groups[i] && Earlier(groups[i], g) != [] && Fits(Earlier(other, g), g)
      ensures Off(Earlier(groups[i], g), g) <= Off(Earlier(other, g), g)
      ensures Off(Earlier(groups[i], g), g) == Off(Earlier(other, g), g) ==> BeginsBefore(groups[i], other)
    {
      var j :| 0 <= j < |groups| && groups[j] == other;
      assert NoBetter(groups[i], groups[j], g);
    }
  }

  lemma LinesFollow(groups: seq<seq<Geometry>>, i: nat, j: nat)
    requires SortedBy(groups, GroupKey) && i < j < |groups| && RisingGroup(groups[i]) && RisingGroup(groups[j])
    ensures NoFurtherDown(LineOf(i, groups[i]), LineOf(j, groups[j]))
  {
    hide LexLess, Descends, BoxOfAll, MeanCenter, RunsForLine, Members;
    MembersAre(i, groups[i]);
    MembersAre(j, groups[j]);
    var (a, b) := (GroupKey(groups[i]), GroupKey(groups[j]));
    LexBegins(b, a);
    assert !LexLess(b, a);
    if a[0] == b[0] && a[1] == b[1] {
      LexThird(b, a);
    }
  }

  predicate RisingGroup(group: seq<Geometry>) {
    group != [] && Descends(group)
  }

  lemma LexThird(a: seq<real>, b: seq<real>)
    requires |a| == |b| == 3 && a[0] == b[0] && a[1] == b[1] && !LexLess(a, b)
    ensures b[2] <= a[2]
  {
    var (a', b') := (a[1..], b[1..]);
    assert a'[1..][0] == a[2] && b'[1..][0] == b[2];
    assert LexLess(a', b') <==> LexLess(a'[1..], b'[1..]);
  }

  /**
   The reading order of a page of distinct spans: its spans, placed down the page, have come to share lines by the
   rule of the nearest fitting line; lines follow down the page by their mean; the spans of a line go right; and the
   boxes of lines and runs are exact.
   */
  lemma ReadingIs(spans: seq<Span>)
    requires DistinctIds(spans)
    ensures var lines := Reconstruct(spans).lines;
            && (forall i, g :: 0 <= i < |lines| && g in Members(lines[i]) ==> JoinsWell(MembersOf(lines), Members(lines[i]), g))
            && (forall i, j :: 0 <= i < j < |lines| ==> NoFurtherDown(lines[i], lines[j]))
            && forall i :: 0 <= i < |lines| ==> Boxed(lines[i]) && GoesRight(lines[i])
  {
    hide LineOf, JoinsWell, JoinsAt, GroupKey, PageKey, Boxed, GoesRight, Members, NoFurtherDown, LineGroups, Descends, AllExtended;
    var gs := Geometries(spans);
    GeometriesExtend(spans);
    SortExtends(gs, PageKey);
    PageDescends(spans);
    var placed := Sort(gs, PageKey);
    var groups := LineGroups(placed);
    GreedyLines(placed);
    var sorted, lines := Sort(groups, GroupKey), Reconstruct(spans).lines;
    SortProper(groups, GroupKey);
    assert lines == LinesOf(sorted);
    SortedLines(groups, sorted);
    forall i | 0 <= i < |lines| ensures Boxed(lines[i]) && GoesRight(lines[i]) && Members(lines[i]) == sorted[i] {
      assert sorted[i] in sorted;
      LineIsBoxed(i, sorted[i]);
      MembersAre(i, sorted[i]);
    }
    assert MembersOf(lines) == sorted;
    forall i, j | 0 <= i < j < |lines| ensures NoFurtherDown(lines[i], lines[j]) {
      LinesFollow(sorted, i, j);
    }
  }

  lemma SortedLines(groups: seq<seq<Geometry>>, sorted: seq<seq<Geometry>>)
    requires RisingLines(groups) && AllJoinAt(groups) && sorted == Sort(groups, GroupKey)
    ensures SortedBy(sorted, GroupKey) && forall i :: 0 <= i < |sorted| ==> RisingGroup(sorted[i])
    ensures forall i, g :: 0 <= i < |sorted| && g in sorted[i] ==> JoinsWell(sorted, sorted[i], g)
  {
    hide Sort, LexLess, JoinsAt, Descends, MeanCenter, BoxOfAll, BeginsBefore, JoinsWell;
    SortMultiset(groups, GroupKey);
    SortSorts(groups, GroupKey, 3);
    forall group: seq<Geometry> | true ensures group in sorted <==> group in groups {
      assert group in multiset(sorted) <==> group in multiset(groups);
    }
    forall i, g | 0 <= i < |sorted| && g in sorted[i] ensures JoinsWell(sorted, sorted[i], g) {
      assert sorted[i] in groups;
      var k :| 0 <= k < |groups| && groups[k] == sorted[i];
      JoinsByValue(groups, k, g);
      SameLines(groups, sorted, sorted[i], g);
    }
    forall i | 0 <= i < |sorted| ensures RisingGroup(sorted[i]) {
      assert sorted[i] in groups;
    }
  }

  lemma SameLines(groups: seq<seq<Geometry>>, sorted: seq<seq<Geometry>>, group: seq<Geometry>, g: Geometry)
    requires JoinsWell(groups, group, g) && forall x :: x in sorted ==> x in groups
    ensures JoinsWell(sorted, group, g)
  {
    hide Fits, Off, Earlier, BeginsBefore;
  }

  function LeftOffset(a: Run, b: Run): real {
    if a.box.minX >= b.box.minX then a.box.minX - b.box.minX else b.box.minX - a.box.minX
  }

  /** The related runs of a run come by how near their left sides are to its own. */
  lemma RelatedNearestFirst(reading: Reading, source: Run, target: int)
    ensures var related := RelatedRuns(reading, source, target);
            forall i, j :: 0 <= i < j < |related| ==> LeftOffset(related[i], source) <= LeftOffset(related[j], source)
  {
    hide LexLess, NearOf;
    var related := RelatedRuns(reading, source, target);
    if related != [] {
      var near := NearOf(source, reading.lines[target].runs);
      SortSorts(near, RelatedKey(source), 3);
      forall i, j | 0 <= i < j < |related| ensures LeftOffset(related[i], source) <= LeftOffset(related[j], source) {
        LexBegins(RelatedKey(source)(related[j]), RelatedKey(source)(related[i]));
      }
    }
  }
}
