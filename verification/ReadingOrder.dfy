/** Reading order of OCR spans: visual lines, bounded horizontal runs, and forward paths of related runs. */
module ReadingOrder {
  import opened Basics
  import opened Sorting

  const MIN_GEOMETRY_EXTENT: real := 0.000001
  const SAME_LINE_MIN_VERTICAL_OVERLAP_RATIO: real := 0.35
  const SAME_LINE_MAX_CENTER_OFFSET: real := 0.012
  const MAX_LOCAL_HORIZONTAL_GAP: real := 0.055
  const MAX_ADJACENT_LINE_GAP: real := 0.080
  const MAX_ADJACENT_LEFT_OFFSET: real := 0.180
  const MAX_FORWARD_RUN_PATHS: nat := 16

  datatype Point = Point(x: real, y: real)

  /** Four corners in order. */
  datatype Polygon = Polygon(p0: Point, p1: Point, p2: Point, p3: Point)

  datatype Span = Span(id: nat, polygon: Polygon, text: string, score: Option<real>)

  /** The bounding box of a span or of several. */
  datatype Box = Box(minX: real, minY: real, maxX: real, maxY: real)

  datatype Geometry = Geometry(span: Span, box: Box)

  function Min(a: real, b: real): real {
    if a <= b then a else b
  }

  function Max(a: real, b: real): real {
    if a >= b then a else b
  }

  function Abs(a: real): real {
    if a >= 0.0 then a else -a
  }

  function BoxOf(p: Polygon): Box {
    Box(Min(Min(p.p0.x, p.p1.x), Min(p.p2.x, p.p3.x)), Min(Min(p.p0.y, p.p1.y), Min(p.p2.y, p.p3.y)),
        Max(Max(p.p0.x, p.p1.x), Max(p.p2.x, p.p3.x)), Max(Max(p.p0.y, p.p1.y), Max(p.p2.y, p.p3.y)))
  }

  /** The smallest box around two boxes. */
  function Join(a: Box, b: Box): Box {
    Box(Min(a.minX, b.minX), Min(a.minY, b.minY), Max(a.maxX, b.maxX), Max(a.maxY, b.maxY))
  }

  function Height(b: Box): real {
    b.maxY - b.minY
  }

  function Width(b: Box): real {
    b.maxX - b.minX
  }

  function CenterX(b: Box): real {
    (b.minX + b.maxX) / 2.0
  }

  function CenterY(b: Box): real {
    (b.minY + b.maxY) / 2.0
  }

  /** A span without extent has no geometry. */
  function GeometryOf(span: Span): Option<Geometry> {
    var box := BoxOf(span.polygon);
    if Width(box) <= MIN_GEOMETRY_EXTENT || Height(box) <= MIN_GEOMETRY_EXTENT then None
    else Some(Geometry(span, box))
  }

  function Geometries(spans: seq<Span>): seq<Geometry> {
    if spans == [] then []
    else
      var g := GeometryOf(spans[|spans| - 1]);
      Geometries(spans[..|spans| - 1]) + (if g.Some? then [g.value] else [])
  }

  // ---------------------------------------------------------------- lines

  function VerticalOverlapRatio(a: Box, b: Box): real
    requires Height(a) > 0.0 && Height(b) > 0.0
  {
    var overlap := Min(a.maxY, b.maxY) - Max(a.minY, b.minY);
    if overlap <= 0.0 then 0.0 else overlap / Min(Height(a), Height(b))
  }

  /** A geometry of positive extent; every geometry of a span has it. */
  predicate HasExtent(g: Geometry) {
    Height(g.box) > 0.0 && Width(g.box) > 0.0
  }

  predicate AllExtended(gs: seq<Geometry>) {
    forall i :: 0 <= i < |gs| ==> HasExtent(gs[i])
  }

  function RepresentativeKey(g: Geometry, item: Geometry): seq<real> {
    [Abs(CenterY(item.box) - CenterY(g.box)), item.box.minX, item.span.id as real]
  }

  /** The item of a line whose centre is nearest. */
  function Representative(g: Geometry, items: seq<Geometry>): (r: Geometry)
    requires items != []
    ensures r in items
  {
    var last := items[|items| - 1];
    if |items| == 1 then last
    else
      var before := Representative(g, items[..|items| - 1]);
      if LexLess(RepresentativeKey(g, last), RepresentativeKey(g, before)) then last else before
  }

  predicate SameVisualLine(g: Geometry, items: seq<Geometry>)
    requires items != [] && HasExtent(g) && AllExtended(items)
  {
    var r := Representative(g, items);
    || VerticalOverlapRatio(g.box, r.box) >= SAME_LINE_MIN_VERTICAL_OVERLAP_RATIO
    || Abs(CenterY(g.box) - CenterY(r.box)) <= Max(SAME_LINE_MAX_CENTER_OFFSET, 0.60 * Max(Height(g.box), Height(r.box)))
  }

  function SumOfCenters(items: seq<Geometry>): real {
    if items == [] then 0.0 else SumOfCenters(items[..|items| - 1]) + CenterY(items[|items| - 1].box)
  }

  function MeanCenter(items: seq<Geometry>): real
    requires items != []
  {
    SumOfCenters(items) / (|items| as real)
  }

  /** Groups of geometries, none of them empty. */
  predicate ProperGroups(groups: seq<seq<Geometry>>) {
    forall i :: 0 <= i < |groups| ==> groups[i] != [] && AllExtended(groups[i])
  }

  /** The group a geometry joins: of those on its visual line, the one with the nearest mean centre, first on a tie. */
  function SelectGroup(groups: seq<seq<Geometry>>, g: Geometry): (i: Option<nat>)
    requires ProperGroups(groups) && HasExtent(g)
    ensures i.Some? ==> i.value < |groups| && SameVisualLine(g, groups[i.value])
  {
    if groups == [] then None
    else
      var k := |groups| - 1;
      var before := SelectGroup(groups[..k], g);
      if !SameVisualLine(g, groups[k]) then before
      else if before.None? then Some(k)
      else if Abs(MeanCenter(groups[k]) - CenterY(g.box)) < Abs(MeanCenter(groups[before.value]) - CenterY(g.box)) then Some(k)
      else before
  }

  /** How far a group's mean centre is from a geometry. */
  function DistanceTo(group: seq<Geometry>, g: Geometry): real
    requires group != []
  {
    Abs(MeanCenter(group) - CenterY(g.box))
  }

  /** A group is selected exactly when some group fits; none that fits is nearer, and none before it is as near. */
  lemma {:induction false} SelectGroupIsNearest(groups: seq<seq<Geometry>>, g: Geometry)
    requires ProperGroups(groups) && HasExtent(g)
    ensures SelectGroup(groups, g).Some? <==> exists i :: 0 <= i < |groups| && SameVisualLine(g, groups[i])
    ensures var selected := SelectGroup(groups, g);
            selected.Some? ==> forall i :: 0 <= i < |groups| && SameVisualLine(g, groups[i]) ==>
              && DistanceTo(groups[selected.value], g) <= DistanceTo(groups[i], g)
              && (i < selected.value ==> DistanceTo(groups[selected.value], g) < DistanceTo(groups[i], g))
  {
    hide SameVisualLine, MeanCenter;
    if groups != [] {
      SelectGroupIsNearest(groups[..|groups| - 1], g);
      assert forall i :: 0 <= i < |groups| - 1 ==> groups[..|groups| - 1][i] == groups[i];
    }
  }

  function Place(groups: seq<seq<Geometry>>, g: Geometry): (r: seq<seq<Geometry>>)
    requires ProperGroups(groups) && HasExtent(g)
    ensures ProperGroups(r)
  {
    var i := SelectGroup(groups, g);
    if i.None? then groups + [[g]] else groups[i.value := groups[i.value] + [g]]
  }

  function LineGroups(gs: seq<Geometry>): (groups: seq<seq<Geometry>>)
    requires AllExtended(gs)
    ensures ProperGroups(groups)
  {
    if gs == [] then [] else Place(LineGroups(gs[..|gs| - 1]), gs[|gs| - 1])
  }

  // ---------------------------------------------------------------- runs

  datatype Run = Run(lineIndex: nat, spans: seq<Geometry>, box: Box)

  datatype Line = Line(lineIndex: nat, runs: seq<Run>, box: Box)

  datatype Reading = Reading(lines: seq<Line>)

  function BoxOfAll(gs: seq<Geometry>): Box
    requires gs != []
  {
    if |gs| == 1 then gs[0].box else Join(BoxOfAll(gs[..|gs| - 1]), gs[|gs| - 1].box)
  }

  /** Whether two neighbours in a line are too far apart for one run. */
  predicate Splits(previous: Geometry, g: Geometry) {
    g.box.minX - previous.box.maxX > Max(MAX_LOCAL_HORIZONTAL_GAP, 1.25 * Max(Height(previous.box), Height(g.box)))
  }

  function RunGroups(ordered: seq<Geometry>): (groups: seq<seq<Geometry>>)
    ensures forall i :: 0 <= i < |groups| ==> groups[i] != []
    ensures groups == [] <==> ordered == []
    ensures groups != [] ==> groups[|groups| - 1][|groups[|groups| - 1]| - 1] == ordered[|ordered| - 1]
  {
    if ordered == [] then []
    else
      var groups, g := RunGroups(ordered[..|ordered| - 1]), ordered[|ordered| - 1];
      if groups == [] then [[g]]
      else
        var k := |groups| - 1;
        if Splits(groups[k][|groups[k]| - 1], g) then groups + [[g]] else groups[k := groups[k] + [g]]
  }

  function RunKey(g: Geometry): seq<real> {
    [g.box.minX, CenterY(g.box), g.box.maxX, g.span.id as real]
  }

  function RunsForLine(lineIndex: nat, gs: seq<Geometry>): seq<Run> {
    var groups := RunGroups(Sort(gs, RunKey));
    seq(|groups|, i requires 0 <= i < |groups| && groups[i] != [] => Run(lineIndex, groups[i], BoxOfAll(groups[i])))
  }

  function PageKey(g: Geometry): seq<real> {
    [CenterY(g.box), g.box.minY, g.box.minX, g.box.maxY, g.box.maxX, g.span.id as real]
  }

  function GroupKey(group: seq<Geometry>): seq<real> {
    if group == [] then [] else [MeanCenter(group), BoxOfAll(group).minY, BoxOfAll(group).minX]
  }

  function LineOf(index: nat, group: seq<Geometry>): Line
    requires group != []
  {
    Line(index, RunsForLine(index, group), BoxOfAll(group))
  }

  function LinesOf(groups: seq<seq<Geometry>>): (lines: seq<Line>)
    requires forall i :: 0 <= i < |groups| ==> groups[i] != []
    ensures |lines| == |groups| && forall i :: 0 <= i < |lines| ==> lines[i] == LineOf(i, groups[i])
  {
    seq(|groups|, i requires 0 <= i < |groups| && groups[i] != [] => LineOf(i, groups[i]))
  }

  lemma {:induction false} GeometriesExtend(spans: seq<Span>)
    ensures AllExtended(Geometries(spans))
  {
    if spans != [] {
      GeometriesExtend(spans[..|spans| - 1]);
    }
  }

  lemma SortExtends(gs: seq<Geometry>, key: Geometry -> seq<real>)
    requires AllExtended(gs)
    ensures AllExtended(Sort(gs, key))
  {
    SortMultiset(gs, key);
    forall i | 0 <= i < |Sort(gs, key)| ensures HasExtent(Sort(gs, key)[i]) {
      assert Sort(gs, key)[i] in multiset(gs);
    }
  }

  lemma SortProper(groups: seq<seq<Geometry>>, key: seq<Geometry> -> seq<real>)
    requires ProperGroups(groups)
    ensures ProperGroups(Sort(groups, key))
  {
    SortMultiset(groups, key);
    forall i | 0 <= i < |Sort(groups, key)| ensures Sort(groups, key)[i] != [] && AllExtended(Sort(groups, key)[i]) {
      assert Sort(groups, key)[i] in multiset(groups);
    }
  }

  /** The reading order of a page. */
  function Reconstruct(spans: seq<Span>): Reading {
    var gs := Geometries(spans);
    GeometriesExtend(spans);
    SortExtends(gs, PageKey);
    var groups := LineGroups(Sort(gs, PageKey));
    SortProper(groups, GroupKey);
    Reading(LinesOf(Sort(groups, GroupKey)))
  }

  // ---------------------------------------------------------------- the order of the input does not matter

  predicate DistinctIds(spans: seq<Span>) {
    forall i, j :: 0 <= i < j < |spans| ==> spans[i].id != spans[j].id
  }

  lemma {:induction false} GeometriesCount(spans: seq<Span>, g: Geometry)
    ensures multiset(Geometries(spans))[g] == if GeometryOf(g.span) == Some(g) then multiset(spans)[g.span] else 0
  {
    hide GeometryOf;
    if spans != [] {
      var init, last := spans[..|spans| - 1], spans[|spans| - 1];
      GeometriesCount(init, g);
      assert spans == init + [last];
      GeometryKeepsSpan(last);
      var o := GeometryOf(last);
      assert Geometries(spans) == Geometries(init) + (if o.Some? then [o.value] else []);
      hide Geometries;
      OneMore(init, last, g.span);
      if o.Some? { OneMore(Geometries(init), o.value, g); }
    }
  }

  lemma OneMore<T>(s: seq<T>, x: T, y: T)
    ensures multiset(s + [x])[y] == multiset(s)[y] + if x == y then 1 else 0
  {
  }

  lemma GeometryKeepsSpan(span: Span)
    ensures GeometryOf(span).Some? ==> GeometryOf(span).value.span == span
  {
  }

  lemma GeometriesPermute(a: seq<Span>, b: seq<Span>)
    requires multiset(a) == multiset(b)
    ensures multiset(Geometries(a)) == multiset(Geometries(b))
  {
    forall g | true ensures multiset(Geometries(a))[g] == multiset(Geometries(b))[g] {
      GeometriesCount(a, g);
      GeometriesCount(b, g);
    }
  }

  lemma PageKeyIdentifies(spans: seq<Span>)
    requires DistinctIds(spans)
    ensures Keyed(Geometries(spans), PageKey, 6) && KeyIdentifies(Geometries(spans), PageKey)
  {
    var gs := Geometries(spans);
    forall i, j | 0 <= i < |gs| && 0 <= j < |gs| && PageKey(gs[i]) == PageKey(gs[j]) ensures gs[i] == gs[j] {
      assert PageKey(gs[i])[5] == PageKey(gs[j])[5];
      FromSpan(spans, i);
      FromSpan(spans, j);
    }
  }

  /** Every geometry comes from a span of the page. */
  lemma FromSpan(spans: seq<Span>, i: nat)
    requires i < |Geometries(spans)|
    ensures Geometries(spans)[i].span in spans && GeometryOf(Geometries(spans)[i].span) == Some(Geometries(spans)[i])
  {
    var g := Geometries(spans)[i];
    GeometriesCount(spans, g);
    assert multiset(Geometries(spans))[g] > 0;
    assert g.span in multiset(spans);
  }

  /** The reading order is the same for every order of spans with distinct IDs. */
  lemma ReadingIgnoresSpanOrder(a: seq<Span>, b: seq<Span>)
    requires multiset(a) == multiset(b) && DistinctIds(a)
    ensures Reconstruct(a) == Reconstruct(b)
  {
    GeometriesPermute(a, b);
    PageKeyIdentifies(a);
    SortIgnoresOrder(Geometries(a), Geometries(b), PageKey, 6);
  }

  // ---------------------------------------------------------------- each span lands in one run of one line

  function Flat<T>(ss: seq<seq<T>>): seq<T> {
    if ss == [] then [] else Flat(ss[..|ss| - 1]) + ss[|ss| - 1]
  }

  function SpansOfRuns(runs: seq<Run>): seq<Geometry> {
    if runs == [] then [] else SpansOfRuns(runs[..|runs| - 1]) + runs[|runs| - 1].spans
  }

  function SpansOfLines(lines: seq<Line>): seq<Geometry> {
    if lines == [] then [] else SpansOfLines(lines[..|lines| - 1]) + SpansOfRuns(lines[|lines| - 1].runs)
  }

  lemma {:induction false} FlatUpdate<T>(ss: seq<seq<T>>, i: nat, x: T)
    requires i < |ss|
    ensures multiset(Flat(ss[i := ss[i] + [x]])) == multiset(Flat(ss)) + multiset{x}
  {
    var k := |ss| - 1;
    if i == k {
      assert ss[i := ss[i] + [x]][..k] == ss[..k];
    } else {
      FlatUpdate(ss[..k], i, x);
      assert ss[i := ss[i] + [x]][..k] == ss[..k][i := ss[i] + [x]];
    }
  }

  lemma {:induction false} FlatPermutes<T>(a: seq<seq<T>>, b: seq<seq<T>>)
    requires multiset(a) == multiset(b)
    ensures multiset(Flat(a)) == multiset(Flat(b))
    decreases |a|
  {
    assert |a| == |multiset(a)| == |multiset(b)| == |b|;
    if a != [] {
      var k := |a| - 1;
      assert a[k] in multiset(b);
      var i :| 0 <= i < |b| && b[i] == a[k];
      var rest := b[..i] + b[i + 1..];
      RemoveOne(b, i);
      RemoveOne(a, k);
      assert a[..k] + a[k + 1..] == a[..k];
      FlatRemove(b, i);
      hide Flat;
      FlatPermutes(a[..k], rest);
      FlatLast(a);
    }
  }

  lemma FlatLast<T>(a: seq<seq<T>>)
    requires a != []
    ensures multiset(Flat(a)) == multiset(Flat(a[..|a| - 1])) + multiset(a[|a| - 1])
  {
  }

  lemma RemoveOne<T>(b: seq<T>, i: nat)
    requires i < |b|
    ensures multiset(b[..i] + b[i + 1..]) == multiset(b) - multiset{b[i]}
  {
    assert b == b[..i] + [b[i]] + b[i + 1..];
  }

  lemma {:induction false} FlatRemove<T>(b: seq<seq<T>>, i: nat)
    requires i < |b|
    ensures multiset(Flat(b)) == multiset(Flat(b[..i] + b[i + 1..])) + multiset(b[i])
    decreases |b|
  {
    hide Flat;
    var k, rest := |b| - 1, b[..i] + b[i + 1..];
    FlatLast(b);
    if i == k {
      assert rest == b[..k];
    } else {
      FlatRemove(b[..k], i);
      FlatLast(rest);
      assert rest[..|rest| - 1] == b[..k][..i] + b[..k][i + 1..] && rest[|rest| - 1] == b[k];
    }
  }

  lemma {:induction false} LineGroupsKeep(gs: seq<Geometry>)
    requires AllExtended(gs)
    ensures multiset(Flat(LineGroups(gs))) == multiset(gs)
  {
    if gs != [] {
      var init, g := gs[..|gs| - 1], gs[|gs| - 1];
      LineGroupsKeep(init);
      assert gs == init + [g];
      var groups := LineGroups(init);
      var i := SelectGroup(groups, g);
      if i.Some? {
        FlatUpdate(groups, i.value, g);
      } else {
        assert (groups + [[g]])[..|groups|] == groups;
      }
    }
  }

  lemma {:induction false} RunGroupsKeep(gs: seq<Geometry>)
    ensures Flat(RunGroups(gs)) == gs
  {
    if gs != [] {
      var init, g := gs[..|gs| - 1], gs[|gs| - 1];
      RunGroupsKeep(init);
      assert gs == init + [g];
      var groups := RunGroups(init);
      if groups == [] {
        assert Flat([[g]]) == Flat<Geometry>([]) + [g];
      } else {
        var k := |groups| - 1;
        assert (groups + [[g]])[..k + 1] == groups;
        assert groups[k := groups[k] + [g]][..k] == groups[..k];
      }
    }
  }

  lemma {:induction false} SpansOfRunsAre(groups: seq<seq<Geometry>>, runs: seq<Run>)
    requires |runs| == |groups| && forall i :: 0 <= i < |runs| ==> runs[i].spans == groups[i]
    ensures SpansOfRuns(runs) == Flat(groups)
    decreases |runs|
  {
    if runs != [] {
      SpansOfRunsAre(groups[..|groups| - 1], runs[..|runs| - 1]);
    }
  }

  lemma RunsKeep(lineIndex: nat, gs: seq<Geometry>)
    ensures multiset(SpansOfRuns(RunsForLine(lineIndex, gs))) == multiset(gs)
  {
    var groups := RunGroups(Sort(gs, RunKey));
    SpansOfRunsAre(groups, RunsForLine(lineIndex, gs));
    RunGroupsKeep(Sort(gs, RunKey));
    SortMultiset(gs, RunKey);
  }

  lemma {:induction false} LinesKeep(groups: seq<seq<Geometry>>)
    requires forall i :: 0 <= i < |groups| ==> groups[i] != []
    ensures multiset(SpansOfLines(LinesOf(groups))) == multiset(Flat(groups))
  {
    if groups != [] {
      LinesKeep(groups[..|groups| - 1]);
      RunsKeep(|groups| - 1, groups[|groups| - 1]);
      assert LinesOf(groups)[..|groups| - 1] == LinesOf(groups[..|groups| - 1]);
    }
  }

  /**
   The runs of all lines together hold exactly the spans of non-degenerate extent, each as often as the
   page has it: with distinct IDs, each in exactly one run of exactly one line, and no other span anywhere.
   */
  lemma ReadingHoldsEachSpanOnce(spans: seq<Span>)
    ensures multiset(SpansOfLines(Reconstruct(spans).lines)) == multiset(Geometries(spans))
  {
    var gs := Geometries(spans);
    GeometriesExtend(spans);
    SortExtends(gs, PageKey);
    var groups := LineGroups(Sort(gs, PageKey));
    SortProper(groups, GroupKey);
    LinesKeep(Sort(groups, GroupKey));
    SortMultiset(groups, GroupKey);
    FlatPermutes(Sort(groups, GroupKey), groups);
    LineGroupsKeep(Sort(gs, PageKey));
    SortMultiset(gs, PageKey);
  }

  // ---------------------------------------------------------------- the shape of runs

  /** No neighbours in the group are too far apart. */
  predicate Unsplit(group: seq<Geometry>) {
    group != [] && forall j :: 0 < j < |group| ==> !Splits(group[j - 1], group[j])
  }

  predicate SplitBetween(first: seq<Geometry>, second: seq<Geometry>) {
    first != [] && second != [] && Splits(first[|first| - 1], second[0])
  }

  /** Inside a run no neighbours are too far apart; between neighbouring runs they are. */
  predicate WellSplit(groups: seq<seq<Geometry>>) {
    && (forall i :: 0 <= i < |groups| ==> Unsplit(groups[i]))
    && (forall i :: 0 < i < |groups| ==> SplitBetween(groups[i - 1], groups[i]))
  }

  lemma {:induction false} RunGroupsSplitWell(ordered: seq<Geometry>)
    ensures WellSplit(RunGroups(ordered))
  {
    if ordered != [] {
      var groups, g := RunGroups(ordered[..|ordered| - 1]), ordered[|ordered| - 1];
      RunGroupsSplitWell(ordered[..|ordered| - 1]);
      if groups == [] {
        assert WellSplit([[g]]);
      } else if Splits(groups[|groups| - 1][|groups[|groups| - 1]| - 1], g) {
        SplitOff(groups, g);
      } else {
        JoinLast(groups, g);
      }
      hide Splits, WellSplit;
    }
  }

  lemma SplitOff(groups: seq<seq<Geometry>>, g: Geometry)
    requires WellSplit(groups) && groups != [] && groups[|groups| - 1] != []
    requires Splits(groups[|groups| - 1][|groups[|groups| - 1]| - 1], g)
    ensures WellSplit(groups + [[g]])
  {
    assert Unsplit([g]) && SplitBetween(groups[|groups| - 1], [g]);
    hide Unsplit, SplitBetween;
  }

  lemma JoinLast(groups: seq<seq<Geometry>>, g: Geometry)
    requires WellSplit(groups) && groups != [] && groups[|groups| - 1] != []
    requires !Splits(groups[|groups| - 1][|groups[|groups| - 1]| - 1], g)
    ensures var k := |groups| - 1; WellSplit(groups[k := groups[k] + [g]])
  {
    var k := |groups| - 1;
    var last := groups[k] + [g];
    assert Unsplit(last) by { hide Splits, SplitBetween; }
    assert k > 0 ==> SplitBetween(groups[k - 1], last) by { hide Splits, Unsplit; }
    hide Unsplit, SplitBetween;
  }

  /** The runs of a line are its spans by position, cut exactly where neighbours are too far apart. */
  lemma RunsCutExactlyAtGaps(lineIndex: nat, gs: seq<Geometry>)
    ensures var runs := RunsForLine(lineIndex, gs);
            && SpansOfRuns(runs) == Sort(gs, RunKey)
            && WellSplit(seq(|runs|, i requires 0 <= i < |runs| => runs[i].spans))
            && forall i :: 0 <= i < |runs| ==> runs[i].lineIndex == lineIndex
  {
    var runs := RunsForLine(lineIndex, gs);
    var groups := RunGroups(Sort(gs, RunKey));
    hide Sort, SpansOfRuns, WellSplit, RunGroups, BoxOfAll, Flat;
    SpansOfRunsAre(groups, runs);
    RunGroupsKeep(Sort(gs, RunKey));
    RunGroupsSplitWell(Sort(gs, RunKey));
    assert seq(|runs|, i requires 0 <= i < |runs| => runs[i].spans) == groups;
  }
}
