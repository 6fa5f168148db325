/**
 A page that is not matched although it shows a qualifying chain: two salutations side by side, the rest of the notice
 below the right one.
 */
module TwoColumnPage {
  import opened Basics
  import opened Collections
  import opened Sorting
  import opened ReadingOrder
  import opened ReadingLoops
  import opened MappedText
  import opened AnchorSearch
  import opened SearchExactness
  import opened TemplateMatch
  import opened PageMatch

  const COMMITTEE_LINE: string := "\U{7ECF}\U{6E56}\U{5317}\U{7701}" + COMMITTEE_TEXT
  const ADMISSION_LINE: string := "\U{6279}\U{51C6}" + ADMISSION_TEXT

  function Rectangle(box: Box): Polygon {
    Polygon(Point(box.minX, box.minY), Point(box.maxX, box.minY), Point(box.maxX, box.maxY), Point(box.minX, box.maxY))
  }

  function Boxed(id: nat, box: Box, text: string): Geometry {
    Geometry(Span(id, Rectangle(box), text, Some(0.99)), box)
  }

  const HEADING_BOX: Geometry := Boxed(0, Box(0.30, 0.05, 0.70, 0.07), INSTITUTION_NAME)
  const LEFT: Geometry := Boxed(1, Box(0.10, 0.20, 0.20, 0.22), SALUTATION_TEXT)
  const RIGHT: Geometry := Boxed(2, Box(0.60, 0.20, 0.70, 0.22), SALUTATION_TEXT)
  const COMMITTEE: Geometry := Boxed(3, Box(0.55, 0.40, 0.85, 0.42), COMMITTEE_LINE)
  const ADMISSION: Geometry := Boxed(4, Box(0.55, 0.60, 0.85, 0.62), ADMISSION_LINE)

  const PAGE: seq<Span> := [HEADING_BOX.span, LEFT.span, RIGHT.span, COMMITTEE.span, ADMISSION.span]

  // ---------------------------------------------------------------- the reading order of the page

  function RunOf(line: nat, g: Geometry): Run {
    Run(line, [g], g.box)
  }

  const HEADING_RUN: Run := RunOf(0, HEADING_BOX)
  const LEFT_RUN: Run := RunOf(1, LEFT)
  const RIGHT_RUN: Run := RunOf(1, RIGHT)
  const COMMITTEE_RUN: Run := RunOf(2, COMMITTEE)
  const ADMISSION_RUN: Run := RunOf(3, ADMISSION)

  const READING: Reading := Reading([
    Line(0, [HEADING_RUN], HEADING_BOX.box),
    Line(1, [LEFT_RUN, RIGHT_RUN], Box(0.10, 0.20, 0.70, 0.22)),
    Line(2, [COMMITTEE_RUN], COMMITTEE.box),
    Line(3, [ADMISSION_RUN], ADMISSION.box)])

  lemma GeometryIs(id: nat, box: Box, text: string)
    requires Width(box) > MIN_GEOMETRY_EXTENT && Height(box) > MIN_GEOMETRY_EXTENT
    ensures GeometryOf(Boxed(id, box, text).span) == Some(Boxed(id, box, text))
  {
  }

  lemma GeometriesNext(spans: seq<Span>, g: Geometry)
    requires GeometryOf(g.span) == Some(g)
    ensures Geometries(spans + [g.span]) == Geometries(spans) + [g]
  {
    assert (spans + [g.span])[..|spans|] == spans;
  }

  lemma PageGeometries()
    ensures Geometries(PAGE) == [HEADING_BOX, LEFT, RIGHT, COMMITTEE, ADMISSION]
  {
    GeometryIs(0, HEADING_BOX.box, INSTITUTION_NAME);
    GeometryIs(1, LEFT.box, SALUTATION_TEXT);
    GeometryIs(2, RIGHT.box, SALUTATION_TEXT);
    GeometryIs(3, COMMITTEE.box, COMMITTEE_LINE);
    GeometryIs(4, ADMISSION.box, ADMISSION_LINE);
    hide GeometryOf;
    GeometriesNext([], HEADING_BOX);
    GeometriesNext(PAGE[..1], LEFT);
    GeometriesNext(PAGE[..2], RIGHT);
    GeometriesNext(PAGE[..3], COMMITTEE);
    GeometriesNext(PAGE[..4], ADMISSION);
    assert [] + [HEADING_BOX.span] == PAGE[..1] && PAGE[..1] + [LEFT.span] == PAGE[..2];
    assert PAGE[..2] + [RIGHT.span] == PAGE[..3] && PAGE[..3] + [COMMITTEE.span] == PAGE[..4];
    assert PAGE[..4] + [ADMISSION.span] == PAGE;
  }

  /** Below everything in the group by more than a tenth of the page. */
  predicate FarBelow(g: Geometry, group: seq<Geometry>) {
    forall item :: item in group ==>
      Height(item.box) <= 0.03 && Height(g.box) <= 0.03 && g.box.minY > item.box.maxY + 0.10
  }

  lemma FarBelowIsApart(g: Geometry, group: seq<Geometry>)
    requires group != [] && HasExtent(g) && AllExtended(group) && FarBelow(g, group)
    ensures !SameVisualLine(g, group)
  {
    var r := Representative(g, group);
    assert VerticalOverlapRatio(g.box, r.box) == 0.0;
  }

  predicate FarBelowAll(g: Geometry, groups: seq<seq<Geometry>>) {
    forall i :: 0 <= i < |groups| ==> FarBelow(g, groups[i])
  }

  lemma NewLine(groups: seq<seq<Geometry>>, g: Geometry)
    requires ProperGroups(groups) && HasExtent(g) && FarBelowAll(g, groups)
    ensures Place(groups, g) == groups + [[g]]
  {
    forall i | 0 <= i < |groups| ensures !SameVisualLine(g, groups[i]) {
      FarBelowIsApart(g, groups[i]);
    }
    hide SameVisualLine;
  }

  lemma SecondColumn()
    ensures HasExtent(RIGHT) && ProperGroups([[HEADING_BOX], [LEFT]])
    ensures Place([[HEADING_BOX], [LEFT]], RIGHT) == [[HEADING_BOX], [LEFT, RIGHT]]
  {
    var groups := [[HEADING_BOX], [LEFT]];
    FarBelowIsApart(RIGHT, groups[0]);
    assert Representative(RIGHT, groups[1]) == LEFT;
    assert SameVisualLine(RIGHT, groups[1]);
    hide SameVisualLine;
    SelectGroupIsNearest(groups, RIGHT);
    assert [LEFT] + [RIGHT] == [LEFT, RIGHT];
  }

  /** A geometry far below all lines begins a line. */
  lemma GroupsNext(gs: seq<Geometry>, groups: seq<seq<Geometry>>, g: Geometry)
    requires AllExtended(gs) && HasExtent(g) && LineGroups(gs) == groups && FarBelowAll(g, groups)
    ensures AllExtended(gs + [g]) && LineGroups(gs + [g]) == groups + [[g]]
  {
    assert (gs + [g])[..|gs|] == gs;
    NewLine(groups, g);
    hide Place, HasExtent;
  }

  lemma GroupsJoin(gs: seq<Geometry>, g: Geometry)
    requires AllExtended(gs) && HasExtent(g)
    ensures AllExtended(gs + [g]) && LineGroups(gs + [g]) == Place(LineGroups(gs), g)
  {
    assert (gs + [g])[..|gs|] == gs;
  }

  lemma GroupsOfThree(h: Geometry, l: Geometry, r: Geometry)
    requires HasExtent(h) && HasExtent(l) && HasExtent(r) && FarBelowAll(l, [[h]])
    requires ProperGroups([[h], [l]]) && Place([[h], [l]], r) == [[h], [l, r]]
    ensures AllExtended([h, l, r]) && LineGroups([h, l, r]) == [[h], [l, r]]
  {
    assert AllExtended([]) && LineGroups([]) == [] && FarBelowAll(h, []);
    hide HasExtent, FarBelowAll, Place, LineGroups, AllExtended, ProperGroups;
    GroupsNext([], [], h);
    assert [] + [h] == [h] && [] + [[h]] == [[h]];
    GroupsNext([h], [[h]], l);
    assert [h] + [l] == [h, l] && [[h]] + [[l]] == [[h], [l]];
    GroupsJoin([h, l], r);
    assert [h, l] + [r] == [h, l, r];
  }

  /** The lines of a page of five spans with the second and third side by side. */
  lemma GroupsOfFive(h: Geometry, l: Geometry, r: Geometry, c: Geometry, a: Geometry)
    requires HasExtent(c) && HasExtent(a) && AllExtended([h, l, r]) && LineGroups([h, l, r]) == [[h], [l, r]]
    requires FarBelowAll(c, [[h], [l, r]]) && FarBelowAll(a, [[h], [l, r], [c]])
    ensures AllExtended([h, l, r, c, a]) && LineGroups([h, l, r, c, a]) == [[h], [l, r], [c], [a]]
  {
    hide HasExtent, FarBelowAll, Place, LineGroups, AllExtended, ProperGroups;
    GroupsNext([h, l, r], [[h], [l, r]], c);
    assert [h, l, r] + [c] == [h, l, r, c] && [[h], [l, r]] + [[c]] == [[h], [l, r], [c]];
    GroupsNext([h, l, r, c], [[h], [l, r], [c]], a);
    assert [h, l, r, c] + [a] == [h, l, r, c, a] && [[h], [l, r], [c]] + [[a]] == [[h], [l, r], [c], [a]];
  }

  lemma PageGroups()
    ensures AllExtended([HEADING_BOX, LEFT, RIGHT, COMMITTEE, ADMISSION])
    ensures LineGroups([HEADING_BOX, LEFT, RIGHT, COMMITTEE, ADMISSION]) == [[HEADING_BOX], [LEFT, RIGHT], [COMMITTEE], [ADMISSION]]
  {
    SecondColumn();
    hide SameVisualLine, Place, LineGroups;
    GroupsOfThree(HEADING_BOX, LEFT, RIGHT);
    GroupsOfFive(HEADING_BOX, LEFT, RIGHT, COMMITTEE, ADMISSION);
  }

  lemma SingleLine(index: nat, g: Geometry)
    ensures LineOf(index, [g]) == Line(index, [RunOf(index, g)], g.box)
  {
    assert RunsForLine(index, [g]) == [RunOf(index, g)] by {
      SortedAlready([g], RunKey);
      assert [g][..0] == [];
      assert RunGroups([g]) == [[g]];
    }
  }

  lemma SplitLine(index: nat, l: Geometry, r: Geometry)
    requires Splits(l, r) && l.box.minX < r.box.minX
    ensures LineOf(index, [l, r]) == Line(index, [RunOf(index, l), RunOf(index, r)], Join(l.box, r.box))
  {
    assert [l, r][..1] == [l] && [l][..0] == [];
    assert RunsForLine(index, [l, r]) == [RunOf(index, l), RunOf(index, r)] by {
      SortedAlready([l, r], RunKey);
      assert RunGroups([l]) == [[l]];
      assert RunGroups([l, r]) == [[l], [r]];
    }
    assert BoxOfAll([l, r]) == Join(l.box, r.box);
  }

  lemma ColumnsSplit()
    ensures Splits(LEFT, RIGHT) && LEFT.box.minX < RIGHT.box.minX && Join(LEFT.box, RIGHT.box) == Box(0.10, 0.20, 0.70, 0.22)
  {
  }

  lemma PageIsSorted()
    ensures var gs := [HEADING_BOX, LEFT, RIGHT, COMMITTEE, ADMISSION]; Sort(gs, PageKey) == gs
  {
    var left, right := PageKey(LEFT), PageKey(RIGHT);
    assert !LexLess(right[1..][1..], left[1..][1..]);
    assert !LexLess(right[1..], left[1..]);
    SortedAlready([HEADING_BOX, LEFT, RIGHT, COMMITTEE, ADMISSION], PageKey);
  }

  lemma MeansOf(g: Geometry, l: Geometry, r: Geometry)
    ensures MeanCenter([g]) == CenterY(g.box) && MeanCenter([l, r]) == (CenterY(l.box) + CenterY(r.box)) / 2.0
  {
    assert [g][..0] == [] && [l, r][..1] == [l] && [l][..0] == [];
    assert SumOfCenters([g]) == CenterY(g.box);
    assert SumOfCenters([l]) == CenterY(l.box);
    assert SumOfCenters([l, r]) == CenterY(l.box) + CenterY(r.box);
  }

  lemma LinesAreSorted()
    ensures var groups := [[HEADING_BOX], [LEFT, RIGHT], [COMMITTEE], [ADMISSION]]; Sort(groups, GroupKey) == groups
  {
    var groups := [[HEADING_BOX], [LEFT, RIGHT], [COMMITTEE], [ADMISSION]];
    MeansOf(HEADING_BOX, LEFT, RIGHT);
    MeansOf(COMMITTEE, LEFT, RIGHT);
    MeansOf(ADMISSION, LEFT, RIGHT);
    hide MeanCenter, BoxOfAll;
    SortedAlready(groups, GroupKey);
  }

  /** What the reading order makes of the page. */
  lemma PageReading()
    ensures Reconstruct(PAGE) == READING
  {
    hide LineOf, Sort, LineGroups, Geometries, HEADING_BOX, LEFT, RIGHT, COMMITTEE, ADMISSION, PAGE, Splits, Join;
    PageGeometries();
    PageIsSorted();
    PageGroups();
    LinesAreSorted();
    SingleLine(0, HEADING_BOX);
    ColumnsSplit();
    SplitLine(1, LEFT, RIGHT);
    SingleLine(2, COMMITTEE);
    SingleLine(3, ADMISSION);
  }

  // ---------------------------------------------------------------- the text of a run of one span

  /** Without white space, and unchanged by normalisation. */
  predicate Plain(text: string) {
    forall i :: 0 <= i < |text| ==> !IsUnicodeWhitespace(text[i]) && CanonicalAnchorCharacter(text[i]) == text[i]
  }

  function Shown(line: nat, g: Geometry): Mapped {
    PathCharacters([RunOf(line, g)])
  }

  lemma {:induction false} PlainSpan(g: Geometry, line: nat, upTo: nat)
    requires Plain(g.span.text) && upTo <= |g.span.text|
    ensures var shown := SpanCharacters(g, line, upTo);
            && |shown| == upTo
            && forall i :: 0 <= i < upTo ==> shown[i] == MappedCharacter(g.span.text[i], g.span.text[i], g.span, line, i)
  {
    if upTo > 0 {
      PlainSpan(g, line, upTo - 1);
    }
  }

  lemma ShownIsSpan(line: nat, g: Geometry)
    ensures Shown(line, g) == SpanCharacters(g, line, |g.span.text|)
  {
    var run, shown := RunOf(line, g), SpanCharacters(g, line, |g.span.text|);
    hide SpanCharacters;
    assert [run][..0] == [] && [g][..0] == [] && [] + shown == shown;
    assert RunCharacters(line, []) == [] && PathCharacters([]) == [];
    assert RunCharacters(line, [g]) == [] + shown;
  }

  lemma PlainRun(line: nat, g: Geometry)
    requires Plain(g.span.text)
    ensures var shown := Shown(line, g);
            && TextOf(shown) == g.span.text && |shown| == |g.span.text|
            && forall i :: 0 <= i < |shown| ==> shown[i] == MappedCharacter(g.span.text[i], g.span.text[i], g.span, line, i)
  {
    hide Shown, SpanCharacters, Plain;
    ShownIsSpan(line, g);
    PlainSpan(g, line, |g.span.text|);
    hide TextOf;
  }

  lemma StartsWith(text: string, anchor: string, i: nat)
    requires anchor != "" && OccursAt(text, anchor, i)
    ensures i < |text| && text[i] == anchor[0]
  {
    assert text[i..i + |anchor|][0] == text[i];
  }

  lemma NoAnchor(text: string, anchor: string)
    requires anchor != "" && anchor[0] !in text
    ensures Starts(text, anchor) == []
  {
    var starts := Starts(text, anchor);
    if |starts| > 0 {
      StartsWith(text, anchor, starts[0]);
    }
  }

  lemma OneAnchor(text: string, anchor: string, at: nat)
    requires anchor != "" && OccursAt(text, anchor, at) && forall i :: 0 <= i < |text| && i != at ==> text[i] != anchor[0]
    ensures Starts(text, anchor) == [at]
  {
    var starts := Starts(text, anchor);
    assert at in starts;
    assert |starts| == 1 || starts[0] < starts[1];
    forall i | 0 <= i < |starts| ensures starts[i] == at {
      StartsWith(text, anchor, starts[i]);
    }
  }

  lemma SourceSpansSingle(mapped: Mapped, span: Span)
    requires mapped != [] && forall i :: 0 <= i < |mapped| ==> mapped[i].span == span
    ensures SourceSpans(mapped) == [span]
  {
    var spans, sorted := SpansOf(mapped), SourceSpans(mapped);
    SortedSpansAre(spans);
    assert spans[0] in spans && HasKey(sorted, IdOf, span.id);
    forall i | 0 <= i < |sorted| ensures sorted[i] == span {
      assert sorted[i] in spans;
    }
    assert |sorted| > 1 ==> sorted[0].id < sorted[1].id;
  }

  lemma SourceBoxSingle(g: Geometry)
    requires GeometryOf(g.span) == Some(g)
    ensures SourceBox([g.span]) == Some(g.box)
  {
    assert Geometries([]) == [] && [] + [g.span] == [g.span];
    GeometriesNext([], g);
  }

  /** An anchor inside a span. */
  function AnchorIn(rule: Rule, line: nat, g: Geometry, at: nat): Occurrence
    requires at + |rule.text| <= |g.span.text| && |rule.text| > 0
  {
    Occurrence(rule.anchor, CharacterKey(line, g, at), CharacterKey(line, g, at + |rule.text|), line, g.box.minX, g.box.maxX)
  }

  function CharacterKey(line: nat, g: Geometry, offset: nat): seq<real>
    requires g.span.text != ""
  {
    [line as real, g.box.minX + Width(g.box) * ((offset as real) / (|g.span.text| as real)), g.span.id as real, offset as real]
  }

  lemma KeyIs(mapped: Mapped, index: nat, afterCharacter: bool, line: nat, g: Geometry)
    requires index < |mapped| && mapped[index].span == g.span && mapped[index].lineIndex == line
    requires mapped[index].sourceOffset == index && g.span.text != "" && BoxOf(g.span.polygon) == g.box
    ensures PositionKey(mapped, index, afterCharacter) == CharacterKey(line, g, index + if afterCharacter then 1 else 0)
  {
    hide BoxOf, Width;
    var offset := index + if afterCharacter then 1 else 0;
    var key, other := PositionKey(mapped, index, afterCharacter), CharacterKey(line, g, offset);
    assert key[0] == line as real;
    assert key[2] == g.span.id as real;
    assert key[3] == offset as real;
    assert key[1] == g.box.minX + Width(g.box) * ((offset as real) / (|g.span.text| as real));
    assert other[1] == g.box.minX + Width(g.box) * ((offset as real) / (|g.span.text| as real));
    assert |key| == |other| == 4 && key[0] == other[0] && key[1] == other[1] && key[2] == other[2] && key[3] == other[3];
  }

  lemma KeyInSpan(line: nat, g: Geometry, i: nat)
    requires Plain(g.span.text) && GeometryOf(g.span) == Some(g) && i < |g.span.text|
    ensures |Shown(line, g)| == |g.span.text|
    ensures PositionKey(Shown(line, g), i, false) == CharacterKey(line, g, i)
    ensures PositionKey(Shown(line, g), i, true) == CharacterKey(line, g, i + 1)
  {
    PlainRun(line, g);
    hide Shown, Plain, TextOf, BoxOf, Width, PositionKey, CharacterKey;
    KeyIs(Shown(line, g), i, false, line, g);
    KeyIs(Shown(line, g), i, true, line, g);
  }

  lemma SliceStands(line: nat, g: Geometry, start: nat, end: nat)
    requires start < end <= |g.span.text| && Plain(g.span.text) && GeometryOf(g.span) == Some(g)
    ensures |Shown(line, g)| == |g.span.text| && Shown(line, g)[start].lineIndex == line
    ensures SourceBox(SourceSpans(Shown(line, g)[start..end])) == Some(g.box)
  {
    PlainRun(line, g);
    SourceBoxSingle(g);
    hide Shown, SourceSpans, SourceBox, GeometryOf, Plain, TextOf;
    SourceSpansSingle(Shown(line, g)[start..end], g.span);
  }

  lemma AnchorStands(rule: Rule, line: nat, g: Geometry, at: nat)
    requires |rule.text| > 0 && at + |rule.text| <= |g.span.text| && Plain(g.span.text) && GeometryOf(g.span) == Some(g)
    requires ContextIsValid(rule, Shown(line, g), at, at + |rule.text|)
    requires rule.minimumCenterY <= CenterY(g.box) <= rule.maximumCenterY
    ensures OccurrenceAt(rule, Shown(line, g), at) == Some(AnchorIn(rule, line, g, at))
  {
    hide Shown, SourceSpans, SourceBox, PositionKey, CharacterKey, GeometryOf, Plain, TextOf, CenterY;
    SliceStands(line, g, at, at + |rule.text|);
    KeyInSpan(line, g, at);
    KeyInSpan(line, g, at + |rule.text| - 1);
  }

  // ---------------------------------------------------------------- what is found on the page

  /** A run that no other run belongs with contributes the anchors in its own text. */
  lemma RunAlone(reading: Reading, rule: Rule, after: seq<real>, line: nat, g: Geometry)
    requires Plain(g.span.text) && RelatedRuns(reading, RunOf(line, g), line + 1) == []
    ensures RunPart(reading, rule, after)(RunOf(line, g))
            == Collect(Starts(g.span.text, rule.text), StartPart(rule, after, Shown(line, g)))
  {
    var run := RunOf(line, g);
    PlainRun(line, g);
    hide RelatedRuns, PathCharacters, TextOf, Plain, StartPart, Starts;
    PathsAlone(reading, run, rule.maximumLines);
    CollectOne([run], PathPart(rule, after));
  }

  lemma PathsAlone(reading: Reading, run: Run, maximumLines: nat)
    requires RelatedRuns(reading, run, run.lineIndex + 1) == []
    ensures ForwardPaths(reading, run, maximumLines) == [[run]]
  {
    hide RelatedRuns;
    assert [[run]][1..] == [];
    assert PathSearch(reading, [[run]], [], maximumLines) == [[run]];
    if maximumLines > 1 {
      assert NewPaths(reading, [run], MAX_FORWARD_RUN_PATHS - 1) == [];
      assert [[run]] + [] == [[run]] && [[run]][1..] + [] == [];
    }
  }

  lemma RunQuiet(reading: Reading, rule: Rule, after: seq<real>, line: nat, g: Geometry)
    requires Plain(g.span.text) && RelatedRuns(reading, RunOf(line, g), line + 1) == []
    requires rule.text != "" && rule.text[0] !in g.span.text
    ensures RunPart(reading, rule, after)(RunOf(line, g)) == []
  {
    hide RelatedRuns, Plain, StartPart, Starts, RunPart;
    RunAlone(reading, rule, after, line, g);
    NoAnchor(g.span.text, rule.text);
  }

  /** An anchor of a rule stands in a span, once, below the heading line. */
  predicate Stands(rule: Rule, line: nat, g: Geometry, at: nat) {
    && rule.text != "" && Plain(g.span.text) && GeometryOf(g.span) == Some(g) && OccursAt(g.span.text, rule.text, at)
    && (forall i :: 0 <= i < |g.span.text| && i != at ==> g.span.text[i] != rule.text[0])
    && ContextIsValid(rule, Shown(line, g), at, at + |rule.text|)
    && rule.minimumCenterY <= CenterY(g.box) <= rule.maximumCenterY
  }

  lemma StartAccepted(rule: Rule, after: seq<real>, line: nat, g: Geometry, at: nat)
    requires Stands(rule, line, g, at) && |after| == 4 && after[0] < line as real
    ensures StartPart(rule, after, Shown(line, g))(at) == [AnchorIn(rule, line, g, at)]
  {
    AnchorStands(rule, line, g, at);
    hide Plain, OccurrenceAt, Shown, CenterY, GeometryOf;
    assert AnchorIn(rule, line, g, at).startKey[0] == line as real;
    assert AcceptedAt(rule, after, Shown(line, g), at) == Some(AnchorIn(rule, line, g, at));
  }

  lemma RunShows(reading: Reading, rule: Rule, after: seq<real>, line: nat, g: Geometry, at: nat)
    requires Stands(rule, line, g, at) && RelatedRuns(reading, RunOf(line, g), line + 1) == []
    requires |after| == 4 && after[0] < line as real
    ensures RunPart(reading, rule, after)(RunOf(line, g)) == [AnchorIn(rule, line, g, at)]
  {
    OneAnchor(g.span.text, rule.text, at);
    StartAccepted(rule, after, line, g, at);
    hide RelatedRuns, Plain, Starts, RunPart, StartPart, Shown, OccursAt, CenterY, GeometryOf, AnchorIn;
    RunAlone(reading, rule, after, line, g);
    CollectOne(at, StartPart(rule, after, Shown(line, g)));
  }

  lemma RunsApart(line: nat)
    requires line < 4
    ensures forall run :: RelatedRuns(READING, run, line + 1) == [] || run.lineIndex != line
  {
    assert !Adjacent(READING, line, line + 1) by {
      if line < 3 {
        assert READING.lines[line].box.maxY + 0.09 < READING.lines[line + 1].box.minY;
      }
    }
  }

  /** What the four lines of the page contribute, one after the other. */
  lemma CollectLines<U>(part: Line -> seq<U>)
    ensures Collect(READING.lines, part)
            == part(READING.lines[0]) + part(READING.lines[1]) + part(READING.lines[2]) + part(READING.lines[3])
  {
    var lines := READING.lines;
    CollectOne(lines[0], part);
    hide READING;
    assert lines[..1] == [lines[0]];
    assert lines[..2][..1] == lines[..1] && lines[..3][..2] == lines[..2] && lines[..4][..3] == lines[..3];
    assert lines[..4] == lines;
    assert Collect(lines[..2], part) == part(lines[0]) + part(lines[1]);
    assert Collect(lines[..3], part) == part(lines[0]) + part(lines[1]) + part(lines[2]);
  }

  /** What the runs of the page contribute, one after the other. */
  lemma RunParts(rule: Rule, after: seq<real>)
    ensures var part := RunPart(READING, rule, after);
            Collect(READING.lines, LinePart(READING, rule, after))
            == part(HEADING_RUN) + (part(LEFT_RUN) + part(RIGHT_RUN)) + part(COMMITTEE_RUN) + part(ADMISSION_RUN)
  {
    var runs, lines := RunPart(READING, rule, after), LinePart(READING, rule, after);
    hide RunPart;
    CollectLines(lines);
    CollectOne(HEADING_RUN, runs);
    CollectTwo(LEFT_RUN, RIGHT_RUN, runs);
    CollectOne(COMMITTEE_RUN, runs);
    CollectOne(ADMISSION_RUN, runs);
    hide Collect, HEADING_RUN, LEFT_RUN, RIGHT_RUN, COMMITTEE_RUN, ADMISSION_RUN;
  }

  /** The characters of the page are read as they stand. */
  predicate ReadsPlainly() {
    Plain(INSTITUTION_NAME) && Plain(SALUTATION_TEXT) && Plain(COMMITTEE_LINE) && Plain(ADMISSION_LINE)
  }

  /** The text around the four anchors fits. */
  predicate ContextsFit() {
    && ContextIsValid(SALUTATION_RULE, Shown(1, LEFT), 0, 2)
    && ContextIsValid(SALUTATION_RULE, Shown(1, RIGHT), 0, 2)
    && ContextIsValid(COMMITTEE_RULE, Shown(2, COMMITTEE), 4, 13)
    && ContextIsValid(ADMISSION_RULE, Shown(3, ADMISSION), 2, 9)
  }

  const LEFT_SALUTATION: Occurrence := AnchorIn(SALUTATION_RULE, 1, LEFT, 0)
  const RIGHT_SALUTATION: Occurrence := AnchorIn(SALUTATION_RULE, 1, RIGHT, 0)
  const COMMITTEE_ANCHOR: Occurrence := AnchorIn(COMMITTEE_RULE, 2, COMMITTEE, 4)
  const ADMISSION_ANCHOR: Occurrence := AnchorIn(ADMISSION_RULE, 3, ADMISSION, 2)

  lemma AnchorsStand()
    requires ReadsPlainly() && ContextsFit()
    ensures Stands(SALUTATION_RULE, 1, LEFT, 0) && Stands(SALUTATION_RULE, 1, RIGHT, 0)
    ensures Stands(COMMITTEE_RULE, 2, COMMITTEE, 4) && Stands(ADMISSION_RULE, 3, ADMISSION, 2)
  {
    hide Plain, Shown;
    GeometryIs(1, LEFT.box, SALUTATION_TEXT);
    GeometryIs(2, RIGHT.box, SALUTATION_TEXT);
    GeometryIs(3, COMMITTEE.box, COMMITTEE_LINE);
    GeometryIs(4, ADMISSION.box, ADMISSION_LINE);
    hide GeometryOf;
    assert COMMITTEE_LINE[4..4 + 9] == COMMITTEE_TEXT;
    assert ADMISSION_LINE[2..2 + 7] == ADMISSION_TEXT;
    assert SALUTATION_TEXT[0..0 + 2] == SALUTATION_TEXT;
  }

  /** The rule's anchor cannot begin in the span. */
  predicate Absent(rule: Rule, g: Geometry) {
    rule.text != "" && Plain(g.span.text) && rule.text[0] !in g.span.text
  }

  /** No other run shows the beginning of an anchor. */
  lemma NoOtherSalutation()
    requires ReadsPlainly()
    ensures Absent(SALUTATION_RULE, HEADING_BOX) && Absent(SALUTATION_RULE, COMMITTEE) && Absent(SALUTATION_RULE, ADMISSION)
  {
    hide Plain;
  }

  lemma NoOtherCommittee()
    requires ReadsPlainly()
    ensures Absent(COMMITTEE_RULE, HEADING_BOX) && Absent(COMMITTEE_RULE, LEFT)
    ensures Absent(COMMITTEE_RULE, RIGHT) && Absent(COMMITTEE_RULE, ADMISSION)
  {
    hide Plain;
  }

  lemma NoOtherAdmission()
    requires ReadsPlainly()
    ensures Absent(ADMISSION_RULE, HEADING_BOX) && Absent(ADMISSION_RULE, LEFT)
    ensures Absent(ADMISSION_RULE, RIGHT) && Absent(ADMISSION_RULE, COMMITTEE)
  {
    hide Plain;
  }

  lemma NoMajorStudy()
    requires ReadsPlainly()
    ensures Absent(MAJOR_STUDY_RULE, HEADING_BOX) && Absent(MAJOR_STUDY_RULE, LEFT) && Absent(MAJOR_STUDY_RULE, RIGHT)
    ensures Absent(MAJOR_STUDY_RULE, COMMITTEE) && Absent(MAJOR_STUDY_RULE, ADMISSION)
  {
    hide Plain;
  }

  lemma FoundOf(rule: Rule, after: seq<real>, stream: seq<Occurrence>)
    requires Collect(READING.lines, LinePart(READING, rule, after)) == stream
    ensures stream == [] ==> Found(READING, rule, after) == []
    ensures |stream| == 1 ==> Found(READING, rule, after) == stream
    ensures |stream| == 2 && IdentityKey(stream[0]) != IdentityKey(stream[1]) && !LexLess(OrderKey(stream[1]), OrderKey(stream[0]))
            ==> Found(READING, rule, after) == stream
  {
    hide LinePart, IdentityKey, OrderKey, LexLess, Collect, READING;
    if stream == [] {
      assert Latest(stream, IdentityKey) == [];
    } else if |stream| == 1 {
      assert stream[..0] == [] && Latest(stream, IdentityKey) == [] + [stream[0]];
      SortedAlready(stream, OrderKey);
    } else if |stream| == 2 && IdentityKey(stream[0]) != IdentityKey(stream[1]) && !LexLess(OrderKey(stream[1]), OrderKey(stream[0])) {
      TwoKeys(stream[0], stream[1], IdentityKey);
      assert stream == [stream[0], stream[1]];
      SortedAlready(stream, OrderKey);
    }
  }

  lemma TwoFound(rule: Rule, after: seq<real>, l: Occurrence, r: Occurrence)
    requires Collect(READING.lines, LinePart(READING, rule, after)) == [l] + [r]
    requires IdentityKey(l) != IdentityKey(r) && !LexLess(OrderKey(r), OrderKey(l))
    ensures Found(READING, rule, after) == [l, r]
  {
    hide LinePart, IdentityKey, OrderKey, LexLess, Collect, READING, Found;
    FoundOf(rule, after, [l] + [r]);
  }

  predicate BelowHeading(after: seq<real>) {
    |after| == 4 && after[0] == 0.0
  }

  lemma NoneOf(rule: Rule, after: seq<real>, line: nat, g: Geometry)
    requires line < 4 && Absent(rule, g)
    ensures RunPart(READING, rule, after)(RunOf(line, g)) == []
  {
    hide RunPart, RelatedRuns, READING, Plain;
    RunsApart(line);
    RunQuiet(READING, rule, after, line, g);
  }

  lemma OneOf(rule: Rule, after: seq<real>, line: nat, g: Geometry, at: nat)
    requires 0 < line < 4 && Stands(rule, line, g, at) && BelowHeading(after)
    ensures RunPart(READING, rule, after)(RunOf(line, g)) == [AnchorIn(rule, line, g, at)]
  {
    hide RunPart, RelatedRuns, READING;
    RunsApart(line);
    hide Stands, AnchorIn;
    RunShows(READING, rule, after, line, g, at);
  }

  /** What is left of five parts when most are empty. */
  lemma OfFive<T>(a: seq<T>, b: seq<T>, c: seq<T>, d: seq<T>, e: seq<T>)
    ensures a == d == e == [] ==> a + (b + c) + d + e == b + c
    ensures a == b == c == e == [] ==> a + (b + c) + d + e == d
    ensures a == b == c == d == [] ==> a + (b + c) + d + e == e
  {
  }

  lemma ColumnsFound(rule: Rule, after: seq<real>)
    requires Absent(rule, HEADING_BOX) && Absent(rule, COMMITTEE) && Absent(rule, ADMISSION) && BelowHeading(after)
    requires Stands(rule, 1, LEFT, 0) && Stands(rule, 1, RIGHT, 0)
    ensures Found(READING, rule, after) == [AnchorIn(rule, 1, LEFT, 0), AnchorIn(rule, 1, RIGHT, 0)]
  {
    var l, r := AnchorIn(rule, 1, LEFT, 0), AnchorIn(rule, 1, RIGHT, 0);
    ColumnKeys(rule);
    hide Stands, Absent, RunPart, Found, READING, AnchorIn, BelowHeading, HEADING_BOX, LEFT, RIGHT, COMMITTEE, ADMISSION;
    NoneOf(rule, after, 0, HEADING_BOX);
    NoneOf(rule, after, 2, COMMITTEE);
    NoneOf(rule, after, 3, ADMISSION);
    OneOf(rule, after, 1, LEFT, 0);
    OneOf(rule, after, 1, RIGHT, 0);
    RunParts(rule, after);
    OfFive([], [l], [r], [], []);
    TwoFound(rule, after, l, r);
  }

  /** The two differ by their spans, and the left one comes first. */
  lemma ColumnKeys(rule: Rule)
    requires 0 < |rule.text| <= 2
    ensures var l, r := AnchorIn(rule, 1, LEFT, 0), AnchorIn(rule, 1, RIGHT, 0);
            IdentityKey(l) != IdentityKey(r) && !LexLess(OrderKey(r), OrderKey(l))
  {
    var l, r := AnchorIn(rule, 1, LEFT, 0), AnchorIn(rule, 1, RIGHT, 0);
    assert l.startKey[2] == 1.0 && r.startKey[2] == 2.0;
    assert IdentityKey(l)[0] == l.startKey[2] && IdentityKey(r)[0] == r.startKey[2];
    assert OrderKey(l)[0] == 1.0 && OrderKey(r)[0] == 1.0 && OrderKey(l)[1] == 0.10 && OrderKey(r)[1] == 0.60;
    assert !LexLess(OrderKey(r)[1..], OrderKey(l)[1..]);
  }

  lemma FoundInCommittee(rule: Rule, after: seq<real>, at: nat)
    requires Absent(rule, HEADING_BOX) && Absent(rule, LEFT) && Absent(rule, RIGHT) && Absent(rule, ADMISSION)
    requires Stands(rule, 2, COMMITTEE, at) && BelowHeading(after)
    ensures Found(READING, rule, after) == [AnchorIn(rule, 2, COMMITTEE, at)]
  {
    var o := AnchorIn(rule, 2, COMMITTEE, at);
    hide Stands, Absent, RunPart, Found, READING, AnchorIn, BelowHeading, HEADING_BOX, LEFT, RIGHT, COMMITTEE, ADMISSION;
    NoneOf(rule, after, 0, HEADING_BOX);
    NoneOf(rule, after, 1, LEFT);
    NoneOf(rule, after, 1, RIGHT);
    NoneOf(rule, after, 3, ADMISSION);
    OneOf(rule, after, 2, COMMITTEE, at);
    RunParts(rule, after);
    OfFive([], [], [], [o], []);
    FoundOf(rule, after, [o]);
  }

  lemma FoundInAdmission(rule: Rule, after: seq<real>, at: nat)
    requires Absent(rule, HEADING_BOX) && Absent(rule, LEFT) && Absent(rule, RIGHT) && Absent(rule, COMMITTEE)
    requires Stands(rule, 3, ADMISSION, at) && BelowHeading(after)
    ensures Found(READING, rule, after) == [AnchorIn(rule, 3, ADMISSION, at)]
  {
    var o := AnchorIn(rule, 3, ADMISSION, at);
    hide Stands, Absent, RunPart, Found, READING, AnchorIn, BelowHeading, HEADING_BOX, LEFT, RIGHT, COMMITTEE, ADMISSION;
    NoneOf(rule, after, 0, HEADING_BOX);
    NoneOf(rule, after, 1, LEFT);
    NoneOf(rule, after, 1, RIGHT);
    NoneOf(rule, after, 2, COMMITTEE);
    OneOf(rule, after, 3, ADMISSION, at);
    RunParts(rule, after);
    OfFive([], [], [], [], [o]);
    FoundOf(rule, after, [o]);
  }

  lemma NotFound(rule: Rule, after: seq<real>)
    requires Absent(rule, HEADING_BOX) && Absent(rule, LEFT) && Absent(rule, RIGHT)
    requires Absent(rule, COMMITTEE) && Absent(rule, ADMISSION)
    ensures Found(READING, rule, after) == []
  {
    hide Absent, RunPart, Found, READING, HEADING_BOX, LEFT, RIGHT, COMMITTEE, ADMISSION;
    NoneOf(rule, after, 0, HEADING_BOX);
    NoneOf(rule, after, 1, LEFT);
    NoneOf(rule, after, 1, RIGHT);
    NoneOf(rule, after, 2, COMMITTEE);
    NoneOf(rule, after, 3, ADMISSION);
    RunParts(rule, after);
    var none: seq<Occurrence> := [];
    OfFive(none, none, none, none, none);
    FoundOf(rule, after, none);
  }

  lemma PageFinds(after: seq<real>)
    requires ReadsPlainly() && ContextsFit() && BelowHeading(after)
    ensures Found(READING, SALUTATION_RULE, after) == [LEFT_SALUTATION, RIGHT_SALUTATION]
    ensures Found(READING, COMMITTEE_RULE, after) == [COMMITTEE_ANCHOR]
    ensures Found(READING, ADMISSION_RULE, after) == [ADMISSION_ANCHOR]
    ensures Found(READING, MAJOR_STUDY_RULE, after) == []
  {
    hide Stands, Absent, Found, READING, AnchorIn, BelowHeading, HEADING_BOX, LEFT, RIGHT, COMMITTEE, ADMISSION;
    hide SALUTATION_RULE, COMMITTEE_RULE, ADMISSION_RULE, MAJOR_STUDY_RULE, ReadsPlainly, ContextsFit;
    NoOtherSalutation();
    NoOtherCommittee();
    NoOtherAdmission();
    NoMajorStudy();
    AnchorsStand();
    ColumnsFound(SALUTATION_RULE, after);
    FoundInCommittee(COMMITTEE_RULE, after, 4);
    FoundInAdmission(ADMISSION_RULE, after, 2);
    NotFound(MAJOR_STUDY_RULE, after);
  }

  /** Below the heading the page shows the two columns. */
  lemma PageRules(after: seq<real>)
    requires ReadsPlainly() && ContextsFit() && BelowHeading(after)
    ensures AnchorRules(READING, after) == ColumnRules(LEFT_SALUTATION, RIGHT_SALUTATION, COMMITTEE_ANCHOR, ADMISSION_ANCHOR)
  {
    hide Found, READING, BelowHeading, ReadsPlainly, ContextsFit, AnchorRules;
    hide LEFT_SALUTATION, RIGHT_SALUTATION, COMMITTEE_ANCHOR, ADMISSION_ANCHOR;
    hide SALUTATION_RULE, COMMITTEE_RULE, ADMISSION_RULE, MAJOR_STUDY_RULE;
    PageFinds(after);
    var rules := AnchorRules(READING, after);
    assert rules[0] == Found(READING, SALUTATION_RULE, after) && rules[1] == Found(READING, COMMITTEE_RULE, after);
    assert rules[2] == Found(READING, ADMISSION_RULE, after) && rules[3] == Found(READING, MAJOR_STUDY_RULE, after);
  }

  // ---------------------------------------------------------------- the heading and the decision

  const HEADING: HeadingCandidate :=
    HeadingCandidate(INSTITUTION_NAME, [0], CharacterKey(0, HEADING_BOX, 0), CharacterKey(0, HEADING_BOX, 10), 0.07, 0.40)

  lemma NoPunctuation()
    ensures StripEnd(StripStart(INSTITUTION_NAME)) == INSTITUTION_NAME
  {
  }

  lemma HeadingIn(line: nat, g: Geometry)
    requires Plain(g.span.text) && GeometryOf(g.span) == Some(g) && g.span.text != ""
    requires g.box.maxY <= TITLE_REGION_MAX_Y && Width(g.box) >= TITLE_MIN_WIDTH
    requires TITLE_CENTER_X_MIN <= CenterX(g.box) <= TITLE_CENTER_X_MAX && StripEnd(StripStart(g.span.text)) == g.span.text
    ensures HeadingOf(Shown(line, g))
            == Some(HeadingCandidate(g.span.text, [g.span.id], CharacterKey(line, g, 0),
                                     CharacterKey(line, g, |g.span.text|), g.box.maxY, Width(g.box)))
  {
    var shown := Shown(line, g);
    hide GeometryOf, PathCharacters, Plain, SourceSpans, SourceBox, TextOf, PositionKey, CharacterKey, StripStart, StripEnd;
    hide Shown, Width, CenterX;
    PlainRun(line, g);
    SliceStands(line, g, 0, |shown|);
    assert shown[0..|shown|] == shown;
    SourceSpansSingle(shown, g.span);
    KeyInSpan(line, g, 0);
    KeyInSpan(line, g, |shown| - 1);
    assert IdsOfSpans([g.span]) == [g.span.id];
  }

  lemma HeadingStands()
    requires Plain(INSTITUTION_NAME)
    ensures HeadingOf(Shown(0, HEADING_BOX)) == Some(HEADING)
  {
    GeometryIs(0, HEADING_BOX.box, INSTITUTION_NAME);
    NoPunctuation();
    hide GeometryOf, Plain, CharacterKey, StripStart, StripEnd, Shown, HeadingOf;
    HeadingIn(0, HEADING_BOX);
  }

  lemma NoHeading(line: nat, g: Geometry)
    requires Plain(g.span.text) && GeometryOf(g.span) == Some(g) && g.span.text != "" && g.box.maxY > TITLE_REGION_MAX_Y
    ensures HeadingOf(Shown(line, g)) == None
  {
    var shown := Shown(line, g);
    hide GeometryOf, PathCharacters, Plain, SourceSpans, SourceBox, TextOf, PositionKey, StripStart, StripEnd, Shown;
    PlainRun(line, g);
    SliceStands(line, g, 0, |shown|);
    assert shown[0..|shown|] == shown;
  }

  lemma HeadingsAlone(line: nat, g: Geometry)
    requires line < 4
    ensures HeadingsOfRun(READING)(RunOf(line, g)) == AsList(HeadingOf(Shown(line, g)))
  {
    var run := RunOf(line, g);
    hide HeadingOf, PathCharacters, RelatedRuns, READING, CombinedPart;
    RunsApart(line);
    assert Collect([], CombinedPart(run)) == [];
  }

  lemma PageHeadings()
    requires ReadsPlainly()
    ensures Headings(READING) == [HEADING]
  {
    HeadingStands();
    LowerRuns();
    hide HeadingOf, Shown, HeadingsOfRun, ReadsPlainly, HEADING;
    HeadingsAlone(0, HEADING_BOX);
    HeadingsAlone(1, LEFT);
    HeadingsAlone(1, RIGHT);
    HeadingsAlone(2, COMMITTEE);
    HeadingsAlone(3, ADMISSION);
    HeadingParts();
    OneHeading();
  }

  lemma LowerRuns()
    requires ReadsPlainly()
    ensures HeadingOf(Shown(1, LEFT)) == HeadingOf(Shown(1, RIGHT)) == None
    ensures HeadingOf(Shown(2, COMMITTEE)) == HeadingOf(Shown(3, ADMISSION)) == None
  {
    GeometryIs(1, LEFT.box, SALUTATION_TEXT);
    GeometryIs(2, RIGHT.box, SALUTATION_TEXT);
    GeometryIs(3, COMMITTEE.box, COMMITTEE_LINE);
    GeometryIs(4, ADMISSION.box, ADMISSION_LINE);
    hide GeometryOf, Plain, Shown, HeadingOf;
    NoHeading(1, LEFT);
    NoHeading(1, RIGHT);
    NoHeading(2, COMMITTEE);
    NoHeading(3, ADMISSION);
  }

  lemma HeadingParts()
    ensures var part := HeadingsOfRun(READING);
            Collect(READING.lines, HeadingsOfLine(READING))
            == part(HEADING_RUN) + (part(LEFT_RUN) + part(RIGHT_RUN)) + part(COMMITTEE_RUN) + part(ADMISSION_RUN)
  {
    var runs, lines := HeadingsOfRun(READING), HeadingsOfLine(READING);
    hide HeadingsOfRun;
    CollectLines(lines);
    CollectOne(HEADING_RUN, runs);
    CollectTwo(LEFT_RUN, RIGHT_RUN, runs);
    CollectOne(COMMITTEE_RUN, runs);
    CollectOne(ADMISSION_RUN, runs);
    hide Collect, HEADING_RUN, LEFT_RUN, RIGHT_RUN, COMMITTEE_RUN, ADMISSION_RUN;
  }

  lemma OneHeading()
    ensures Sort(Latest([HEADING], HeadingKey), HeadingOrder) == [HEADING]
  {
    hide HEADING;
    assert [HEADING][..0] == [] && Latest([HEADING], HeadingKey) == [] + [HEADING];
    SortedAlready([HEADING], HeadingOrder);
  }

  lemma PageColumns()
    ensures TwoColumns(LEFT_SALUTATION, RIGHT_SALUTATION, COMMITTEE_ANCHOR, ADMISSION_ANCHOR)
  {
    var l, r, c, a := LEFT_SALUTATION, RIGHT_SALUTATION, COMMITTEE_ANCHOR, ADMISSION_ANCHOR;
    assert l.endKey[0] == r.endKey[0] == 1.0 && c.startKey[0] == c.endKey[0] == 2.0 && a.startKey[0] == 3.0;
    assert l.endKey[1] == 0.20 && r.endKey[1] == 0.70;
    assert !LexLess(r.endKey[1..], l.endKey[1..]);
  }

  lemma OneHeadingIsSupported(h: HeadingCandidate)
    requires h.text == INSTITUTION_NAME
    ensures Supported([h]) == [h] && !Conflicts([h])
  {
    hide INSTITUTION_NAME;
    assert [h][..0] == [] && Supported([h]) == [] + [h];
  }

  /** Two columns below a page's only heading are not matched. */
  lemma ColumnsAreMissed(reading: Reading, h: HeadingCandidate, left: Occurrence, right: Occurrence,
                         committee: Occurrence, admission: Occurrence)
    requires Headings(reading) == [h] && h.text == INSTITUTION_NAME && TwoColumns(left, right, committee, admission)
    requires AnchorRules(reading, h.endKey) == ColumnRules(left, right, committee, admission)
    ensures MatchReading(reading) == Match(Insufficient, [Heading, Committee, Admission])
    ensures QualifyingChain(reading, h, [right, committee, admission])
  {
    hide Headings, AnchorRules, ColumnRules, TwoColumns, BodySignature, Qualifies, Supported, Conflicts, LexLess;
    hide INSTITUTION_NAME, BODY_ANCHOR_RULES;
    ColumnIsMissed(left, right, committee, admission);
    OneHeadingIsSupported(h);
    assert BestSignature(reading, [h]) == [Committee, Admission];
    assert [Heading] + [Committee, Admission] == [Heading, Committee, Admission];
  }

  /**
   The page shows three anchors on three lines below the institution's own heading, each compatible with the one
   before, and is not matched.
   */
  lemma PageIsMissed()
    requires ReadsPlainly() && ContextsFit()
    ensures MatchReading(Reconstruct(PAGE)) == Match(Insufficient, [Heading, Committee, Admission])
    ensures QualifyingChain(Reconstruct(PAGE), HEADING, [RIGHT_SALUTATION, COMMITTEE_ANCHOR, ADMISSION_ANCHOR])
  {
    PageReading();
    PageHeadings();
    assert BelowHeading(HEADING.endKey) && HEADING.text == INSTITUTION_NAME;
    hide Reconstruct, Headings, READING, PAGE, ReadsPlainly, ContextsFit, HEADING, BelowHeading, MatchReading, QualifyingChain;
    hide LEFT_SALUTATION, RIGHT_SALUTATION, COMMITTEE_ANCHOR, ADMISSION_ANCHOR, INSTITUTION_NAME;
    PageRules(HEADING.endKey);
    PageColumns();
    ColumnsAreMissed(READING, HEADING, LEFT_SALUTATION, RIGHT_SALUTATION, COMMITTEE_ANCHOR, ADMISSION_ANCHOR);
  }
}
