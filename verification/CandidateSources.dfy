/** Every field candidate comes from spans of its own page, all of them with an extent, and carries their bounding box. */
module CandidateSources {
  import opened Basics
  import opened Collections
  import opened Sorting
  import opened ReadingOrder
  import opened ReadingLoops
  import opened MappedText
  import opened TemplateMatch
  import opened CapturePages
  import opened FieldCandidates

  /** The box around all corners of some spans. */
  function BoundsOf(spans: seq<Span>): Box
    requires spans != []
  {
    if |spans| == 1 then BoxOf(spans[0].polygon)
    else Join(BoundsOf(spans[..|spans| - 1]), BoxOf(spans[|spans| - 1].polygon))
  }

  predicate HasGeometry(s: Span) {
    GeometryOf(s).Some?
  }

  predicate AllGeometric(spans: seq<Span>) {
    forall i :: 0 <= i < |spans| ==> HasGeometry(spans[i])
  }

  predicate AllFrom(spans: seq<Span>, page: Page) {
    forall i :: 0 <= i < |spans| ==> spans[i] in page.spans
  }

  /** What provenance a candidate has. */
  predicate Sourced(page: Page, c: Candidate) {
    && c.resultId == page.resultId && c.frameId == page.frameId
    && c.spans != [] && |c.spans| <= MAX_SOURCE_SPANS_PER_FIELD && RisingIds(c.spans)
    && AllFrom(c.spans, page) && c.box == Some(BoundsOf(c.spans)) && ProperBox(BoundsOf(c.spans))
  }

  predicate ProperBox(b: Box) {
    b.minX < b.maxX && b.minY < b.maxY
  }

  /** The box of spans that all have an extent leaves none of them out. */
  lemma {:induction false} BoxIsExact(spans: seq<Span>)
    requires spans != [] && AllGeometric(spans)
    ensures |Geometries(spans)| == |spans| && BoxOfAll(Geometries(spans)) == BoundsOf(spans) && ProperBox(BoundsOf(spans))
  {
    var k := |spans| - 1;
    var g := GeometryOf(spans[k]);
    assert HasGeometry(spans[k]);
    if k == 0 {
      assert Geometries(spans[..0]) == [];
    } else {
      BoxIsExact(spans[..k]);
      var gs := Geometries(spans);
      assert gs[..|gs| - 1] == Geometries(spans[..k]) && gs[|gs| - 1] == g.value;
    }
  }

  lemma SourceBoxIsExact(spans: seq<Span>)
    requires spans != [] && AllGeometric(spans)
    ensures SourceBox(spans) == Some(BoundsOf(spans)) && ProperBox(BoundsOf(spans))
  {
    BoxIsExact(spans);
    hide Geometries, BoxOfAll, BoundsOf;
  }

  // ---------------------------------------------------------------- text of a page

  predicate RunOnPage(page: Page, run: Run) {
    forall k :: 0 <= k < |run.spans| ==> run.spans[k].span in page.spans && HasGeometry(run.spans[k].span)
  }

  predicate PathOnPage(page: Page, path: seq<Run>) {
    forall i :: 0 <= i < |path| ==> RunOnPage(page, path[i])
  }

  predicate TextOnPage(page: Page, mapped: Mapped) {
    forall i :: 0 <= i < |mapped| ==> mapped[i].span in page.spans && HasGeometry(mapped[i].span)
  }

  lemma PathTextOnPage(page: Page, path: seq<Run>)
    requires PathOnPage(page, path)
    ensures TextOnPage(page, PathCharacters(path))
  {
    var mapped := PathCharacters(path);
    forall i | 0 <= i < |mapped| ensures mapped[i].span in page.spans && HasGeometry(mapped[i].span) {
      EveryCharacterIsTraced(path, mapped[i]);
      hide PathCharacters, HasGeometry;
      var a, k :| 0 <= a < |path| && 0 <= k < |path[a].spans| && path[a].lineIndex == mapped[i].lineIndex
                  && path[a].spans[k].span == mapped[i].span;
      assert RunOnPage(page, path[a]);
    }
  }

  lemma {:induction false} InSpansOfRuns(runs: seq<Run>, run: Run, g: Geometry)
    requires run in runs && g in run.spans
    ensures g in SpansOfRuns(runs)
  {
    var k := |runs| - 1;
    if run != runs[k] {
      assert run in runs[..k];
      InSpansOfRuns(runs[..k], run, g);
    }
  }

  lemma {:induction false} InSpansOfLines(lines: seq<Line>, line: Line, g: Geometry)
    requires line in lines && g in SpansOfRuns(line.runs)
    ensures g in SpansOfLines(lines)
  {
    var k := |lines| - 1;
    if line != lines[k] {
      assert line in lines[..k];
      InSpansOfLines(lines[..k], line, g);
    }
  }

  /** A run of the page's reading holds spans of the page that have an extent. */
  lemma RunsAreOnPage(page: Page, line: Line, run: Run)
    requires line in Reconstruct(page.spans).lines && run in line.runs
    ensures RunOnPage(page, run)
  {
    hide Reconstruct;
    var reading, gs := Reconstruct(page.spans), Geometries(page.spans);
    forall k | 0 <= k < |run.spans| ensures run.spans[k].span in page.spans && HasGeometry(run.spans[k].span) {
      var g := run.spans[k];
      InSpansOfRuns(line.runs, run, g);
      InSpansOfLines(reading.lines, line, g);
      ReadingHoldsEachSpanOnce(page.spans);
      assert g in multiset(SpansOfLines(reading.lines));
      assert g in multiset(gs);
      var i :| 0 <= i < |gs| && gs[i] == g;
      FromSpan(page.spans, i);
    }
  }

  lemma RelatedAreOnPage(page: Page, source: Run, target: int, run: Run)
    requires run in RelatedRuns(Reconstruct(page.spans), source, target)
    ensures RunOnPage(page, run)
  {
    hide Reconstruct, Adjacent, NearRuns;
    var reading := Reconstruct(page.spans);
    RelatedExactly(reading, source, target, run);
    hide RelatedRuns;
    assert target < |reading.lines| by { AdjacentIsThere(reading, source, target); }
    RunsAreOnPage(page, reading.lines[target], run);
  }

  lemma AdjacentIsThere(reading: Reading, source: Run, target: nat)
    requires RelatedRuns(reading, source, target) != []
    ensures target < |reading.lines|
  {
  }

  lemma PathsAreOnPage(page: Page, start: Run, path: seq<Run>, maximumLines: nat)
    requires RunOnPage(page, start) && path in ForwardPaths(Reconstruct(page.spans), start, maximumLines) && maximumLines >= 1
    ensures PathOnPage(page, path)
  {
    hide Reconstruct, RunOnPage, RelatedRuns, ForwardPaths;
    var reading := Reconstruct(page.spans);
    ForwardPathsAre(reading, start, maximumLines);
    assert IsChain(reading, start, path, maximumLines);
    forall i | 0 <= i < |path| ensures RunOnPage(page, path[i]) {
      if i > 0 {
        assert path[i - 1 + 1] in RelatedRuns(reading, path[i - 1], path[i - 1].lineIndex + 1);
        RelatedAreOnPage(page, path[i - 1], path[i - 1].lineIndex + 1, path[i]);
      }
    }
  }

  // ---------------------------------------------------------------- candidates

  lemma SliceSpans(page: Page, mapped: Mapped, start: nat, end: nat)
    requires TextOnPage(page, mapped) && start < end <= |mapped|
    ensures var spans := SortedSpans(SourceSpans(mapped[start..end]));
            spans != [] && RisingIds(spans) && AllFrom(spans, page) && AllGeometric(spans)
  {
    hide SortedSpans, HasGeometry;
    var slice := mapped[start..end];
    SortedSpansAre(SpansOf(slice));
    SortedSpansAre(SourceSpans(slice));
    assert slice[0].span == SpansOf(slice)[0];
    var spans := SortedSpans(SourceSpans(slice));
    forall s | s in spans ensures s in page.spans && HasGeometry(s) {
      assert s in SpansOf(slice);
    }
  }

  lemma CandidateIsSourced(page: Page, mapped: Mapped, b: Bounds, isValid: string -> bool, c: Candidate)
    requires TextOnPage(page, mapped) && WithinText(b, mapped) && CandidateAt(page, mapped, b, isValid) == Some(c)
    ensures Sourced(page, c)
  {
    hide SortedSpans, SourceSpans, SourceValue, TextOnPage, SourceBox, BoundsOf;
    var (start, end) := Trimmed(mapped, b.start, b.end);
    SliceSpans(page, mapped, start, end);
    SourceBoxIsExact(c.spans);
  }

  lemma OneRun(page: Page, run: Run)
    requires RunOnPage(page, run)
    ensures TextOnPage(page, PathCharacters([run]))
  {
    PathTextOnPage(page, [run]);
  }

  lemma TwoRuns(page: Page, first: Run, second: Run)
    requires RunOnPage(page, first) && RunOnPage(page, second)
    ensures TextOnPage(page, PathCharacters([first, second]))
  {
    hide RunOnPage;
    PathTextOnPage(page, [first, second]);
  }

  lemma NamesAreSourced(page: Page, c: Candidate)
    requires c in NameCandidates(page, Reconstruct(page.spans))
    ensures Sourced(page, c)
  {
    hide Reconstruct, Collect, CandidateAt, Sourced, RunOnPage, TextOnPage, PathCharacters, Starts;
    var line := Contributor(Reconstruct(page.spans).lines, NamesOfLine(page), c);
    var run := Contributor(line.runs, NamesOfRun(page), c);
    var mapped := PathCharacters([run]);
    var at := Contributor(Starts(TextOf(mapped), SALUTATION_TEXT), NameAt(page, mapped), c);
    RunsAreOnPage(page, line, run);
    OneRun(page, run);
    var b := Bounds(NameStart(mapped, at), at, at, at + |SALUTATION_TEXT|);
    CandidateIsSourced(page, mapped, b, NameIsValid, c);
  }

  lemma ProvincesAreSourced(page: Page, c: Candidate)
    requires c in ProvinceCandidates(page, Reconstruct(page.spans))
    ensures Sourced(page, c)
  {
    hide Reconstruct, Collect, CandidateAt, Sourced, RunOnPage, TextOnPage, PathCharacters, Starts, ForwardPaths;
    hide PathOnPage, ProvinceBefore, PROVINCE_COMMITTEE_SUFFIXES;
    var reading := Reconstruct(page.spans);
    var line := Contributor(reading.lines, ProvincesOfLine(page, reading), c);
    var run := Contributor(line.runs, ProvincesOfRun(page, reading), c);
    var path := Contributor(ForwardPaths(reading, run, 3), ProvincesOnPath(page), c);
    RunsAreOnPage(page, line, run);
    PathsAreOnPage(page, run, path, 3);
    PathTextOnPage(page, path);
    var mapped := PathCharacters(path);
    var at := Contributor(Starts(TextOf(mapped), BY_TEXT), ProvincesAt(page, mapped), c);
    var suffix := Contributor(PROVINCE_COMMITTEE_SUFFIXES, ProvinceBefore(page, mapped, at), c);
    ProvinceIsSourced(page, mapped, at, suffix, c);
  }

  lemma ProvinceIsSourced(page: Page, mapped: Mapped, at: nat, suffix: string, c: Candidate)
    requires TextOnPage(page, mapped) && c in ProvinceBefore(page, mapped, at)(suffix)
    ensures Sourced(page, c)
  {
    hide CandidateAt, Sourced, TextOnPage, FirstFrom;
    var text := TextOf(mapped);
    var suffixStart := FirstFrom(text, suffix, at + 1);
    var approval := FirstFrom(text, APPROVAL_TEXT, suffixStart.value + |suffix|);
    var b := Bounds(at + 1, suffixStart.value, at, approval.value + |APPROVAL_TEXT|);
    CandidateIsSourced(page, mapped, b, ProvinceIsValid, c);
  }

  lemma CollegeIsSourced(page: Page, mapped: Mapped, anchorStart: nat, anchorEnd: nat, c: Candidate)
    requires TextOnPage(page, mapped) && c in CollegeIn(page, mapped, anchorStart, anchorEnd)
    ensures Sourced(page, c)
  {
    hide CandidateAt, Sourced, TextOnPage, CollegeEnd;
    CollegeEndIsWithin(TextOf(mapped), anchorEnd, |mapped|);
    var end := CollegeEnd(TextOf(mapped), anchorEnd, |mapped|);
    CandidateIsSourced(page, mapped, Bounds(anchorEnd, end.value, anchorStart, anchorEnd), CollegeIsValid, c);
  }

  lemma CollegesAreSourced(page: Page, c: Candidate)
    requires c in CollegeCandidates(page, Reconstruct(page.spans))
    ensures Sourced(page, c)
  {
    hide Reconstruct, Collect, CollegeIn, Sourced, RunOnPage, TextOnPage, PathCharacters, Starts, RelatedRuns;
    hide OpensSentence, ADMISSION_TEXT;
    var reading := Reconstruct(page.spans);
    var line := Contributor(reading.lines, CollegesOfLine(page, reading), c);
    var run := Contributor(line.runs, CollegesOfRun(page, reading), c);
    var at := Contributor(Starts(TextOf(PathCharacters([run])), ADMISSION_TEXT), CollegesAt(page, reading, run), c);
    RunsAreOnPage(page, line, run);
    OneRun(page, run);
    var mapped, end := PathCharacters([run]), at + |ADMISSION_TEXT|;
    if CollegeIn(page, mapped, at, end) != [] {
      CollegeIsSourced(page, mapped, at, end, c);
    } else {
      var related := RelatedRuns(reading, run, run.lineIndex + 1);
      var next := Contributor(related, CollegeAcross(page, run, at), c);
      RelatedAreOnPage(page, run, run.lineIndex + 1, next);
      TwoRuns(page, run, next);
      CollegeIsSourced(page, PathCharacters([run, next]), at, end, c);
    }
  }

  lemma MajorIsSourced(page: Page, mapped: Mapped, b: Bounds, c: Candidate)
    requires TextOnPage(page, mapped) && c in MajorAt(page, mapped, b)
    ensures Sourced(page, c)
  {
    hide CandidateAt, Sourced, TextOnPage, HasSourceBoundary;
    CandidateIsSourced(page, mapped, b, MajorIsValid, c);
  }

  lemma MajorsAreSourced(page: Page, c: Candidate)
    requires c in MajorCandidates(page, Reconstruct(page.spans))
    ensures Sourced(page, c)
  {
    hide Reconstruct, Collect, MajorAt, Sourced, RunOnPage, TextOnPage, PathCharacters, Starts, RelatedRuns;
    hide MajorStart, MayPrecede, MAJOR_STUDY_TEXT, WholeValue;
    var reading := Reconstruct(page.spans);
    var line := Contributor(reading.lines, MajorsOfLine(page, reading), c);
    var run := Contributor(line.runs, MajorsOfRun(page, reading), c);
    var mapped := PathCharacters([run]);
    var at := Contributor(Starts(TextOf(mapped), MAJOR_STUDY_TEXT), MajorsAt(page, reading, run), c);
    RunsAreOnPage(page, line, run);
    OneRun(page, run);
    var end := at + |MAJOR_STUDY_TEXT|;
    MajorStartIsWithin(TextOf(mapped), at);
    var start := MajorStart(TextOf(mapped), at);
    if MajorIsValid(WholeValue(mapped[start..at])) {
      MajorIsSourced(page, mapped, Bounds(start, at, at, end), c);
    } else {
      var previous := Contributor(RelatedRuns(reading, run, run.lineIndex - 1), MajorAcross(page, run, at), c);
      RelatedAreOnPage(page, run, run.lineIndex - 1, previous);
      TwoRuns(page, previous, run);
      var offset := |PathCharacters([previous])|;
      MajorIsSourced(page, PathCharacters([previous, run]),
                     Bounds(0, offset + at, offset + at, offset + at + |MAJOR_STUDY_TEXT|), c);
    }
  }
}
