/** The loops that collect the field candidates of a page. */
module FieldCollectors {
  import opened Basics
  import opened Collections
  import opened ReadingOrder
  import opened ReadingLoops
  import opened MappedText
  import opened TemplateMatch
  import opened CapturePages
  import opened FieldCandidates

  method MakeCandidate(page: Page, mapped: Mapped, b: Bounds, isValid: string -> bool) returns (c: Option<Candidate>)
    requires WithinText(b, mapped)
    ensures c == CandidateAt(page, mapped, b, isValid)
  {
    var start, end := TrimStructuralBounds(mapped, b.start, b.end);
    if start >= end {
      return None;
    }
    var value := NormalizeCandidateWhitespace(SourceValue(mapped[start..end]));
    if !isValid(value) {
      return None;
    }
    var spans := SortedSpans(SourceSpans(mapped[start..end]));
    var authority := SortedSpans(SourceSpans(mapped[Least(start, b.anchorStart)..Greatest(end, b.anchorEnd)]));
    if spans == [] || |spans| > MAX_SOURCE_SPANS_PER_FIELD || !ScoresQualify(authority) {
      return None;
    }
    var anchors := SourceSpans(mapped[b.anchorStart..b.anchorEnd]);
    c := Some(Candidate(value, spans, SourceBox(spans), page.resultId, page.frameId,
      OccurrenceKey(page.resultId, IdsOfSpans(spans), IdsOfSpans(anchors), start, end, b.anchorStart, b.anchorEnd)));
  }

  // ---------------------------------------------------------------- names

  method FindNameStart(mapped: Mapped, at: nat) returns (start: nat)
    requires at <= |mapped|
    ensures start == NameStart(mapped, at)
  {
    start := at;
    while start > 0
      invariant start <= at && NameStart(mapped, start) == NameStart(mapped, at)
    {
      var c := mapped[start - 1].sourceCharacter;
      if !(IsHan(c) || c == MIDDLE_DOT) {
        break;
      }
      start := start - 1;
    }
  }

  method EnterNames(page: Page, run: Run, found: seq<Candidate>) returns (more: seq<Candidate>)
    ensures more == found + NamesOfRun(page)(run)
  {
    hide Collect, CandidateAt, OnlyStructural, DirectGapIsBounded, NameStart, SALUTATION_TEXT, PathCharacters;
    more := found;
    var mapped := FromRuns([run]);
    var text := TextOf(mapped);
    var starts := Occurrences(text, SALUTATION_TEXT);
    ghost var part := NameAt(page, mapped);
    CollectEnds(found, starts, part);
    for i := 0 to |starts|
      invariant more == found + Collect(starts[..i], part)
    {
      CollectNext(found, starts, i, part);
      var at := starts[i];
      var end := at + |SALUTATION_TEXT|;
      var start := FindNameStart(mapped, at);
      if OnlyStructural(text[..start]) && OnlyStructural(text[end..]) && DirectGapIsBounded(mapped, at, at) {
        var c := MakeCandidate(page, mapped, Bounds(start, at, at, end), NameIsValid);
        if c.Some? {
          more := more + [c.value];
        }
      }
    }
  }

  method CollectNames(page: Page, reading: Reading) returns (found: seq<Candidate>)
    ensures found == NameCandidates(page, reading)
  {
    hide Collect, NamesOfRun;
    found := [];
    ghost var part := NamesOfLine(page);
    CollectEnds([], reading.lines, part);
    for i := 0 to |reading.lines|
      invariant found == Collect(reading.lines[..i], part)
    {
      CollectTurn(reading.lines, i, part);
      var line := reading.lines[i];
      if !(0.08 <= CenterY(line.box) <= 0.48) {
        continue;
      }
      ghost var before := found;
      CollectEnds(before, line.runs, NamesOfRun(page));
      for k := 0 to |line.runs|
        invariant found == before + Collect(line.runs[..k], NamesOfRun(page))
      {
        CollectNext(before, line.runs, k, NamesOfRun(page));
        found := EnterNames(page, line.runs[k], found);
      }
    }
  }

  // ---------------------------------------------------------------- provinces

  method EnterProvince(page: Page, mapped: Mapped, at: nat, suffix: string, found: seq<Candidate>) returns (more: seq<Candidate>)
    ensures more == found + ProvinceBefore(page, mapped, at)(suffix)
  {
    hide CandidateAt, OnlyStructural, FirstFrom, APPROVAL_TEXT;
    more := found;
    var text := TextOf(mapped);
    var suffixStart := FirstFrom(text, suffix, at + 1);
    if suffixStart.None? {
      return;
    }
    var committeeEnd := suffixStart.value + |suffix|;
    var approval := FirstFrom(text, APPROVAL_TEXT, committeeEnd);
    if approval.None? || approval.value - committeeEnd > 8 || !OnlyStructural(text[committeeEnd..approval.value]) {
      return;
    }
    var b := Bounds(at + 1, suffixStart.value, at, approval.value + |APPROVAL_TEXT|);
    var c := MakeCandidate(page, mapped, b, ProvinceIsValid);
    if c.Some? {
      more := more + [c.value];
    }
  }

  method EnterProvincesAt(page: Page, mapped: Mapped, at: nat, found: seq<Candidate>) returns (more: seq<Candidate>)
    requires at <= |mapped|
    ensures more == found + ProvincesAt(page, mapped)(at)
  {
    hide Collect, OnlyStructural, ProvinceBefore, PROVINCE_COMMITTEE_SUFFIXES;
    more := found;
    if !OnlyStructural(TextOf(mapped)[..at]) {
      return;
    }
    ghost var part := ProvinceBefore(page, mapped, at);
    CollectEnds(found, PROVINCE_COMMITTEE_SUFFIXES, part);
    for i := 0 to |PROVINCE_COMMITTEE_SUFFIXES|
      invariant more == found + Collect(PROVINCE_COMMITTEE_SUFFIXES[..i], part)
    {
      CollectNext(found, PROVINCE_COMMITTEE_SUFFIXES, i, part);
      more := EnterProvince(page, mapped, at, PROVINCE_COMMITTEE_SUFFIXES[i], more);
    }
  }

  method EnterProvinces(page: Page, reading: Reading, run: Run, found: seq<Candidate>) returns (more: seq<Candidate>)
    ensures more == found + ProvincesOfRun(page, reading)(run)
  {
    hide Collect, ProvincesAt, PathCharacters, ForwardPaths, Starts, BY_TEXT;
    more := found;
    var alone := FromRuns([run]);
    var mentions := Occurrences(TextOf(alone), BY_TEXT);
    if mentions == [] {
      return;
    }
    var paths := ForwardRunPaths(reading, run, 3);
    ghost var part := ProvincesOnPath(page);
    CollectEnds(found, paths, part);
    for i := 0 to |paths|
      invariant more == found + Collect(paths[..i], part)
    {
      CollectNext(found, paths, i, part);
      var mapped := FromRuns(paths[i]);
      var starts := Occurrences(TextOf(mapped), BY_TEXT);
      ghost var before := more;
      CollectEnds(before, starts, ProvincesAt(page, mapped));
      for k := 0 to |starts|
        invariant more == before + Collect(starts[..k], ProvincesAt(page, mapped))
      {
        CollectNext(before, starts, k, ProvincesAt(page, mapped));
        assert starts[k] <= |mapped| by { StartIsWithin(TextOf(mapped), BY_TEXT, starts[k]); }
        more := EnterProvincesAt(page, mapped, starts[k], more);
      }
    }
  }

  lemma StartIsWithin(text: string, anchor: string, at: nat)
    requires at in Starts(text, anchor)
    ensures at + |anchor| <= |text|
  {
    hide Starts;
    var i :| 0 <= i < |Starts(text, anchor)| && Starts(text, anchor)[i] == at;
    assert OccursAt(text, anchor, Starts(text, anchor)[i]);
  }

  method CollectProvinces(page: Page, reading: Reading) returns (found: seq<Candidate>)
    ensures found == ProvinceCandidates(page, reading)
  {
    hide Collect, ProvincesOfRun;
    found := [];
    ghost var part := ProvincesOfLine(page, reading);
    CollectEnds([], reading.lines, part);
    for i := 0 to |reading.lines|
      invariant found == Collect(reading.lines[..i], part)
    {
      CollectTurn(reading.lines, i, part);
      var line := reading.lines[i];
      if !(0.12 <= CenterY(line.box) <= 0.72) {
        continue;
      }
      ghost var before := found;
      CollectEnds(before, line.runs, ProvincesOfRun(page, reading));
      for k := 0 to |line.runs|
        invariant found == before + Collect(line.runs[..k], ProvincesOfRun(page, reading))
      {
        CollectNext(before, line.runs, k, ProvincesOfRun(page, reading));
        found := EnterProvinces(page, reading, line.runs[k], found);
      }
    }
  }

  // ---------------------------------------------------------------- colleges

  method CollegesInText(page: Page, mapped: Mapped, anchorStart: nat, anchorEnd: nat) returns (found: seq<Candidate>)
    requires anchorStart <= anchorEnd <= |mapped|
    ensures found == CollegeIn(page, mapped, anchorStart, anchorEnd)
  {
    hide CandidateAt, CollegeEnd;
    CollegeEndIsWithin(TextOf(mapped), anchorEnd, |mapped|);
    var end := CollegeEnd(TextOf(mapped), anchorEnd, |mapped|);
    if end.None? {
      return [];
    }
    var c := MakeCandidate(page, mapped, Bounds(anchorEnd, end.value, anchorStart, anchorEnd), CollegeIsValid);
    found := if c.None? then [] else [c.value];
  }

  lemma FirstRunStays(first: Run, second: Run)
    ensures |PathCharacters([first, second])| == |PathCharacters([first])| + |PathCharacters([second])|
    ensures PathCharacters([first]) <= PathCharacters([first, second])
  {
    assert [first, second][..1] == [first] && [second][..0] == [] && [first][..0] == [];
  }

  method EnterColleges(page: Page, reading: Reading, run: Run, found: seq<Candidate>) returns (more: seq<Candidate>)
    ensures more == found + CollegesOfRun(page, reading)(run)
  {
    hide Collect, CollegeIn, OnlyStructural, OpensSentence, PathCharacters, RelatedRuns, Starts, ADMISSION_TEXT;
    more := found;
    var mapped := FromRuns([run]);
    var text := TextOf(mapped);
    var starts := Occurrences(text, ADMISSION_TEXT);
    ghost var part := CollegesAt(page, reading, run);
    CollectEnds(found, starts, part);
    for i := 0 to |starts|
      invariant more == found + Collect(starts[..i], part)
    {
      CollectNext(found, starts, i, part);
      var at := starts[i];
      StartIsWithin(text, ADMISSION_TEXT, at);
      var end := at + |ADMISSION_TEXT|;
      if !OpensSentence(text[..at]) {
        continue;
      }
      var same := CollegesInText(page, mapped, at, end);
      if same != [] {
        more := more + same;
        continue;
      }
      if !OnlyStructural(text[end..]) {
        continue;
      }
      var related := RelatedRuns(reading, run, run.lineIndex + 1);
      ghost var before, across := more, CollegeAcross(page, run, at);
      CollectEnds(before, related, across);
      for k := 0 to |related|
        invariant more == before + Collect(related[..k], across)
      {
        CollectNext(before, related, k, across);
        FirstRunStays(run, related[k]);
        var combined := FromRuns([run, related[k]]);
        var next := CollegesInText(page, combined, at, end);
        more := more + next;
      }
    }
  }

  method CollectColleges(page: Page, reading: Reading) returns (found: seq<Candidate>)
    ensures found == CollegeCandidates(page, reading)
  {
    hide Collect, CollegesOfRun;
    found := [];
    ghost var part := CollegesOfLine(page, reading);
    CollectEnds([], reading.lines, part);
    for i := 0 to |reading.lines|
      invariant found == Collect(reading.lines[..i], part)
    {
      CollectTurn(reading.lines, i, part);
      var line := reading.lines[i];
      if !(0.18 <= CenterY(line.box) <= 0.82) {
        continue;
      }
      ghost var before := found;
      CollectEnds(before, line.runs, CollegesOfRun(page, reading));
      for k := 0 to |line.runs|
        invariant found == before + Collect(line.runs[..k], CollegesOfRun(page, reading))
      {
        CollectNext(before, line.runs, k, CollegesOfRun(page, reading));
        found := EnterColleges(page, reading, line.runs[k], found);
      }
    }
  }

  // ---------------------------------------------------------------- majors

  method EnterMajor(page: Page, mapped: Mapped, b: Bounds, found: seq<Candidate>) returns (more: seq<Candidate>)
    requires WithinText(b, mapped)
    ensures more == found + MajorAt(page, mapped, b)
  {
    hide CandidateAt, HasSourceBoundary;
    more := found;
    if HasSourceBoundary(mapped, b.end, b.anchorStart) {
      var c := MakeCandidate(page, mapped, b, MajorIsValid);
      if c.Some? {
        more := more + [c.value];
      }
    }
  }

  /** Enter the majors that begin in a run of the line before. */
  method EnterAcross(page: Page, run: Run, at: nat, related: seq<Run>, found: seq<Candidate>) returns (more: seq<Candidate>)
    requires at + |MAJOR_STUDY_TEXT| <= |PathCharacters([run])|
    ensures more == found + Collect(related, MajorAcross(page, run, at))
  {
    hide Collect, MajorAt, PathCharacters, Starts, MayPrecede, WholeValue, MAJOR_STUDY_TEXT;
    more := found;
    ghost var across := MajorAcross(page, run, at);
    CollectEnds(found, related, across);
    for k := 0 to |related|
      invariant more == found + Collect(related[..k], across)
    {
      CollectNext(found, related, k, across);
      if MayPrecede(related[k]) {
        FirstRunStays(related[k], run);
        var previous := FromRuns([related[k]]);
        var combined := FromRuns([related[k], run]);
        var offset := |previous|;
        more := EnterMajor(page, combined,
                           Bounds(0, offset + at, offset + at, offset + at + |MAJOR_STUDY_TEXT|), more);
      }
    }
  }

  /** Enter the major before one anchor: within the run, or else across the break before it. */
  method EnterMajorAt(page: Page, reading: Reading, run: Run, mapped: Mapped, at: nat, found: seq<Candidate>)
    returns (more: seq<Candidate>)
    requires mapped == PathCharacters([run]) && at + |MAJOR_STUDY_TEXT| <= |mapped|
    ensures more == found + MajorsAt(page, reading, run)(at)
  {
    hide Collect, MajorAt, OnlyStructural, PathCharacters, RelatedRuns, Starts, MajorStart, WholeValue, MAJOR_STUDY_TEXT, MajorAcross;
    more := found;
    var text, end := TextOf(mapped), at + |MAJOR_STUDY_TEXT|;
    if OnlyStructural(text[end..]) {
      MajorStartIsWithin(text, at);
      var start := MajorStart(text, at);
      if MajorIsValid(WholeValue(mapped[start..at])) {
        more := EnterMajor(page, mapped, Bounds(start, at, at, end), more);
      } else {
        more := EnterAcross(page, run, at, RelatedRuns(reading, run, run.lineIndex - 1), more);
      }
    }
  }

  method EnterMajors(page: Page, reading: Reading, run: Run, found: seq<Candidate>) returns (more: seq<Candidate>)
    ensures more == found + MajorsOfRun(page, reading)(run)
  {
    hide Collect, PathCharacters, Starts, MAJOR_STUDY_TEXT, MajorsAt;
    more := found;
    var mapped := FromRuns([run]);
    var starts := Occurrences(TextOf(mapped), MAJOR_STUDY_TEXT);
    ghost var part := MajorsAt(page, reading, run);
    CollectEnds(found, starts, part);
    for i := 0 to |starts|
      invariant more == found + Collect(starts[..i], part)
    {
      CollectNext(found, starts, i, part);
      StartIsWithin(TextOf(mapped), MAJOR_STUDY_TEXT, starts[i]);
      more := EnterMajorAt(page, reading, run, mapped, starts[i], more);
    }
  }

  method CollectMajors(page: Page, reading: Reading) returns (found: seq<Candidate>)
    ensures found == MajorCandidates(page, reading)
  {
    hide Collect, MajorsOfRun;
    found := [];
    ghost var part := MajorsOfLine(page, reading);
    CollectEnds([], reading.lines, part);
    for i := 0 to |reading.lines|
      invariant found == Collect(reading.lines[..i], part)
    {
      CollectTurn(reading.lines, i, part);
      var line := reading.lines[i];
      if !(0.18 <= CenterY(line.box) <= 0.84) {
        continue;
      }
      ghost var before := found;
      CollectEnds(before, line.runs, MajorsOfRun(page, reading));
      for k := 0 to |line.runs|
        invariant found == before + Collect(line.runs[..k], MajorsOfRun(page, reading))
      {
        CollectNext(before, line.runs, k, MajorsOfRun(page, reading));
        found := EnterMajors(page, reading, line.runs[k], found);
      }
    }
  }
}
