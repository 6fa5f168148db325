/** The field candidates of one page: which stretches of its text the four rules propose, with their source spans. */
module FieldCandidates {
  import opened Basics
  import opened Collections
  import opened Sorting
  import opened ReadingOrder
  import opened ReadingLoops
  import opened MappedText
  import opened TemplateMatch
  import opened CapturePages

  const MIN_RAW_ENGINE_SCORE: real := 0.50
  const MAX_SOURCE_SPANS_PER_FIELD: nat := 32

  const STRUCTURAL_CHARACTERS: string := ":\U{FF1A},\U{FF0C}\U{3002};\U{FF1B}\U{3001}"
  const MIDDLE_DOT: char := '\U{00B7}'
  const BY_TEXT: string := "\U{7ECF}"
  const APPROVAL_TEXT: string := "\U{6279}\U{51C6}"

  const PROVINCE_COMMITTEE_SUFFIXES: seq<string> := [
    "\U{7701}(\U{5E02}\U{3001}\U{81EA}\U{6CBB}\U{533A})" + COMMITTEE_TEXT,
    "\U{7701}\U{5E02}\U{81EA}\U{6CBB}\U{533A}" + COMMITTEE_TEXT,
    "\U{81EA}\U{6CBB}\U{533A}" + COMMITTEE_TEXT,
    "\U{7701}" + COMMITTEE_TEXT,
    "\U{5E02}" + COMMITTEE_TEXT]

  const ACADEMIC_UNIT_SUFFIXES: seq<string> := [
    "\U{6559}\U{5B66}\U{90E8}", "\U{7814}\U{7A76}\U{9662}", "\U{5B66}\U{9662}", "\U{4E66}\U{9662}", "\U{5B66}\U{90E8}",
    "\U{4E2D}\U{5FC3}", "\U{5927}\U{7C7B}", "\U{7CFB}", "\U{90E8}"]

  /** Character classes, whitespace normalisation and the validators of values; these tables are not modelled. */
  const IsHan: char -> bool
  const IsSpace: char -> bool
  const NormalizeCandidateWhitespace: string -> string
  const NameIsValid: string -> bool
  const ProvinceIsValid: string -> bool
  const CollegeIsValid: string -> bool
  const MajorIsValid: string -> bool
  const MajorFragmentIsValid: string -> bool

  datatype OccurrenceKey = OccurrenceKey(
    resultId: nat, spanIds: seq<nat>, anchorSpanIds: seq<nat>, start: nat, end: nat, anchorStart: nat, anchorEnd: nat)

  datatype Candidate = Candidate(
    value: string, spans: seq<Span>, box: Option<Box>, resultId: nat, frameId: nat, key: OccurrenceKey)

  // ---------------------------------------------------------------- one candidate

  predicate OnlyStructural(text: string) {
    forall i :: 0 <= i < |text| ==> text[i] in STRUCTURAL_CHARACTERS
  }

  predicate AsciiAlphanumeric(c: char) {
    '0' <= c <= '9' || 'a' <= c <= 'z' || 'A' <= c <= 'Z'
  }

  predicate SpaceBefore(c: MappedCharacter) {
    1 <= c.sourceOffset <= |c.span.text| && IsUnicodeWhitespace(c.span.text[c.sourceOffset - 1])
  }

  /** The source text of some characters, with a space kept between Latin letters or digits. */
  function SourceValue(mapped: Mapped): string {
    if mapped == [] then ""
    else
      var k := |mapped| - 1;
      SourceValue(mapped[..k])
      + (if k > 0 && SpaceBefore(mapped[k]) && AsciiAlphanumeric(mapped[k - 1].sourceCharacter)
            && AsciiAlphanumeric(mapped[k].sourceCharacter) then " " else "")
      + [mapped[k].sourceCharacter]
  }

  predicate ScoresQualify(spans: seq<Span>) {
    forall i :: 0 <= i < |spans| ==> spans[i].score.None? || spans[i].score.value >= MIN_RAW_ENGINE_SCORE
  }

  predicate StructuralAt(mapped: Mapped, i: int) {
    0 <= i < |mapped| && mapped[i].sourceCharacter in STRUCTURAL_CHARACTERS
  }

  /** The bounds without structural characters at either end. */
  function Trimmed(mapped: Mapped, start: nat, end: nat): (b: (nat, nat))
    requires start <= end <= |mapped|
    ensures start <= b.0 <= b.1 <= end
    ensures b.0 < b.1 ==> !StructuralAt(mapped, b.0) && !StructuralAt(mapped, b.1 - 1)
    ensures forall i :: start <= i < b.0 || b.1 <= i < end ==> StructuralAt(mapped, i)
    decreases end - start
  {
    if start < end && StructuralAt(mapped, start) then Trimmed(mapped, start + 1, end)
    else if start < end && StructuralAt(mapped, end - 1) then Trimmed(mapped, start, end - 1)
    else (start, end)
  }

  method TrimStructuralBounds(mapped: Mapped, start: nat, end: nat) returns (first: nat, last: nat)
    requires start <= end <= |mapped|
    ensures (first, last) == Trimmed(mapped, start, end)
  {
    first, last := start, end;
    while first < last && mapped[first].sourceCharacter in STRUCTURAL_CHARACTERS
      invariant start <= first <= last
      invariant Trimmed(mapped, first, last) == Trimmed(mapped, start, end)
    {
      first := first + 1;
    }
    while last > first && mapped[last - 1].sourceCharacter in STRUCTURAL_CHARACTERS
      invariant start <= first <= last <= end
      invariant first < last ==> !StructuralAt(mapped, first)
      invariant Trimmed(mapped, first, last) == Trimmed(mapped, start, end)
    {
      last := last - 1;
    }
  }

  function Least(a: nat, b: nat): nat {
    if a <= b then a else b
  }

  function Greatest(a: nat, b: nat): nat {
    if a >= b then a else b
  }

  /** A proposed stretch of text and the anchor it was found by. */
  datatype Bounds = Bounds(start: nat, end: nat, anchorStart: nat, anchorEnd: nat)

  predicate WithinText(b: Bounds, mapped: Mapped) {
    b.start <= b.end <= |mapped| && b.anchorStart <= b.anchorEnd <= |mapped|
  }

  function CandidateAt(page: Page, mapped: Mapped, b: Bounds, isValid: string -> bool): Option<Candidate>
    requires WithinText(b, mapped)
  {
    var (start, end) := Trimmed(mapped, b.start, b.end);
    if start >= end then None
    else
      var value := NormalizeCandidateWhitespace(SourceValue(mapped[start..end]));
      var spans := SortedSpans(SourceSpans(mapped[start..end]));
      var authority := SortedSpans(SourceSpans(mapped[Least(start, b.anchorStart)..Greatest(end, b.anchorEnd)]));
      if !isValid(value) || spans == [] || |spans| > MAX_SOURCE_SPANS_PER_FIELD || !ScoresQualify(authority) then None
      else
        Some(Candidate(value, spans, SourceBox(spans), page.resultId, page.frameId,
          OccurrenceKey(page.resultId, IdsOfSpans(spans), IdsOfSpans(SourceSpans(mapped[b.anchorStart..b.anchorEnd])),
                        start, end, b.anchorStart, b.anchorEnd)))
  }

  // ---------------------------------------------------------------- the name before its salutation

  /** The start of the stretch of name characters before a position. */
  function NameStart(mapped: Mapped, at: nat): (start: nat)
    requires at <= |mapped|
    ensures start <= at
    ensures start > 0 ==> !IsHan(mapped[start - 1].sourceCharacter) && mapped[start - 1].sourceCharacter != MIDDLE_DOT
    ensures forall i :: start <= i < at ==> IsHan(mapped[i].sourceCharacter) || mapped[i].sourceCharacter == MIDDLE_DOT
  {
    if at > 0 && (IsHan(mapped[at - 1].sourceCharacter) || mapped[at - 1].sourceCharacter == MIDDLE_DOT)
    then NameStart(mapped, at - 1) else at
  }

  predicate DirectGapIsBounded(mapped: Mapped, candidateEnd: nat, anchorStart: nat) {
    && candidateEnd > 0 && anchorStart < |mapped| && candidateEnd <= |mapped|
    && var (c, a) := (mapped[candidateEnd - 1].span, mapped[anchorStart].span);
       c == a
       || (GeometryOf(c).Some? && GeometryOf(a).Some?
           && var (cb, ab) := (BoxOf(c.polygon), BoxOf(a.polygon));
              ab.minX - cb.maxX <= Max(0.045, 1.25 * Max(Height(cb), Height(ab))))
  }

  function NameAt(page: Page, mapped: Mapped): nat -> seq<Candidate> {
    (at: nat) =>
      var end := at + |SALUTATION_TEXT|;
      if end > |mapped| then []
      else
        var start := NameStart(mapped, at);
        var text := TextOf(mapped);
        if OnlyStructural(text[..start]) && OnlyStructural(text[end..]) && DirectGapIsBounded(mapped, at, at)
        then AsList(CandidateAt(page, mapped, Bounds(start, at, at, end), NameIsValid)) else []
  }

  function NamesOfRun(page: Page): Run -> seq<Candidate> {
    (run: Run) =>
      var mapped := PathCharacters([run]);
      Collect(Starts(TextOf(mapped), SALUTATION_TEXT), NameAt(page, mapped))
  }

  function NamesOfLine(page: Page): Line -> seq<Candidate> {
    (line: Line) => if 0.08 <= CenterY(line.box) <= 0.48 then Collect(line.runs, NamesOfRun(page)) else []
  }

  function NameCandidates(page: Page, reading: Reading): seq<Candidate> {
    Collect(reading.lines, NamesOfLine(page))
  }

  // ---------------------------------------------------------------- the province before its committee

  /** The first position at or after an offset where a text occurs. */
  function FirstFrom(text: string, anchor: string, offset: nat): (at: Option<nat>)
    ensures at.Some? ==> at.value >= offset && OccursAt(text, anchor, at.value)
    decreases |text| - offset
  {
    if offset + |anchor| > |text| then None
    else if OccursAt(text, anchor, offset) then Some(offset)
    else if offset == |text| then None else FirstFrom(text, anchor, offset + 1)
  }

  function ProvinceBefore(page: Page, mapped: Mapped, at: nat): string -> seq<Candidate> {
    (suffix: string) =>
      var text := TextOf(mapped);
      var suffixStart := FirstFrom(text, suffix, at + 1);
      if suffixStart.None? then []
      else
        var committeeEnd := suffixStart.value + |suffix|;
        var approval := FirstFrom(text, APPROVAL_TEXT, committeeEnd);
        if approval.None? || approval.value - committeeEnd > 8 || !OnlyStructural(text[committeeEnd..approval.value]) then []
        else
          AsList(CandidateAt(page, mapped,
            Bounds(at + 1, suffixStart.value, at, approval.value + |APPROVAL_TEXT|), ProvinceIsValid))
  }

  function ProvincesAt(page: Page, mapped: Mapped): nat -> seq<Candidate> {
    (at: nat) =>
      if at <= |mapped| && OnlyStructural(TextOf(mapped)[..at])
      then Collect(PROVINCE_COMMITTEE_SUFFIXES, ProvinceBefore(page, mapped, at)) else []
  }

  function ProvincesOnPath(page: Page): seq<Run> -> seq<Candidate> {
    (path: seq<Run>) =>
      var mapped := PathCharacters(path);
      Collect(Starts(TextOf(mapped), BY_TEXT), ProvincesAt(page, mapped))
  }

  function ProvincesOfRun(page: Page, reading: Reading): Run -> seq<Candidate> {
    (run: Run) =>
      if Starts(TextOf(PathCharacters([run])), BY_TEXT) == [] then []
      else Collect(ForwardPaths(reading, run, 3), ProvincesOnPath(page))
  }

  function ProvincesOfLine(page: Page, reading: Reading): Line -> seq<Candidate> {
    (line: Line) => if 0.12 <= CenterY(line.box) <= 0.72 then Collect(line.runs, ProvincesOfRun(page, reading)) else []
  }

  function ProvinceCandidates(page: Page, reading: Reading): seq<Candidate> {
    Collect(reading.lines, ProvincesOfLine(page, reading))
  }

  // ---------------------------------------------------------------- the college behind its anchor

  function MinOf(s: seq<nat>): (m: nat)
    requires s != []
    ensures m in s && forall x :: x in s ==> m <= x
  {
    var last := s[|s| - 1];
    if |s| == 1 then last
    else
      assert s == s[..|s| - 1] + [last];
      Least(MinOf(s[..|s| - 1]), last)
  }

  /** Where a suffix ends that does not begin the text. */
  function SuffixEnd(suffix: string): nat -> seq<nat> {
    (p: nat) => if p > 0 then [p + |suffix|] else []
  }

  function SuffixEnds(text: string): string -> seq<nat> {
    (suffix: string) => Collect(Starts(text, suffix), SuffixEnd(suffix))
  }

  /** The first end of an academic unit's name between two positions, before any mention of studying a major. */
  function CollegeEnd(text: string, start: nat, end: nat): Option<nat>
    requires start <= end <= |text|
  {
    var value := text[start..end];
    var major := FirstFrom(value, MAJOR_STUDY_TEXT, 0);
    var bounded := if major.Some? then value[..major.value] else value;
    var ends := Collect(ACADEMIC_UNIT_SUFFIXES, SuffixEnds(bounded));
    if ends == [] then None else Some(start + MinOf(ends))
  }

  lemma SuffixEndsAreWithin(text: string, suffixes: seq<string>, e: nat)
    requires e in Collect(suffixes, SuffixEnds(text))
    ensures 0 < e <= |text|
  {
    hide Collect, Starts;
    CollectHas(suffixes, SuffixEnds(text), e);
    var i :| 0 <= i < |suffixes| && e in SuffixEnds(text)(suffixes[i]);
    var starts := Starts(text, suffixes[i]);
    CollectHas(starts, SuffixEnd(suffixes[i]), e);
    var k :| 0 <= k < |starts| && e in SuffixEnd(suffixes[i])(starts[k]);
    assert OccursAt(text, suffixes[i], starts[k]);
  }

  lemma CollegeEndIsWithin(text: string, start: nat, end: nat)
    requires start <= end <= |text|
    ensures CollegeEnd(text, start, end).Some? ==> start < CollegeEnd(text, start, end).value <= end
  {
    hide Collect, FirstFrom, OccursAt, ACADEMIC_UNIT_SUFFIXES, MAJOR_STUDY_TEXT;
    var value := text[start..end];
    var major := FirstFrom(value, MAJOR_STUDY_TEXT, 0);
    assert major.Some? ==> major.value <= |value| by { FirstIsWithin(value, MAJOR_STUDY_TEXT, 0); }
    var bounded := if major.Some? then value[..major.value] else value;
    var ends := Collect(ACADEMIC_UNIT_SUFFIXES, SuffixEnds(bounded));
    if ends != [] {
      SuffixEndsAreWithin(bounded, ACADEMIC_UNIT_SUFFIXES, MinOf(ends));
    }
  }

  lemma FirstIsWithin(text: string, anchor: string, offset: nat)
    ensures FirstFrom(text, anchor, offset).Some? ==> FirstFrom(text, anchor, offset).value + |anchor| <= |text|
  {
    hide FirstFrom;
  }

  function CollegeIn(page: Page, mapped: Mapped, anchorStart: nat, anchorEnd: nat): seq<Candidate> {
    if !(anchorStart <= anchorEnd <= |mapped|) then []
    else
      CollegeEndIsWithin(TextOf(mapped), anchorEnd, |mapped|);
      var end := CollegeEnd(TextOf(mapped), anchorEnd, |mapped|);
      if end.None? then []
      else AsList(CandidateAt(page, mapped, Bounds(anchorEnd, end.value, anchorStart, anchorEnd), CollegeIsValid))
  }

  function CollegeAcross(page: Page, run: Run, at: nat): Run -> seq<Candidate> {
    (next: Run) => CollegeIn(page, PathCharacters([run, next]), at, at + |ADMISSION_TEXT|)
  }

  predicate OpensSentence(prefix: string) {
    var stripped := StripStructural(prefix);
    stripped == "" || (|stripped| >= |APPROVAL_TEXT| && stripped[|stripped| - |APPROVAL_TEXT|..] == APPROVAL_TEXT)
  }

  function StripStructural(text: string): string {
    if text != "" && text[0] in STRUCTURAL_CHARACTERS then StripStructural(text[1..])
    else if text != "" && text[|text| - 1] in STRUCTURAL_CHARACTERS then StripStructural(text[..|text| - 1])
    else text
  }

  /** On the anchor's own line if there is a candidate there, and otherwise across the line break. */
  function CollegesAt(page: Page, reading: Reading, run: Run): nat -> seq<Candidate> {
    (at: nat) =>
      var mapped := PathCharacters([run]);
      var text, end := TextOf(mapped), at + |ADMISSION_TEXT|;
      if end > |mapped| || !OpensSentence(text[..at]) then []
      else
        var same := CollegeIn(page, mapped, at, end);
        if same != [] then same
        else if !OnlyStructural(text[end..]) then []
        else Collect(RelatedRuns(reading, run, run.lineIndex + 1), CollegeAcross(page, run, at))
  }

  function CollegesOfRun(page: Page, reading: Reading): Run -> seq<Candidate> {
    (run: Run) => Collect(Starts(TextOf(PathCharacters([run])), ADMISSION_TEXT), CollegesAt(page, reading, run))
  }

  function CollegesOfLine(page: Page, reading: Reading): Line -> seq<Candidate> {
    (line: Line) => if 0.18 <= CenterY(line.box) <= 0.82 then Collect(line.runs, CollegesOfRun(page, reading)) else []
  }

  function CollegeCandidates(page: Page, reading: Reading): seq<Candidate> {
    Collect(reading.lines, CollegesOfLine(page, reading))
  }

  // ---------------------------------------------------------------- the major before its anchor

  /** Where the major may begin: behind the college if the admission sentence stands before it. */
  function MajorStart(text: string, end: nat): nat
    requires end <= |text|
  {
    var anchors := Starts(text[..end], ADMISSION_TEXT);
    if anchors == [] then 0
    else
      var after := anchors[|anchors| - 1] + |ADMISSION_TEXT|;
      if after > end then 0
      else
        var college := CollegeEnd(text, after, end);
        if college.Some? then college.value else 0
  }

  lemma MajorStartIsWithin(text: string, end: nat)
    requires end <= |text|
    ensures MajorStart(text, end) <= end
  {
    hide CollegeEnd, Starts, ADMISSION_TEXT;
    var anchors := Starts(text[..end], ADMISSION_TEXT);
    if anchors != [] && anchors[|anchors| - 1] + |ADMISSION_TEXT| <= end {
      CollegeEndIsWithin(text, anchors[|anchors| - 1] + |ADMISSION_TEXT|, end);
    }
  }

  predicate HasSourceBoundary(mapped: Mapped, candidateEnd: nat, anchorStart: nat) {
    && candidateEnd > 0 && anchorStart < |mapped| && candidateEnd <= |mapped|
    && var (c, a) := (mapped[candidateEnd - 1], mapped[anchorStart]);
       || c.span != a.span
       || exists i :: c.sourceOffset < i < a.sourceOffset && i < |c.span.text| && IsSpace(c.span.text[i])
  }

  function MajorAt(page: Page, mapped: Mapped, b: Bounds): seq<Candidate> {
    if !WithinText(b, mapped) || !HasSourceBoundary(mapped, b.end, b.anchorStart) then []
    else AsList(CandidateAt(page, mapped, b, MajorIsValid))
  }

  function WholeValue(mapped: Mapped): string {
    NormalizeCandidateWhitespace(SourceValue(mapped))
  }

  /** A run of the line before that may hold the first part of the major. */
  predicate MayPrecede(previous: Run) {
    var mapped := PathCharacters([previous]);
    && !CollegeIsValid(WholeValue(mapped)) && MajorFragmentIsValid(WholeValue(mapped))
    && Starts(TextOf(mapped), ADMISSION_TEXT) == [] && Starts(TextOf(mapped), MAJOR_STUDY_TEXT) == []
  }

  function MajorAcross(page: Page, run: Run, at: nat): Run -> seq<Candidate> {
    (previous: Run) =>
      if !MayPrecede(previous) then []
      else
        var offset := |PathCharacters([previous])|;
        MajorAt(page, PathCharacters([previous, run]),
                Bounds(0, offset + at, offset + at, offset + at + |MAJOR_STUDY_TEXT|))
  }

  function MajorsAt(page: Page, reading: Reading, run: Run): nat -> seq<Candidate> {
    (at: nat) =>
      var mapped := PathCharacters([run]);
      var text, end := TextOf(mapped), at + |MAJOR_STUDY_TEXT|;
      if end > |mapped| || !OnlyStructural(text[end..]) then []
      else
        MajorStartIsWithin(text, at);
        var start := MajorStart(text, at);
        if MajorIsValid(WholeValue(mapped[start..at])) then MajorAt(page, mapped, Bounds(start, at, at, end))
        else Collect(RelatedRuns(reading, run, run.lineIndex - 1), MajorAcross(page, run, at))
  }

  function MajorsOfRun(page: Page, reading: Reading): Run -> seq<Candidate> {
    (run: Run) => Collect(Starts(TextOf(PathCharacters([run])), MAJOR_STUDY_TEXT), MajorsAt(page, reading, run))
  }

  function MajorsOfLine(page: Page, reading: Reading): Line -> seq<Candidate> {
    (line: Line) => if 0.18 <= CenterY(line.box) <= 0.84 then Collect(line.runs, MajorsOfRun(page, reading)) else []
  }

  function MajorCandidates(page: Page, reading: Reading): seq<Candidate> {
    Collect(reading.lines, MajorsOfLine(page, reading))
  }
}
