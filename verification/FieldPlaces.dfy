/** Which stretches of a page are candidates for a field: exactly those that stand where the rule of the field says. */
module FieldPlaces {
  import opened Basics
  import opened Collections
  import opened Sorting
  import opened ReadingOrder
  import opened ReadingLoops
  import opened MappedText
  import opened TemplateMatch
  import opened CapturePages
  import opened FieldCandidates
  import opened NoticeExtraction
  import opened FieldText

  // ---------------------------------------------------------------- one stretch of text

  predicate Blank(mapped: Mapped, a: int, b: int) {
    0 <= a <= b <= |mapped| && forall i :: a <= i < b ==> StructuralAt(mapped, i)
  }

  /** The engine is sure enough of every span from the first to the last of stretch and anchor. */
  predicate Certain(mapped: Mapped, b: Bounds, s: nat, e: nat)
    requires WithinText(b, mapped) && s <= e <= |mapped|
  {
    var from, to := (if s <= b.anchorStart then s else b.anchorStart), (if e >= b.anchorEnd then e else b.anchorEnd);
    forall x :: x in SourceSpans(mapped[from..to]) ==> x.score == None || x.score.value >= 0.5
  }

  /** The candidate reads the stretch from s to e, all of the proposed one but the punctuation around it. */
  predicate Reads(page: Page, mapped: Mapped, b: Bounds, isValid: string -> bool, s: nat, e: nat, c: Candidate)
    requires WithinText(b, mapped)
  {
    && b.start <= s < e <= b.end && Blank(mapped, b.start, s) && Blank(mapped, e, b.end)
    && !StructuralAt(mapped, s) && !StructuralAt(mapped, e - 1)
    && c.value == NormalizeCandidateWhitespace(SourceValue(mapped[s..e])) && isValid(c.value)
    && c.spans == SourceSpans(mapped[s..e]) && |c.spans| <= 32 && Certain(mapped, b, s, e)
    && c.resultId == page.resultId && c.frameId == page.frameId && c.box == SourceBox(c.spans)
    && c.key.resultId == page.resultId && c.key.spanIds == IdsOfSpans(c.spans)
    && c.key.anchorSpanIds == IdsOfSpans(SourceSpans(mapped[b.anchorStart..b.anchorEnd]))
    && c.key.start == s && c.key.end == e && c.key.anchorStart == b.anchorStart && c.key.anchorEnd == b.anchorEnd
  }

  ghost predicate IsRead(page: Page, mapped: Mapped, b: Bounds, isValid: string -> bool, c: Candidate) {
    WithinText(b, mapped) && exists s, e :: Reads(page, mapped, b, isValid, s, e, c)
  }

  lemma SpansBehind(mapped: Mapped)
    ensures RisingIds(SourceSpans(mapped)) && (mapped != [] ==> SourceSpans(mapped) != [])
    ensures SortedSpans(SourceSpans(mapped)) == SourceSpans(mapped)
  {
    hide Sort, Latest;
    SortedSpansAre(SpansOf(mapped));
    if mapped != [] {
      assert SpansOf(mapped)[0] in SpansOf(mapped);
    }
    SortedAgain(SourceSpans(mapped));
  }

  /** There is one way to leave out the punctuation around a stretch. */
  lemma TrimmedIs(mapped: Mapped, start: nat, end: nat, s: nat, e: nat)
    requires start <= s < e <= end <= |mapped|
    ensures Trimmed(mapped, start, end) == (s, e)
            <==> Blank(mapped, start, s) && Blank(mapped, e, end) && !StructuralAt(mapped, s) && !StructuralAt(mapped, e - 1)
  {
    var t := Trimmed(mapped, start, end);
    hide Trimmed;
    if Blank(mapped, start, s) && Blank(mapped, e, end) && !StructuralAt(mapped, s) && !StructuralAt(mapped, e - 1) {
      hide StructuralAt;
      assert t.0 <= s && e <= t.1;
    }
  }

  /** A candidate is made of a stretch exactly when it reads what is left of it without its punctuation. */
  lemma CandidateIs(page: Page, mapped: Mapped, b: Bounds, isValid: string -> bool, c: Candidate)
    requires WithinText(b, mapped)
    ensures CandidateAt(page, mapped, b, isValid) == Some(c) <==> IsRead(page, mapped, b, isValid, c)
  {
    hide SortedSpans, SourceSpans, SourceValue, SourceBox, Trimmed, StructuralAt, Blank;
    var t := Trimmed(mapped, b.start, b.end);
    if t.0 < t.1 {
      StretchIs(page, mapped, b, isValid, c, t.0, t.1);
    }
    forall s: nat, e: nat | Reads(page, mapped, b, isValid, s, e, c) ensures t == (s, e) {
      TrimmedIs(mapped, b.start, b.end, s, e);
    }
  }

  lemma CertainIs(mapped: Mapped, b: Bounds, s: nat, e: nat)
    requires WithinText(b, mapped) && s <= e <= |mapped|
    ensures Certain(mapped, b, s, e)
            <==> ScoresQualify(SourceSpans(mapped[Least(s, b.anchorStart)..Greatest(e, b.anchorEnd)]))
  {
    hide SourceSpans;
    var spans := SourceSpans(mapped[Least(s, b.anchorStart)..Greatest(e, b.anchorEnd)]);
    assert forall i :: 0 <= i < |spans| ==> spans[i] in spans;
  }

  lemma StretchIs(page: Page, mapped: Mapped, b: Bounds, isValid: string -> bool, c: Candidate, s: nat, e: nat)
    requires WithinText(b, mapped) && s < e && Trimmed(mapped, b.start, b.end) == (s, e)
    ensures CandidateAt(page, mapped, b, isValid) == Some(c) <==> Reads(page, mapped, b, isValid, s, e, c)
  {
    TrimmedIs(mapped, b.start, b.end, s, e);
    SpansBehind(mapped[s..e]);
    SpansBehind(mapped[Least(s, b.anchorStart)..Greatest(e, b.anchorEnd)]);
    CertainIs(mapped, b, s, e);
    hide Certain, ScoresQualify, Least, Greatest, IdsOfSpans;
    hide SortedSpans, SourceSpans, SourceValue, SourceBox, Trimmed, StructuralAt, Blank;
  }

  // ---------------------------------------------------------------- names

  /** A run of a line whose centre is between two heights. */
  predicate RunIn(page: Page, run: Run, low: real, high: real) {
    var lines := Reconstruct(page.spans).lines;
    run.lineIndex < |lines| && run in lines[run.lineIndex].runs && low <= CenterY(lines[run.lineIndex].box) <= high
  }

  lemma RunInIs(page: Page, run: Run, low: real, high: real)
    ensures RunIn(page, run, low, high)
            <==> exists line :: line in Reconstruct(page.spans).lines && run in line.runs && low <= CenterY(line.box) <= high
  {
    hide Reconstruct;
    ReconstructedIsIndexed(page.spans);
    var lines := Reconstruct(page.spans).lines;
    forall line | line in lines && run in line.runs ensures run.lineIndex < |lines| && lines[run.lineIndex] == line {
      var i :| 0 <= i < |lines| && lines[i] == line;
      var k :| 0 <= k < |line.runs| && line.runs[k] == run;
      assert lines[i].runs[k].lineIndex == i;
    }
  }

  predicate NameCharacter(mapped: Mapped, i: int) {
    0 <= i < |mapped| && (IsHan(mapped[i].sourceCharacter) || mapped[i].sourceCharacter == '\U{00B7}')
  }

  /** Both characters in one span, or their spans no further apart than a name and its salutation may be. */
  predicate CloseTo(mapped: Mapped, before: int, behind: int) {
    && 0 <= before < |mapped| && 0 <= behind < |mapped|
    && var (left, right) := (mapped[before].span, mapped[behind].span);
       || left == right
       || (GeometryOf(left).Some? && GeometryOf(right).Some?
           && var (l, r) := (BoxOf(left.polygon), BoxOf(right.polygon));
              (r.minX - l.maxX <= 0.045 || r.minX - l.maxX <= 1.25 * Height(l) || r.minX - l.maxX <= 1.25 * Height(r)))
  }

  /** All name characters before a salutation, with nothing but punctuation before them and behind the salutation. */
  predicate NamePlace(mapped: Mapped, b: Bounds) {
    var text := TextOf(mapped);
    && OccursAt(text, SALUTATION_TEXT, b.anchorStart) && b.anchorEnd == b.anchorStart + |SALUTATION_TEXT|
    && b.start <= b.end == b.anchorStart
    && (forall i :: b.start <= i < b.end ==> NameCharacter(mapped, i)) && !NameCharacter(mapped, b.start - 1)
    && Punctuation(text, 0, b.start) && Punctuation(text, b.anchorEnd, |text|)
    && CloseTo(mapped, b.end - 1, b.anchorStart)
  }

  ghost predicate NameReads(page: Page, run: Run, b: Bounds, c: Candidate) {
    var mapped := PathCharacters([run]);
    RunIn(page, run, 0.08, 0.48) && NamePlace(mapped, b) && IsRead(page, mapped, b, NameIsValid, c)
  }

  lemma OnlyStructuralIs(text: string, a: nat, b: nat)
    requires a <= b <= |text|
    ensures OnlyStructural(text[a..b]) <==> Punctuation(text, a, b)
  {
    hide STRUCTURAL_CHARACTERS;
    var part := text[a..b];
    assert forall i :: 0 <= i < |part| ==> part[i] == text[a + i];
    if OnlyStructural(part) {
      forall i | a <= i < b ensures text[i] in STRUCTURAL_CHARACTERS {
        assert part[i - a] in STRUCTURAL_CHARACTERS;
      }
    }
  }

  lemma {:induction false} NameStartIs(mapped: Mapped, at: nat, start: nat)
    requires start <= at <= |mapped|
    ensures NameStart(mapped, at) == start
            <==> (forall i :: start <= i < at ==> NameCharacter(mapped, i)) && !NameCharacter(mapped, start - 1)
  {
    var s := NameStart(mapped, at);
    hide NameStart;
    assert s < start ==> NameCharacter(mapped, start - 1);
    assert start < s ==> start <= s - 1 < at && !NameCharacter(mapped, s - 1);
  }

  lemma GapIs(mapped: Mapped, at: nat)
    requires at < |mapped|
    ensures DirectGapIsBounded(mapped, at, at) <==> CloseTo(mapped, at - 1, at)
  {
    hide GeometryOf, BoxOf;
  }

  /** The one place before a salutation. */
  function NameBounds(mapped: Mapped, at: nat): Bounds
    requires at <= |mapped|
  {
    Bounds(NameStart(mapped, at), at, at, at + |SALUTATION_TEXT|)
  }

  lemma NamePlaceIs(mapped: Mapped, at: nat)
    requires OccursAt(TextOf(mapped), SALUTATION_TEXT, at)
    ensures at < at + |SALUTATION_TEXT| <= |mapped|
    ensures var (text, start, end) := (TextOf(mapped), NameStart(mapped, at), at + |SALUTATION_TEXT|);
            NamePlace(mapped, NameBounds(mapped, at))
            <==> OnlyStructural(text[..start]) && OnlyStructural(text[end..]) && DirectGapIsBounded(mapped, at, at)
  {
    assert |SALUTATION_TEXT| > 0;
    OccursWithin(TextOf(mapped), SALUTATION_TEXT, at);
    hide SALUTATION_TEXT, OccursAt, OnlyStructural, Punctuation, CloseTo, DirectGapIsBounded, NameStart, NameCharacter;
    var text, start, end := TextOf(mapped), NameStart(mapped, at), at + |SALUTATION_TEXT|;
    OnlyStructuralIs(text, 0, start);
    OnlyStructuralIs(text, end, |text|);
    assert text[0..start] == text[..start] && text[end..|text|] == text[end..];
    GapIs(mapped, at);
    NameStartIs(mapped, at, start);
  }

  lemma OneNamePlace(mapped: Mapped, b: Bounds)
    requires NamePlace(mapped, b)
    ensures b.anchorStart <= |mapped| && b == NameBounds(mapped, b.anchorStart)
  {
    OccursWithin(TextOf(mapped), SALUTATION_TEXT, b.anchorStart);
    hide OccursAt, Punctuation, CloseTo, NameCharacter, NameStart, SALUTATION_TEXT;
    NameStartIs(mapped, b.anchorStart, b.start);
  }

  lemma NameAtIs(page: Page, mapped: Mapped, at: nat, c: Candidate)
    requires OccursAt(TextOf(mapped), SALUTATION_TEXT, at)
    ensures c in NameAt(page, mapped)(at)
            <==> exists b: Bounds :: b.anchorStart == at && NamePlace(mapped, b) && IsRead(page, mapped, b, NameIsValid, c)
  {
    hide SALUTATION_TEXT, OccursAt, IsRead, CandidateAt, OnlyStructural, DirectGapIsBounded, NameStart, NamePlace;
    NamePlaceIs(mapped, at);
    var b0 := NameBounds(mapped, at);
    CandidateIs(page, mapped, b0, NameIsValid, c);
    forall b: Bounds | b.anchorStart == at && NamePlace(mapped, b) ensures b == b0 {
      OneNamePlace(mapped, b);
    }
  }

  /** The name candidates of a page are exactly the readings of name places in its salutation region. */
  lemma NamesAre(page: Page, c: Candidate)
    ensures c in NameCandidates(page, Reconstruct(page.spans)) <==> exists run, b :: NameReads(page, run, b, c)
  {
    hide Reconstruct, Collect, NameAt, PathCharacters, OccursAt, Starts, RunIn, NamePlace, IsRead;
    var lines := Reconstruct(page.spans).lines;
    assert SALUTATION_TEXT != "";
    if c in NameCandidates(page, Reconstruct(page.spans)) {
      var line := Contributor(lines, NamesOfLine(page), c);
      var run := Contributor(line.runs, NamesOfRun(page), c);
      var mapped := PathCharacters([run]);
      var at := Contributor(Starts(TextOf(mapped), SALUTATION_TEXT), NameAt(page, mapped), c);
      StartsAre(TextOf(mapped), SALUTATION_TEXT, at);
      RunInIs(page, run, 0.08, 0.48);
      NameAtIs(page, mapped, at, c);
      var b: Bounds :| b.anchorStart == at && NamePlace(mapped, b) && IsRead(page, mapped, b, NameIsValid, c);
      assert NameReads(page, run, b, c);
    }
    if run, b :| NameReads(page, run, b, c) {
      var mapped := PathCharacters([run]);
      assert OccursAt(TextOf(mapped), SALUTATION_TEXT, b.anchorStart) by { NamePlaceOccurs(mapped, b); }
      StartsAre(TextOf(mapped), SALUTATION_TEXT, b.anchorStart);
      NameAtIs(page, mapped, b.anchorStart, c);
      CollectMember(Starts(TextOf(mapped), SALUTATION_TEXT), NameAt(page, mapped), b.anchorStart, c);
      RunInIs(page, run, 0.08, 0.48);
      var line :| line in lines && run in line.runs && 0.08 <= CenterY(line.box) <= 0.48;
      CollectMember(line.runs, NamesOfRun(page), run, c);
      CollectMember(lines, NamesOfLine(page), line, c);
    }
  }

  lemma NamePlaceOccurs(mapped: Mapped, b: Bounds)
    requires NamePlace(mapped, b)
    ensures OccursAt(TextOf(mapped), SALUTATION_TEXT, b.anchorStart)
  {
    hide OccursAt;
  }

  // ---------------------------------------------------------------- provinces

  /** A committee with its approval close behind, nothing but punctuation between. */
  predicate Approved(text: string, from: nat, suffix: string, at: nat, approval: nat) {
    var behind := at + |suffix|;
    FirstAt(text, suffix, from, at) && FirstAt(text, APPROVAL_TEXT, behind, approval)
    && approval <= behind + 8 && Punctuation(text, behind, approval)
  }

  /** From right behind the mention of the way, with only punctuation before it, to a committee that approved. */
  predicate ProvincePlace(mapped: Mapped, k: nat, b: Bounds) {
    var text := TextOf(mapped);
    && OccursAt(text, BY_TEXT, b.anchorStart) && Punctuation(text, 0, b.anchorStart) && b.start == b.anchorStart + 1
    && k < |PROVINCE_COMMITTEE_SUFFIXES| && b.anchorEnd >= |APPROVAL_TEXT|
    && Approved(text, b.start, PROVINCE_COMMITTEE_SUFFIXES[k], b.end, b.anchorEnd - |APPROVAL_TEXT|)
  }

  ghost predicate ProvinceReads(page: Page, run: Run, path: seq<Run>, k: nat, b: Bounds, c: Candidate) {
    && RunIn(page, run, 0.12, 0.72) && (exists q: nat :: OccursAt(TextOf(PathCharacters([run])), BY_TEXT, q))
    && path in ForwardPaths(Reconstruct(page.spans), run, 3)
    && ProvincePlace(PathCharacters(path), k, b) && IsRead(page, PathCharacters(path), b, ProvinceIsValid, c)
  }

  /** The one place from a mention of the way to a kind of committee, if there is any. */
  lemma ProvinceBeforeReads(page: Page, mapped: Mapped, at: nat, k: nat, c: Candidate) returns (b: Bounds)
    requires OccursAt(TextOf(mapped), BY_TEXT, at) && Punctuation(TextOf(mapped), 0, at)
    requires k < |PROVINCE_COMMITTEE_SUFFIXES| && c in ProvinceBefore(page, mapped, at)(PROVINCE_COMMITTEE_SUFFIXES[k])
    ensures b.anchorStart == at && ProvincePlace(mapped, k, b) && IsRead(page, mapped, b, ProvinceIsValid, c)
  {
    hide PROVINCE_COMMITTEE_SUFFIXES, BY_TEXT, APPROVAL_TEXT, IsRead, CandidateAt, OnlyStructural, Punctuation, FirstFrom, OccursAt;
    hide FirstAt;
    var text, suffix := TextOf(mapped), PROVINCE_COMMITTEE_SUFFIXES[k];
    var first := FirstFrom(text, suffix, at + 1).value;
    var behind := first + |suffix|;
    var approval := FirstFrom(text, APPROVAL_TEXT, behind).value;
    FirstIsWithin(text, suffix, at + 1);
    FirstIsWithin(text, APPROVAL_TEXT, behind);
    OnlyStructuralIs(text, behind, approval);
    b := Bounds(at + 1, first, at, approval + |APPROVAL_TEXT|);
    CandidateIs(page, mapped, b, ProvinceIsValid, c);
    FirstIs(text, suffix, at + 1, first);
    FirstIs(text, APPROVAL_TEXT, behind, approval);
  }

  lemma ProvinceIsProposed(page: Page, mapped: Mapped, k: nat, b: Bounds, c: Candidate)
    requires ProvincePlace(mapped, k, b) && IsRead(page, mapped, b, ProvinceIsValid, c)
    ensures c in ProvinceBefore(page, mapped, b.anchorStart)(PROVINCE_COMMITTEE_SUFFIXES[k])
  {
    hide PROVINCE_COMMITTEE_SUFFIXES, BY_TEXT, APPROVAL_TEXT, CandidateAt, OnlyStructural, Punctuation, FirstFrom, FirstAt, OccursAt;
    hide Reads;
    ApprovalsAre(mapped, k, b);
    var text, suffix := TextOf(mapped), PROVINCE_COMMITTEE_SUFFIXES[k];
    var behind, approval := b.end + |suffix|, b.anchorEnd - |APPROVAL_TEXT|;
    FirstIsWithin(text, suffix, b.start);
    FirstIsWithin(text, APPROVAL_TEXT, behind);
    OnlyStructuralIs(text, behind, approval);
    CandidateIs(page, mapped, b, ProvinceIsValid, c);
    assert b == Bounds(b.anchorStart + 1, b.end, b.anchorStart, approval + |APPROVAL_TEXT|);
    assert approval <= behind + 8 && OnlyStructural(text[behind..approval]);
    hide ProvincePlace, IsRead;
    assert FirstFrom(text, suffix, b.anchorStart + 1) == Some(b.end) && FirstFrom(text, APPROVAL_TEXT, behind) == Some(approval);
    assert ProvinceBefore(page, mapped, b.anchorStart)(suffix) == AsList(CandidateAt(page, mapped, b, ProvinceIsValid));
  }

  lemma ApprovalsAre(mapped: Mapped, k: nat, b: Bounds)
    requires ProvincePlace(mapped, k, b)
    ensures var text, suffix := TextOf(mapped), PROVINCE_COMMITTEE_SUFFIXES[k];
            && b.start == b.anchorStart + 1 && b.anchorEnd >= |APPROVAL_TEXT| && FirstFrom(text, suffix, b.start) == Some(b.end)
            && FirstFrom(text, APPROVAL_TEXT, b.end + |suffix|) == Some(b.anchorEnd - |APPROVAL_TEXT|)
  {
    hide PROVINCE_COMMITTEE_SUFFIXES, BY_TEXT, APPROVAL_TEXT, Punctuation, FirstFrom, FirstAt, OccursAt;
    var text, suffix := TextOf(mapped), PROVINCE_COMMITTEE_SUFFIXES[k];
    FirstIs(text, suffix, b.start, b.end);
    FirstIs(text, APPROVAL_TEXT, b.end + |suffix|, b.anchorEnd - |APPROVAL_TEXT|);
  }

  lemma ProvinceFrom(page: Page, mapped: Mapped, at: nat, c: Candidate) returns (k: nat, b: Bounds)
    requires OccursAt(TextOf(mapped), BY_TEXT, at) && c in ProvincesAt(page, mapped)(at)
    ensures ProvincePlace(mapped, k, b) && IsRead(page, mapped, b, ProvinceIsValid, c)
  {
    hide Collect, ProvinceBefore, OccursAt, ProvincePlace, IsRead, OnlyStructural, Punctuation, BY_TEXT, PROVINCE_COMMITTEE_SUFFIXES;
    OnlyStructuralIs(TextOf(mapped), 0, at);
    assert TextOf(mapped)[0..at] == TextOf(mapped)[..at];
    var suffix := Contributor(PROVINCE_COMMITTEE_SUFFIXES, ProvinceBefore(page, mapped, at), c);
    k :| 0 <= k < |PROVINCE_COMMITTEE_SUFFIXES| && PROVINCE_COMMITTEE_SUFFIXES[k] == suffix;
    b := ProvinceBeforeReads(page, mapped, at, k, c);
  }

  lemma ProvinceFromPath(page: Page, path: seq<Run>, c: Candidate) returns (k: nat, b: Bounds)
    requires c in ProvincesOnPath(page)(path)
    ensures ProvincePlace(PathCharacters(path), k, b) && IsRead(page, PathCharacters(path), b, ProvinceIsValid, c)
  {
    assert BY_TEXT != "";
    hide Collect, ProvincesAt, PathCharacters, OccursAt, Starts, ProvincePlace, IsRead, BY_TEXT;
    var mapped := PathCharacters(path);
    var at := Contributor(Starts(TextOf(mapped), BY_TEXT), ProvincesAt(page, mapped), c);
    StartsAre(TextOf(mapped), BY_TEXT, at);
    k, b := ProvinceFrom(page, mapped, at, c);
  }

  lemma ProvinceBegins(mapped: Mapped, k: nat, b: Bounds)
    requires ProvincePlace(mapped, k, b)
    ensures OccursAt(TextOf(mapped), BY_TEXT, b.anchorStart) && Punctuation(TextOf(mapped), 0, b.anchorStart)
    ensures b.anchorStart <= |mapped| && k < |PROVINCE_COMMITTEE_SUFFIXES|
  {
    OccursWithin(TextOf(mapped), BY_TEXT, b.anchorStart);
    hide OccursAt, Punctuation, Approved, PROVINCE_COMMITTEE_SUFFIXES, BY_TEXT;
  }

  lemma ProvinceToPath(page: Page, path: seq<Run>, k: nat, b: Bounds, c: Candidate)
    requires ProvincePlace(PathCharacters(path), k, b) && IsRead(page, PathCharacters(path), b, ProvinceIsValid, c)
    ensures c in ProvincesOnPath(page)(path)
  {
    assert BY_TEXT != "";
    hide Collect, ProvinceBefore, PathCharacters, OccursAt, Starts, ProvincePlace, IsRead, OnlyStructural, Punctuation, BY_TEXT;
    hide PROVINCE_COMMITTEE_SUFFIXES;
    var mapped, at := PathCharacters(path), b.anchorStart;
    var text := TextOf(mapped);
    ProvinceBegins(mapped, k, b);
    StartsAre(text, BY_TEXT, at);
    OnlyStructuralIs(text, 0, at);
    assert text[0..at] == text[..at];
    ProvinceIsProposed(page, mapped, k, b, c);
    CollectMember(PROVINCE_COMMITTEE_SUFFIXES, ProvinceBefore(page, mapped, at), PROVINCE_COMMITTEE_SUFFIXES[k], c);
    CollectMember(Starts(text, BY_TEXT), ProvincesAt(page, mapped), at, c);
  }

  lemma SomeStart(text: string, anchor: string)
    requires anchor != ""
    ensures Starts(text, anchor) != [] <==> exists q: nat :: OccursAt(text, anchor, q)
  {
    hide OccursAt;
    if Starts(text, anchor) != [] {
      assert OccursAt(text, anchor, Starts(text, anchor)[0]);
    }
  }

  lemma ProvinceIsRead(page: Page, c: Candidate) returns (run: Run, path: seq<Run>, k: nat, b: Bounds)
    requires c in ProvinceCandidates(page, Reconstruct(page.spans))
    ensures ProvinceReads(page, run, path, k, b, c)
  {
    assert BY_TEXT != "";
    hide Reconstruct, Collect, PathCharacters, OccursAt, Starts, RunIn, ProvincePlace, IsRead, ForwardPaths, ProvincesOnPath, BY_TEXT;
    var reading := Reconstruct(page.spans);
    var line := Contributor(reading.lines, ProvincesOfLine(page, reading), c);
    run := Contributor(line.runs, ProvincesOfRun(page, reading), c);
    path := Contributor(ForwardPaths(reading, run, 3), ProvincesOnPath(page), c);
    RunInIs(page, run, 0.12, 0.72);
    SomeStart(TextOf(PathCharacters([run])), BY_TEXT);
    k, b := ProvinceFromPath(page, path, c);
  }

  lemma ProvinceIsCollected(page: Page, run: Run, path: seq<Run>, k: nat, b: Bounds, c: Candidate)
    requires ProvinceReads(page, run, path, k, b, c)
    ensures c in ProvinceCandidates(page, Reconstruct(page.spans))
  {
    assert BY_TEXT != "";
    hide Reconstruct, Collect, PathCharacters, OccursAt, Starts, RunIn, ProvincePlace, IsRead, ForwardPaths, ProvincesOnPath, BY_TEXT;
    var reading := Reconstruct(page.spans);
    ProvinceToPath(page, path, k, b, c);
    CollectMember(ForwardPaths(reading, run, 3), ProvincesOnPath(page), path, c);
    SomeStart(TextOf(PathCharacters([run])), BY_TEXT);
    ProvinceOfRun(page, run, c);
  }

  lemma ProvinceOfRun(page: Page, run: Run, c: Candidate)
    requires RunIn(page, run, 0.12, 0.72) && c in ProvincesOfRun(page, Reconstruct(page.spans))(run)
    ensures c in ProvinceCandidates(page, Reconstruct(page.spans))
  {
    hide Reconstruct, Collect, RunIn, ProvincesOfRun;
    var reading := Reconstruct(page.spans);
    RunInIs(page, run, 0.12, 0.72);
    var line :| line in reading.lines && run in line.runs && 0.12 <= CenterY(line.box) <= 0.72;
    CollectMember(line.runs, ProvincesOfRun(page, reading), run, c);
    CollectMember(reading.lines, ProvincesOfLine(page, reading), line, c);
  }

  /** The province candidates of a page are exactly the readings of province places on paths from its region. */
  lemma ProvincesAre(page: Page, c: Candidate)
    ensures c in ProvinceCandidates(page, Reconstruct(page.spans))
            <==> exists run, path, k, b :: ProvinceReads(page, run, path, k, b, c)
  {
    hide ProvinceReads, ProvinceCandidates, Reconstruct;
    if c in ProvinceCandidates(page, Reconstruct(page.spans)) {
      var run, path, k, b := ProvinceIsRead(page, c);
    }
    if run, path, k, b :| ProvinceReads(page, run, path, k, b, c) {
      ProvinceIsCollected(page, run, path, k, b, c);
    }
  }

  // ---------------------------------------------------------------- colleges

  /** The end of the first academic unit behind a position, before any mention of a study. */
  ghost predicate FirstUnitEnd(text: string, start: nat, end: nat, e: nat) {
    exists stop: nat :: StopsAt(text, start, end, stop) && UnitEndsAt(text, start, stop, e)
                        && forall x: nat :: start <= x < e ==> !UnitEndsAt(text, start, stop, x)
  }

  lemma FirstUnitIs(text: string, start: nat, end: nat, e: nat)
    requires start <= end <= |text|
    ensures CollegeEnd(text, start, end) == Some(e) <==> FirstUnitEnd(text, start, end, e)
  {
    var s := StopExists(text, start, end);
    hide CollegeEnd, StopsAt, UnitEndsAt;
    forall stop: nat | StopsAt(text, start, end, stop) ensures
        CollegeEnd(text, start, end) == Some(e)
        <==> UnitEndsAt(text, start, stop, e) && forall x: nat :: start <= x < e ==> !UnitEndsAt(text, start, stop, x) {
      CollegeEndIs(text, start, end, stop, e);
    }
  }

  /** Read from behind an admission to the end of the first academic unit. */
  ghost predicate CollegeReads(page: Page, path: seq<Run>, at: nat, e: nat, c: Candidate) {
    var mapped, behind := PathCharacters(path), at + |ADMISSION_TEXT|;
    behind <= |mapped| && FirstUnitEnd(TextOf(mapped), behind, |mapped|, e)
    && IsRead(page, mapped, Bounds(behind, e, at, behind), CollegeIsValid, c)
  }

  /** On the line of an admission that opens its sentence, or else, if the line ends with it, on the next. */
  ghost predicate CollegeStandsBy(page: Page, run: Run, at: nat, c: Candidate) {
    var mapped, behind := PathCharacters([run]), at + |ADMISSION_TEXT|;
    && RunIn(page, run, 0.18, 0.82) && OccursAt(TextOf(mapped), ADMISSION_TEXT, at) && OpensAt(TextOf(mapped), at)
    && if exists e, d :: CollegeReads(page, [run], at, e, d) then exists e :: CollegeReads(page, [run], at, e, c)
       else
         && Punctuation(TextOf(mapped), behind, |mapped|)
         && exists next, e :: next in RelatedRuns(Reconstruct(page.spans), run, run.lineIndex + 1)
                              && CollegeReads(page, [run, next], at, e, c)
  }

  lemma CollegeInIs(page: Page, path: seq<Run>, at: nat, c: Candidate)
    ensures c in CollegeIn(page, PathCharacters(path), at, at + |ADMISSION_TEXT|)
            <==> exists e :: CollegeReads(page, path, at, e, c)
  {
    hide CandidateAt, PathCharacters, ADMISSION_TEXT, CollegeEnd, IsRead, FirstUnitEnd;
    var mapped, behind := PathCharacters(path), at + |ADMISSION_TEXT|;
    if behind <= |mapped| {
      CollegeEndIsWithin(TextOf(mapped), behind, |mapped|);
      var end := CollegeEnd(TextOf(mapped), behind, |mapped|);
      forall e: nat | true ensures end == Some(e) <==> FirstUnitEnd(TextOf(mapped), behind, |mapped|, e) {
        FirstUnitIs(TextOf(mapped), behind, |mapped|, e);
      }
      if end.Some? {
        CandidateIs(page, mapped, Bounds(behind, end.value, at, behind), CollegeIsValid, c);
        assert CollegeReads(page, path, at, end.value, c) <==> c in CollegeIn(page, mapped, at, behind);
      }
    }
  }

  lemma CollegesAtIs(page: Page, run: Run, at: nat, c: Candidate)
    requires OccursAt(TextOf(PathCharacters([run])), ADMISSION_TEXT, at) && RunIn(page, run, 0.18, 0.82)
    ensures c in CollegesAt(page, Reconstruct(page.spans), run)(at) <==> CollegeStandsBy(page, run, at, c)
  {
    hide Reconstruct, Collect, CollegeIn, CollegeReads, PathCharacters, RelatedRuns, OpensSentence, ADMISSION_TEXT, OccursAt;
    hide RunIn, OnlyStructural, Punctuation, OpensAt;
    var reading, mapped, behind := Reconstruct(page.spans), PathCharacters([run]), at + |ADMISSION_TEXT|;
    var text := TextOf(mapped);
    OccursWithin(text, ADMISSION_TEXT, at);
    OpensSentenceIs(text, at);
    OnlyStructuralIs(text, behind, |text|);
    assert text[behind..|text|] == text[behind..];
    var same := CollegeIn(page, mapped, at, behind);
    forall d: Candidate | true ensures d in same <==> exists e :: CollegeReads(page, [run], at, e, d) {
      CollegeInIs(page, [run], at, d);
    }
    assert same != [] ==> same[0] in same;
    if e, d :| CollegeReads(page, [run], at, e, d) { assert d in same; }
    CollegesAcrossAre(page, run, at, c);
    assert (exists e, d :: CollegeReads(page, [run], at, e, d)) <==> same != [];
    assert |text| == |mapped|;
    hide CollegeAcross, Collect;
  }

  lemma CollegesAcrossAre(page: Page, run: Run, at: nat, c: Candidate)
    ensures var related := RelatedRuns(Reconstruct(page.spans), run, run.lineIndex + 1);
            c in Collect(related, CollegeAcross(page, run, at))
            <==> exists next, e :: next in related && CollegeReads(page, [run, next], at, e, c)
  {
    hide Reconstruct, Collect, CollegeIn, CollegeReads, RelatedRuns, PathCharacters, ADMISSION_TEXT;
    var related := RelatedRuns(Reconstruct(page.spans), run, run.lineIndex + 1);
    if c in Collect(related, CollegeAcross(page, run, at)) {
      var next := Contributor(related, CollegeAcross(page, run, at), c);
      CollegeInIs(page, [run, next], at, c);
      var e :| CollegeReads(page, [run, next], at, e, c);
    }
    if next, e :| next in related && CollegeReads(page, [run, next], at, e, c) {
      CollegeInIs(page, [run, next], at, c);
      CollectMember(related, CollegeAcross(page, run, at), next, c);
    }
  }

  /** The college candidates of a page are exactly what stands so by some admission of its region. */
  lemma CollegesAre(page: Page, c: Candidate)
    ensures c in CollegeCandidates(page, Reconstruct(page.spans)) <==> exists run, at :: CollegeStandsBy(page, run, at, c)
  {
    assert ADMISSION_TEXT != "";
    hide Reconstruct, Collect, CollegesAt, PathCharacters, OccursAt, Starts, RunIn, ADMISSION_TEXT, CollegeStandsBy;
    if c in CollegeCandidates(page, Reconstruct(page.spans)) {
      var run, at := CollegeStands(page, c);
    }
    if run, at :| CollegeStandsBy(page, run, at, c) {
      CollegeIsCollected(page, run, at, c);
    }
  }

  lemma CollegeStands(page: Page, c: Candidate) returns (run: Run, at: nat)
    requires c in CollegeCandidates(page, Reconstruct(page.spans))
    ensures CollegeStandsBy(page, run, at, c)
  {
    assert ADMISSION_TEXT != "";
    hide Reconstruct, Collect, CollegesAt, PathCharacters, OccursAt, Starts, RunIn, ADMISSION_TEXT, CollegeStandsBy;
    var reading := Reconstruct(page.spans);
    var line := Contributor(reading.lines, CollegesOfLine(page, reading), c);
    run := Contributor(line.runs, CollegesOfRun(page, reading), c);
    at := Contributor(Starts(TextOf(PathCharacters([run])), ADMISSION_TEXT), CollegesAt(page, reading, run), c);
    RunInIs(page, run, 0.18, 0.82);
    StartsAre(TextOf(PathCharacters([run])), ADMISSION_TEXT, at);
    CollegesAtIs(page, run, at, c);
  }

  lemma CollegeIsCollected(page: Page, run: Run, at: nat, c: Candidate)
    requires CollegeStandsBy(page, run, at, c)
    ensures c in CollegeCandidates(page, Reconstruct(page.spans))
  {
    assert ADMISSION_TEXT != "";
    hide Reconstruct, Collect, CollegesAt, PathCharacters, OccursAt, Starts, RunIn, ADMISSION_TEXT, CollegeStandsBy;
    var reading := Reconstruct(page.spans);
    CollegeIsAnchored(page, run, at, c);
    CollegesAtIs(page, run, at, c);
    StartsAre(TextOf(PathCharacters([run])), ADMISSION_TEXT, at);
    CollectMember(Starts(TextOf(PathCharacters([run])), ADMISSION_TEXT), CollegesAt(page, reading, run), at, c);
    CollegeOfRun(page, run, c);
  }

  lemma CollegeOfRun(page: Page, run: Run, c: Candidate)
    requires RunIn(page, run, 0.18, 0.82) && c in CollegesOfRun(page, Reconstruct(page.spans))(run)
    ensures c in CollegeCandidates(page, Reconstruct(page.spans))
  {
    hide Reconstruct, Collect, RunIn, CollegesOfRun;
    var reading := Reconstruct(page.spans);
    RunInIs(page, run, 0.18, 0.82);
    var line :| line in reading.lines && run in line.runs && 0.18 <= CenterY(line.box) <= 0.82;
    CollectMember(line.runs, CollegesOfRun(page, reading), run, c);
    CollectMember(reading.lines, CollegesOfLine(page, reading), line, c);
  }

  lemma CollegeIsAnchored(page: Page, run: Run, at: nat, c: Candidate)
    requires CollegeStandsBy(page, run, at, c)
    ensures RunIn(page, run, 0.18, 0.82) && OccursAt(TextOf(PathCharacters([run])), ADMISSION_TEXT, at)
  {
    hide RunIn, OccursAt, OpensAt, Punctuation, CollegeReads;
  }

  // ---------------------------------------------------------------- majors

  /** A major begins behind the college of the last admission before its study, or else with its line. */
  ghost predicate MajorBegins(text: string, end: nat, start: nat) {
    if exists at: nat :: LastAdmission(text, end, at) then
      exists at: nat :: LastAdmission(text, end, at) && BehindUnit(text, at + |ADMISSION_TEXT|, end, start)
    else start == 0
  }

  /** The end of the first academic unit behind a position, or else the beginning of the line. */
  ghost predicate BehindUnit(text: string, from: nat, end: nat, start: nat) {
    if exists e :: FirstUnitEnd(text, from, end, e) then FirstUnitEnd(text, from, end, start) else start == 0
  }

  lemma BehindUnitIs(text: string, from: nat, end: nat, start: nat)
    requires from <= end <= |text|
    ensures var college := CollegeEnd(text, from, end);
            start == (if college.Some? then college.value else 0) <==> BehindUnit(text, from, end, start)
  {
    hide CollegeEnd, FirstUnitEnd;
    var college := CollegeEnd(text, from, end);
    forall e: nat | true ensures college == Some(e) <==> FirstUnitEnd(text, from, end, e) {
      FirstUnitIs(text, from, end, e);
    }
    assert college.Some? ==> FirstUnitEnd(text, from, end, college.value);
  }

  /** The two characters belong to different spans, or a space stands between them. */
  predicate SetApart(mapped: Mapped, before: int, behind: int) {
    && 0 <= before < |mapped| && 0 <= behind < |mapped|
    && var (c, a) := (mapped[before], mapped[behind]);
       c.span != a.span || exists i :: c.sourceOffset < i < a.sourceOffset && i < |c.span.text| && IsSpace(c.span.text[i])
  }

  ghost predicate MajorReads(page: Page, path: seq<Run>, b: Bounds, c: Candidate) {
    var mapped := PathCharacters(path);
    SetApart(mapped, b.end - 1, b.anchorStart) && IsRead(page, mapped, b, MajorIsValid, c)
  }

  /** A run that reads as the beginning of a major, and neither as a college nor as part of a sentence. */
  ghost predicate HoldsMajor(previous: Run) {
    var mapped := PathCharacters([previous]);
    var value := NormalizeCandidateWhitespace(SourceValue(mapped));
    && MajorFragmentIsValid(value) && !CollegeIsValid(value)
    && forall q: nat :: !OccursAt(TextOf(mapped), ADMISSION_TEXT, q) && !OccursAt(TextOf(mapped), MAJOR_STUDY_TEXT, q)
  }

  /** Before a study that ends its line: what the line holds of it, if that is a major, or else with the line before. */
  ghost predicate MajorStandsBy(page: Page, run: Run, at: nat, start: nat, c: Candidate) {
    var mapped, end := PathCharacters([run]), at + |MAJOR_STUDY_TEXT|;
    && RunIn(page, run, 0.18, 0.84) && OccursAt(TextOf(mapped), MAJOR_STUDY_TEXT, at) && Punctuation(TextOf(mapped), end, |mapped|)
    && start <= at <= |mapped| && MajorBegins(TextOf(mapped), at, start)
    && if MajorIsValid(NormalizeCandidateWhitespace(SourceValue(mapped[start..at])))
       then MajorReads(page, [run], Bounds(start, at, at, end), c)
       else
         exists previous :: previous in RelatedRuns(Reconstruct(page.spans), run, run.lineIndex - 1)
                            && MajorFollows(page, previous, run, at, c)
  }

  ghost predicate MajorFollows(page: Page, previous: Run, run: Run, at: nat, c: Candidate) {
    var p := |PathCharacters([previous])| + at;
    HoldsMajor(previous) && MajorReads(page, [previous, run], Bounds(0, p, p, p + |MAJOR_STUDY_TEXT|), c)
  }

  lemma MajorBeginsIs(text: string, end: nat, start: nat)
    requires end <= |text|
    ensures MajorStart(text, end) == start <==> MajorBegins(text, end, start)
  {
    hide MajorStart, CollegeEnd, BehindUnit, LastAdmission;
    if at: nat :| LastAdmission(text, end, at) {
      MajorStartBehind(text, end, at, start);
      forall other: nat | LastAdmission(text, end, other) ensures other == at {
        OneLast(text, end, at, other);
      }
    } else {
      NoAdmission(text, end);
      MajorStartAlone(text, end);
    }
  }

  lemma MajorStartBehind(text: string, end: nat, at: nat, start: nat)
    requires LastAdmission(text, end, at)
    ensures MajorStart(text, end) == start <==> BehindUnit(text, at + |ADMISSION_TEXT|, end, start)
  {
    MajorStartIs(text, end, at);
    AdmissionIsBefore(text, end, at);
    BehindUnitIs(text, at + |ADMISSION_TEXT|, end, start);
    hide *;
  }

  lemma AdmissionIsBefore(text: string, end: nat, at: nat)
    requires LastAdmission(text, end, at)
    ensures at + |ADMISSION_TEXT| <= end
  {
  }

  lemma OneLast(text: string, end: nat, at: nat, other: nat)
    requires LastAdmission(text, end, at) && LastAdmission(text, end, other)
    ensures other == at
  {
    hide OccursAt, ADMISSION_TEXT;
  }

  /** If there is any admission before a position there is a last one. */
  lemma NoAdmission(text: string, end: nat)
    requires end <= |text| && forall at: nat :: !LastAdmission(text, end, at)
    ensures forall q: nat :: q + |ADMISSION_TEXT| <= end ==> !OccursAt(text, ADMISSION_TEXT, q)
  {
    hide OccursAt, ADMISSION_TEXT;
    if q: nat :| q + |ADMISSION_TEXT| <= end && OccursAt(text, ADMISSION_TEXT, q) {
      LastFrom(text, end, q);
    }
  }

  lemma {:induction false} LastFrom(text: string, end: nat, q: nat)
    requires end <= |text| && q + |ADMISSION_TEXT| <= end && OccursAt(text, ADMISSION_TEXT, q)
    ensures exists at: nat :: LastAdmission(text, end, at)
    decreases end - q
  {
    hide OccursAt, ADMISSION_TEXT;
    if p: nat :| q < p && p + |ADMISSION_TEXT| <= end && OccursAt(text, ADMISSION_TEXT, p) {
      LastFrom(text, end, p);
    } else {
      assert LastAdmission(text, end, q);
    }
  }

  lemma MajorAtIs(page: Page, path: seq<Run>, b: Bounds, c: Candidate)
    ensures c in MajorAt(page, PathCharacters(path), b) <==> MajorReads(page, path, b, c)
  {
    hide PathCharacters, CandidateAt, IsRead;
    var mapped := PathCharacters(path);
    assert HasSourceBoundary(mapped, b.end, b.anchorStart) <==> SetApart(mapped, b.end - 1, b.anchorStart);
    hide HasSourceBoundary, SetApart;
    if WithinText(b, mapped) {
      CandidateIs(page, mapped, b, MajorIsValid, c);
    } else {
      assert !IsRead(page, mapped, b, MajorIsValid, c) by { NotRead(page, mapped, b, MajorIsValid, c); }
    }
  }

  lemma NotRead(page: Page, mapped: Mapped, b: Bounds, isValid: string -> bool, c: Candidate)
    requires !WithinText(b, mapped)
    ensures !IsRead(page, mapped, b, isValid, c)
  {
    hide Reads;
  }

  lemma MayPrecedeIs(previous: Run)
    ensures MayPrecede(previous) <==> HoldsMajor(previous)
  {
    assert ADMISSION_TEXT != "" && MAJOR_STUDY_TEXT != "";
    hide PathCharacters, Starts, OccursAt, SourceValue, ADMISSION_TEXT, MAJOR_STUDY_TEXT;
    var text := TextOf(PathCharacters([previous]));
    SomeStart(text, ADMISSION_TEXT);
    SomeStart(text, MAJOR_STUDY_TEXT);
  }

  lemma MajorAcrossIs(page: Page, previous: Run, run: Run, at: nat, c: Candidate)
    ensures c in MajorAcross(page, run, at)(previous) <==> MajorFollows(page, previous, run, at, c)
  {
    hide PathCharacters, MajorAt, MajorReads, MayPrecede, HoldsMajor, MAJOR_STUDY_TEXT;
    MayPrecedeIs(previous);
    var p := |PathCharacters([previous])| + at;
    MajorAtIs(page, [previous, run], Bounds(0, p, p, p + |MAJOR_STUDY_TEXT|), c);
  }

  lemma MajorsAcrossAre(page: Page, run: Run, at: nat, c: Candidate)
    ensures var related := RelatedRuns(Reconstruct(page.spans), run, run.lineIndex - 1);
            c in Collect(related, MajorAcross(page, run, at))
            <==> exists previous :: previous in related && MajorFollows(page, previous, run, at, c)
  {
    hide Reconstruct, Collect, MajorAcross, MajorFollows, RelatedRuns;
    var related := RelatedRuns(Reconstruct(page.spans), run, run.lineIndex - 1);
    if c in Collect(related, MajorAcross(page, run, at)) {
      var previous := Contributor(related, MajorAcross(page, run, at), c);
      MajorAcrossIs(page, previous, run, at, c);
    }
    if previous :| previous in related && MajorFollows(page, previous, run, at, c) {
      MajorAcrossIs(page, previous, run, at, c);
      CollectMember(related, MajorAcross(page, run, at), previous, c);
    }
  }

  lemma MajorsAtIs(page: Page, run: Run, at: nat, c: Candidate)
    requires OccursAt(TextOf(PathCharacters([run])), MAJOR_STUDY_TEXT, at) && RunIn(page, run, 0.18, 0.84)
    ensures c in MajorsAt(page, Reconstruct(page.spans), run)(at) <==> exists start :: MajorStandsBy(page, run, at, start, c)
  {
    hide Reconstruct, Collect, MajorAt, MajorReads, PathCharacters, RelatedRuns, MAJOR_STUDY_TEXT, OccursAt, RunIn, OnlyStructural;
    hide Punctuation, MajorBegins, MajorFollows, MajorAcross, MajorStart;
    var mapped, end := PathCharacters([run]), at + |MAJOR_STUDY_TEXT|;
    var text := TextOf(mapped);
    OccursWithin(text, MAJOR_STUDY_TEXT, at);
    OnlyStructuralIs(text, end, |text|);
    assert text[end..|text|] == text[end..];
    MajorStartIsWithin(text, at);
    var start := MajorStart(text, at);
    forall s: nat | true ensures s == start <==> MajorBegins(text, at, s) { MajorBeginsIs(text, at, s); }
    MajorAtIs(page, [run], Bounds(start, at, at, end), c);
    MajorsAcrossAre(page, run, at, c);
    var all := MajorsAt(page, Reconstruct(page.spans), run)(at);
    if Punctuation(text, end, |text|) {
      if MajorIsValid(WholeValue(mapped[start..at])) {
        assert all == MajorAt(page, mapped, Bounds(start, at, at, end));
        assert MajorStandsBy(page, run, at, start, c) <==> c in all;
      } else {
        assert MajorStandsBy(page, run, at, start, c) <==> c in all;
      }
    } else {
      assert all == [];
    }
  }

  lemma MajorStands(page: Page, c: Candidate) returns (run: Run, at: nat, start: nat)
    requires c in MajorCandidates(page, Reconstruct(page.spans))
    ensures MajorStandsBy(page, run, at, start, c)
  {
    assert MAJOR_STUDY_TEXT != "";
    hide Reconstruct, Collect, MajorsAt, PathCharacters, OccursAt, Starts, RunIn, MAJOR_STUDY_TEXT, MajorStandsBy;
    var reading := Reconstruct(page.spans);
    var line := Contributor(reading.lines, MajorsOfLine(page, reading), c);
    run := Contributor(line.runs, MajorsOfRun(page, reading), c);
    at := Contributor(Starts(TextOf(PathCharacters([run])), MAJOR_STUDY_TEXT), MajorsAt(page, reading, run), c);
    RunInIs(page, run, 0.18, 0.84);
    StartsAre(TextOf(PathCharacters([run])), MAJOR_STUDY_TEXT, at);
    MajorsAtIs(page, run, at, c);
    start :| MajorStandsBy(page, run, at, start, c);
  }

  lemma MajorOfRun(page: Page, run: Run, c: Candidate)
    requires RunIn(page, run, 0.18, 0.84) && c in MajorsOfRun(page, Reconstruct(page.spans))(run)
    ensures c in MajorCandidates(page, Reconstruct(page.spans))
  {
    hide Reconstruct, Collect, RunIn, MajorsOfRun;
    var reading := Reconstruct(page.spans);
    RunInIs(page, run, 0.18, 0.84);
    var line :| line in reading.lines && run in line.runs && 0.18 <= CenterY(line.box) <= 0.84;
    CollectMember(line.runs, MajorsOfRun(page, reading), run, c);
    CollectMember(reading.lines, MajorsOfLine(page, reading), line, c);
  }

  lemma MajorIsAnchored(page: Page, run: Run, at: nat, start: nat, c: Candidate)
    requires MajorStandsBy(page, run, at, start, c)
    ensures RunIn(page, run, 0.18, 0.84) && OccursAt(TextOf(PathCharacters([run])), MAJOR_STUDY_TEXT, at)
  {
    hide RunIn, OccursAt, Punctuation, MajorBegins, MajorReads, MajorFollows;
  }

  lemma MajorIsCollected(page: Page, run: Run, at: nat, start: nat, c: Candidate)
    requires MajorStandsBy(page, run, at, start, c)
    ensures c in MajorCandidates(page, Reconstruct(page.spans))
  {
    assert MAJOR_STUDY_TEXT != "";
    hide Reconstruct, Collect, MajorsAt, PathCharacters, OccursAt, Starts, RunIn, MAJOR_STUDY_TEXT, MajorStandsBy;
    MajorIsAnchored(page, run, at, start, c);
    MajorsAtIs(page, run, at, c);
    StartsAre(TextOf(PathCharacters([run])), MAJOR_STUDY_TEXT, at);
    CollectMember(Starts(TextOf(PathCharacters([run])), MAJOR_STUDY_TEXT), MajorsAt(page, Reconstruct(page.spans), run), at, c);
    MajorOfRun(page, run, c);
  }

  /** The major candidates of a page are exactly what stands so by some study of its region. */
  lemma MajorsAre(page: Page, c: Candidate)
    ensures c in MajorCandidates(page, Reconstruct(page.spans)) <==> exists run, at, start :: MajorStandsBy(page, run, at, start, c)
  {
    hide Reconstruct, MajorCandidates, MajorStandsBy;
    if c in MajorCandidates(page, Reconstruct(page.spans)) {
      var run, at, start := MajorStands(page, c);
    }
    if run, at, start :| MajorStandsBy(page, run, at, start, c) {
      MajorIsCollected(page, run, at, start, c);
    }
  }

  // ---------------------------------------------------------------- what a field of a notice says

  /** The page offers the candidate for the field, by the rule of that field. */
  ghost predicate Offers(field: FieldName, page: Page, c: Candidate) {
    match field
    case Name => exists run, b :: NameReads(page, run, b, c)
    case SourceProvince => exists run, path, k, b :: ProvinceReads(page, run, path, k, b, c)
    case College => exists run, at :: CollegeStandsBy(page, run, at, c)
    case Major => exists run, at, start :: MajorStandsBy(page, run, at, start, c)
  }

  lemma CandidatesAre(field: FieldName, page: Page, c: Candidate)
    ensures c in Candidates(field, page) <==> Offers(field, page, c)
  {
    hide Reconstruct, NameReads, ProvinceReads, CollegeStandsBy, MajorStandsBy;
    hide NameCandidates, ProvinceCandidates, CollegeCandidates, MajorCandidates;
    match field
    case Name => NamesAre(page, c);
    case SourceProvince => ProvincesAre(page, c);
    case College => CollegesAre(page, c);
    case Major => MajorsAre(page, c);
  }
}
