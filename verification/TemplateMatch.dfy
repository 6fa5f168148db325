/** The body anchors of one page: what is found of each, and the search for the longest signature among them. */
module TemplateMatch {
  import opened Basics
  import opened Collections
  import opened Sorting
  import opened ReadingOrder
  import opened ReadingLoops
  import opened MappedText
  import opened AnchorSearch

  const MAX_BODY_ANCHOR_OCCURRENCES_PER_ID: nat := 16

  datatype Rule = Rule(anchor: AnchorId, text: string, minimumCenterY: real, maximumCenterY: real, maximumLines: nat)

  const SALUTATION_TEXT: string := "\U{540C}\U{5B66}"
  const COMMITTEE_TEXT: string := "\U{9AD8}\U{7B49}\U{5B66}\U{6821}\U{62DB}\U{751F}\U{59D4}\U{5458}\U{4F1A}"
  const ADMISSION_TEXT: string := "\U{4F60}\U{88AB}\U{5F55}\U{53D6}\U{5230}\U{6211}\U{6821}"
  const MAJOR_STUDY_TEXT: string := "\U{4E13}\U{4E1A}\U{5B66}\U{4E60}"

  const SALUTATION_RULE: Rule := Rule(Salutation, SALUTATION_TEXT, 0.12, 0.46, 1)
  const COMMITTEE_RULE: Rule := Rule(Committee, COMMITTEE_TEXT, 0.20, 0.60, 3)
  const ADMISSION_RULE: Rule := Rule(Admission, ADMISSION_TEXT, 0.28, 0.70, 2)
  const MAJOR_STUDY_RULE: Rule := Rule(MajorStudy, MAJOR_STUDY_TEXT, 0.38, 0.78, 2)

  const BODY_ANCHOR_RULES: seq<Rule> := [SALUTATION_RULE, COMMITTEE_RULE, ADMISSION_RULE, MAJOR_STUDY_RULE]

  /** Whether the text around an occurrence fits the rule; the Chinese text checks are not modelled. */
  const ContextIsValid: (Rule, Mapped, nat, nat) -> bool

  // ---------------------------------------------------------------- where an anchor stands

  /** The reading position before or after a character: line, approximate x, span and offset. */
  function PositionKey(mapped: Mapped, index: nat, afterCharacter: bool): (key: seq<real>)
    requires index < |mapped|
    ensures |key| == 4
  {
    var c := mapped[index];
    var box := BoxOf(c.span.polygon);
    var length := if |c.span.text| == 0 then 1 else |c.span.text|;
    var offset := c.sourceOffset + (if afterCharacter then 1 else 0);
    [c.lineIndex as real, box.minX + Width(box) * ((offset as real) / (length as real)), c.span.id as real, offset as real]
  }

  /** The box around the spans of non-degenerate extent, if there are any. */
  function SourceBox(spans: seq<Span>): Option<Box> {
    var gs := Geometries(spans);
    if gs == [] then None
    else
      var box := BoxOfAll(gs);
      if box.minX >= box.maxX || box.minY >= box.maxY then None else Some(box)
  }

  /** One occurrence of a rule's text at a position of a path's text. */
  function OccurrenceAt(rule: Rule, mapped: Mapped, start: nat): Option<Occurrence> {
    var end := start + |rule.text|;
    if start == end || end > |mapped| || !ContextIsValid(rule, mapped, start, end) then None
    else
      var box := SourceBox(SourceSpans(mapped[start..end]));
      if box.None? || !(rule.minimumCenterY <= CenterY(box.value) <= rule.maximumCenterY) then None
      else
        Some(Occurrence(rule.anchor, PositionKey(mapped, start, false), PositionKey(mapped, end - 1, true),
                        mapped[start].lineIndex, box.value.minX, box.value.maxX))
  }

  /** The position before an offset of a character's span: its line, how far right, its span and the offset. */
  predicate Places(key: seq<real>, c: MappedCharacter, offset: nat) {
    && |key| == 4 && key[0] == c.lineIndex as real && key[2] == c.span.id as real && key[3] == offset as real
    && (|c.span.text| > 0 ==>
          var box := BoxOf(c.span.polygon);
          (key[1] - box.minX) * (|c.span.text| as real) == (box.maxX - box.minX) * (offset as real))
  }

  /** The box around the spans of a stretch. */
  function StretchBox(mapped: Mapped, start: nat, end: nat): Option<Box>
    requires start <= end <= |mapped|
  {
    SourceBox(SourceSpans(mapped[start..end]))
  }

  predicate InBand(rule: Rule, box: Option<Box>) {
    box.Some? && rule.minimumCenterY <= (box.value.minY + box.value.maxY) / 2.0 <= rule.maximumCenterY
  }

  /** There is an occurrence exactly where the text fits, its context is valid and its box stands in the band of its rule. */
  lemma OccurrenceIs(rule: Rule, mapped: Mapped, start: nat)
    ensures var end := start + |rule.text|;
            OccurrenceAt(rule, mapped, start).Some? <==>
              start < end <= |mapped| && ContextIsValid(rule, mapped, start, end) && InBand(rule, StretchBox(mapped, start, end))
  {
    hide SourceBox, SourceSpans, PositionKey;
  }

  /** An occurrence has the extent of its box and is placed by its first and its last character. */
  lemma OccurrenceIsPlaced(rule: Rule, mapped: Mapped, start: nat, o: Occurrence)
    requires OccurrenceAt(rule, mapped, start) == Some(o)
    ensures start < start + |rule.text| <= |mapped|
    ensures o.anchor == rule.anchor && o.line == mapped[start].lineIndex
    ensures var box := StretchBox(mapped, start, start + |rule.text|); box.Some? && o.minX == box.value.minX && o.maxX == box.value.maxX
    ensures Places(o.startKey, mapped[start], mapped[start].sourceOffset)
    ensures var last := mapped[start + |rule.text| - 1]; Places(o.endKey, last, last.sourceOffset + 1)
  {
    hide SourceBox, SourceSpans, PositionKey, Places;
    KeyPlaces(mapped, start, false);
    KeyPlaces(mapped, start + |rule.text| - 1, true);
  }

  lemma KeyPlaces(mapped: Mapped, index: nat, afterCharacter: bool)
    requires index < |mapped|
    ensures Places(PositionKey(mapped, index, afterCharacter), mapped[index], mapped[index].sourceOffset + if afterCharacter then 1 else 0)
  {
    hide BoxOf;
    var c := mapped[index];
    var offset: nat := c.sourceOffset + if afterCharacter then 1 else 0;
    if |c.span.text| > 0 {
      Quotient(Width(BoxOf(c.span.polygon)), offset as real, |c.span.text| as real);
    }
  }

  lemma Quotient(w: real, x: real, y: real)
    requires y > 0.0
    ensures w * (x / y) * y == w * x
  {
    assert x / y * y == x;
  }

  /** Only what stands strictly after the heading is of interest. */
  function AcceptedAt(rule: Rule, after: seq<real>, mapped: Mapped, start: nat): Option<Occurrence> {
    var o := OccurrenceAt(rule, mapped, start);
    if o.Some? && LexLess(after, o.value.startKey) then o else None
  }

  function StartPart(rule: Rule, after: seq<real>, mapped: Mapped): nat -> seq<Occurrence> {
    (start: nat) => AsList(AcceptedAt(rule, after, mapped, start))
  }

  function PathPart(rule: Rule, after: seq<real>): seq<Run> -> seq<Occurrence> {
    (path: seq<Run>) =>
      var mapped := PathCharacters(path);
      Collect(Starts(TextOf(mapped), rule.text), StartPart(rule, after, mapped))
  }

  function RunPart(reading: Reading, rule: Rule, after: seq<real>): Run -> seq<Occurrence> {
    (run: Run) => Collect(ForwardPaths(reading, run, rule.maximumLines), PathPart(rule, after))
  }

  function LinePart(reading: Reading, rule: Rule, after: seq<real>): Line -> seq<Occurrence> {
    (line: Line) => Collect(line.runs, RunPart(reading, rule, after))
  }

  /** The first and the last character of an occurrence, by span and offset. */
  function IdentityKey(o: Occurrence): seq<real> {
    if |o.startKey| == 4 && |o.endKey| == 4 then o.startKey[2..] + o.endKey[2..] else []
  }

  function OrderKey(o: Occurrence): seq<real> {
    o.startKey + o.endKey
  }

  /** The occurrences of a rule's text after a position: one for each identity, in reading order, at most sixteen. */
  function Found(reading: Reading, rule: Rule, after: seq<real>): seq<Occurrence> {
    FirstOf(Sort(Latest(Collect(reading.lines, LinePart(reading, rule, after)), IdentityKey), OrderKey),
            MAX_BODY_ANCHOR_OCCURRENCES_PER_ID)
  }

  /** Enter the occurrences at some positions of a path's text. */
  method EnterStarts(rule: Rule, after: seq<real>, mapped: Mapped, starts: seq<nat>, found: seq<Occurrence>,
                     ghost stream: seq<Occurrence>)
    returns (more: seq<Occurrence>)
    requires found == Latest(stream, IdentityKey)
    ensures more == Latest(stream + Collect(starts, StartPart(rule, after, mapped)), IdentityKey)
  {
    hide Latest, AcceptedAt, Collect, Put;
    more := found;
    ghost var part := StartPart(rule, after, mapped);
    CollectEnds(stream, starts, part);
    for i := 0 to |starts|
      invariant more == Latest(stream + Collect(starts[..i], part), IdentityKey)
    {
      CollectNext(stream, starts, i, part);
      var o := AcceptedAt(rule, after, mapped, starts[i]);
      ghost var before := stream + Collect(starts[..i], part);
      assert part(starts[i]) == AsList(o) && before + [] == before;
      if o.Some? {
        LatestExtends(before, o.value, IdentityKey);
        more := Put(more, o.value, IdentityKey);
      }
    }
  }

  /** Enter the occurrences along some forward paths. */
  method EnterPaths(rule: Rule, after: seq<real>, paths: seq<seq<Run>>, found: seq<Occurrence>,
                    ghost stream: seq<Occurrence>)
    returns (more: seq<Occurrence>)
    requires found == Latest(stream, IdentityKey)
    ensures more == Latest(stream + Collect(paths, PathPart(rule, after)), IdentityKey)
  {
    hide Latest, Collect, Starts;
    more := found;
    ghost var part := PathPart(rule, after);
    CollectEnds(stream, paths, part);
    for i := 0 to |paths|
      invariant more == Latest(stream + Collect(paths[..i], part), IdentityKey)
    {
      CollectNext(stream, paths, i, part);
      var mapped := FromRuns(paths[i]);
      var starts := Occurrences(TextOf(mapped), rule.text);
      more := EnterStarts(rule, after, mapped, starts, more, stream + Collect(paths[..i], part));
    }
  }

  /** Enter the occurrences along the forward paths from some runs. */
  method EnterRuns(reading: Reading, rule: Rule, after: seq<real>, runs: seq<Run>, found: seq<Occurrence>,
                   ghost stream: seq<Occurrence>)
    returns (more: seq<Occurrence>)
    requires 1 <= rule.maximumLines <= 3 && found == Latest(stream, IdentityKey)
    ensures more == Latest(stream + Collect(runs, RunPart(reading, rule, after)), IdentityKey)
  {
    hide Latest, Collect, PathPart, ForwardPaths;
    more := found;
    ghost var part := RunPart(reading, rule, after);
    CollectEnds(stream, runs, part);
    for i := 0 to |runs|
      invariant more == Latest(stream + Collect(runs[..i], part), IdentityKey)
    {
      CollectNext(stream, runs, i, part);
      var paths := ForwardRunPaths(reading, runs[i], rule.maximumLines);
      more := EnterPaths(rule, after, paths, more, stream + Collect(runs[..i], part));
    }
  }

  method BodyAnchorOccurrences(reading: Reading, rule: Rule, after: seq<real>) returns (found: seq<Occurrence>)
    requires 1 <= rule.maximumLines <= 3
    ensures found == Found(reading, rule, after)
  {
    hide Collect, RunPart, Sort;
    found := [];
    assert Latest<Occurrence, seq<real>>([], IdentityKey) == [];
    hide Latest;
    ghost var part := LinePart(reading, rule, after);
    CollectEnds([], reading.lines, part);
    for i := 0 to |reading.lines|
      invariant found == Latest(Collect(reading.lines[..i], part), IdentityKey)
    {
      CollectTurn(reading.lines, i, part);
      found := EnterRuns(reading, rule, after, reading.lines[i].runs, found, Collect(reading.lines[..i], part));
    }
    found := FirstOf(Sort(found, OrderKey), MAX_BODY_ANCHOR_OCCURRENCES_PER_ID);
  }

  // ---------------------------------------------------------------- what is found is on the page, and complete

  /** The occurrence stands in the text of a forward path from a run of the page. */
  predicate RealAt(reading: Reading, rule: Rule, line: Line, run: Run, path: seq<Run>, start: nat, o: Occurrence) {
    && line in reading.lines && run in line.runs && IsChain(reading, run, path, rule.maximumLines)
    && OccursAt(TextOf(PathCharacters(path)), rule.text, start)
    && OccurrenceAt(rule, PathCharacters(path), start) == Some(o)
  }

  ghost predicate IsReal(reading: Reading, rule: Rule, o: Occurrence) {
    exists line, run, path, start :: RealAt(reading, rule, line, run, path, start, o)
  }

  lemma OccurrenceFits(rule: Rule, mapped: Mapped, start: nat, o: Occurrence)
    requires OccurrenceAt(rule, mapped, start) == Some(o)
    ensures o.anchor == rule.anchor && |o.startKey| == |o.endKey| == 4
  {
  }

  /** Whatever is collected is real and stands after the heading. */
  lemma CollectedIsReal(reading: Reading, rule: Rule, after: seq<real>, o: Occurrence)
    requires rule.maximumLines >= 1 && o in Collect(reading.lines, LinePart(reading, rule, after))
    ensures IsReal(reading, rule, o) && LexLess(after, o.startKey)
    ensures o.anchor == rule.anchor && |o.startKey| == |o.endKey| == 4
  {
    hide Collect, OccurrenceAt, ForwardPaths, OccursAt, Starts, IsChain;
    var linePart, runPart, pathPart := LinePart(reading, rule, after), RunPart(reading, rule, after), PathPart(rule, after);
    CollectHas(reading.lines, linePart, o);
    var i :| 0 <= i < |reading.lines| && o in linePart(reading.lines[i]);
    var line := reading.lines[i];
    CollectHas(line.runs, runPart, o);
    var k :| 0 <= k < |line.runs| && o in runPart(line.runs[k]);
    var run := line.runs[k];
    var paths := ForwardPaths(reading, run, rule.maximumLines);
    CollectHas(paths, pathPart, o);
    var m :| 0 <= m < |paths| && o in pathPart(paths[m]);
    ForwardPathsAre(reading, run, rule.maximumLines);
    var start := StartOf(rule, after, paths[m], o);
    OccurrenceFits(rule, PathCharacters(paths[m]), start, o);
    assert RealAt(reading, rule, line, run, paths[m], start, o);
  }

  lemma StartOf(rule: Rule, after: seq<real>, path: seq<Run>, o: Occurrence) returns (start: nat)
    requires o in PathPart(rule, after)(path)
    ensures OccursAt(TextOf(PathCharacters(path)), rule.text, start)
    ensures OccurrenceAt(rule, PathCharacters(path), start) == Some(o) && LexLess(after, o.startKey)
  {
    hide Collect, OccurrenceAt, OccursAt;
    var mapped := PathCharacters(path);
    var starts := Starts(TextOf(mapped), rule.text);
    CollectHas(starts, StartPart(rule, after, mapped), o);
    var n :| 0 <= n < |starts| && o in StartPart(rule, after, mapped)(starts[n]);
    start := starts[n];
  }

  /** Every real occurrence after the heading is collected, unless a path search reached its bound. */
  lemma RealIsCollected(reading: Reading, rule: Rule, after: seq<real>, line: Line, run: Run, path: seq<Run>, start: nat,
                        o: Occurrence)
    requires rule.maximumLines >= 1 && RealAt(reading, rule, line, run, path, start, o) && LexLess(after, o.startKey)
    requires |ForwardPaths(reading, run, rule.maximumLines)| < MAX_FORWARD_RUN_PATHS
    ensures o in Collect(reading.lines, LinePart(reading, rule, after))
  {
    hide Collect, OccurrenceAt, ForwardPaths, OccursAt, IsChain, PathPart, PathCharacters, LexLess;
    var paths := ForwardPaths(reading, run, rule.maximumLines);
    ForwardPathsAre(reading, run, rule.maximumLines);
    RealIsOnPath(rule, after, path, start, o);
    CollectMember(paths, PathPart(rule, after), path, o);
    assert o in RunPart(reading, rule, after)(run);
    CollectMember(line.runs, RunPart(reading, rule, after), run, o);
    assert o in LinePart(reading, rule, after)(line);
    CollectMember(reading.lines, LinePart(reading, rule, after), line, o);
  }

  lemma RealIsOnPath(rule: Rule, after: seq<real>, path: seq<Run>, start: nat, o: Occurrence)
    requires OccursAt(TextOf(PathCharacters(path)), rule.text, start)
    requires OccurrenceAt(rule, PathCharacters(path), start) == Some(o) && LexLess(after, o.startKey)
    ensures o in PathPart(rule, after)(path)
  {
    assert rule.text != "";
    hide Collect, OccurrenceAt, OccursAt;
    var mapped := PathCharacters(path);
    CollectMember(Starts(TextOf(mapped), rule.text), StartPart(rule, after, mapped), start, o);
  }

  /** At most sixteen, all real, all after the heading, in reading order. */
  lemma FoundAreReal(reading: Reading, rule: Rule, after: seq<real>)
    requires rule.maximumLines >= 1
    ensures var found := Found(reading, rule, after);
            && |found| <= MAX_BODY_ANCHOR_OCCURRENCES_PER_ID && SortedBy(found, OrderKey)
            && forall o :: o in found ==>
                 && IsReal(reading, rule, o) && LexLess(after, o.startKey)
                 && o.anchor == rule.anchor && |o.startKey| == |o.endKey| == 4
  {
    hide Sort, Collect, IsReal, LinePart, Latest, LexLess;
    var stream := Collect(reading.lines, LinePart(reading, rule, after));
    var unique := Latest(stream, IdentityKey);
    var sorted := Sort(unique, OrderKey);
    LatestAre(stream, IdentityKey);
    SortMultiset(unique, OrderKey);
    forall o | o in stream
      ensures IsReal(reading, rule, o) && LexLess(after, o.startKey)
      ensures o.anchor == rule.anchor && |o.startKey| == |o.endKey| == 4
    {
      CollectedIsReal(reading, rule, after, o);
    }
    forall i | 0 <= i < |unique| ensures |OrderKey(unique[i])| == 8 {
      assert unique[i] in unique;
    }
    SortSorts(unique, OrderKey, 8);
    forall o | o in sorted ensures o in unique {
      assert o in multiset(unique);
    }
  }

  predicate BoundedPaths(reading: Reading, maximumLines: nat) {
    forall line, run :: line in reading.lines && run in line.runs ==>
      |ForwardPaths(reading, run, maximumLines)| < MAX_FORWARD_RUN_PATHS
  }

  /** Below the two bounds nothing is missed: some occurrence with the same ends is found. */
  lemma FoundMissesNothing(reading: Reading, rule: Rule, after: seq<real>, o: Occurrence)
    requires rule.maximumLines >= 1 && IsReal(reading, rule, o) && LexLess(after, o.startKey)
    requires BoundedPaths(reading, rule.maximumLines)
    requires |Found(reading, rule, after)| < MAX_BODY_ANCHOR_OCCURRENCES_PER_ID
    ensures HasKey(Found(reading, rule, after), IdentityKey, IdentityKey(o))
  {
    hide Sort, Collect, LinePart, Latest, LexLess, ForwardPaths;
    var stream := Collect(reading.lines, LinePart(reading, rule, after));
    var unique := Latest(stream, IdentityKey);
    var line, run, path, start :| RealAt(reading, rule, line, run, path, start, o);
    RealIsCollected(reading, rule, after, line, run, path, start, o);
    LatestAre(stream, IdentityKey);
    SortMultiset(unique, OrderKey);
    var i :| 0 <= i < |unique| && IdentityKey(unique[i]) == IdentityKey(o);
    assert unique[i] in multiset(Sort(unique, OrderKey));
    assert unique[i] in Found(reading, rule, after);
  }

  // ---------------------------------------------------------------- the body signature

  /** The occurrences of each rule's text after a heading. */
  function AnchorRules(reading: Reading, after: seq<real>): (rules: seq<seq<Occurrence>>)
    ensures |rules| == |BODY_ANCHOR_RULES| && forall i :: 0 <= i < |rules| ==> rules[i] == Found(reading, BODY_ANCHOR_RULES[i], after)
  {
    seq(|BODY_ANCHOR_RULES|, i requires 0 <= i < |BODY_ANCHOR_RULES| => Found(reading, BODY_ANCHOR_RULES[i], after))
  }

  lemma AnchorRulesFit(reading: Reading, after: seq<real>)
    ensures RulesFit(AnchorRules(reading, after))
  {
    hide Found;
    var rules := AnchorRules(reading, after);
    forall k, o: Occurrence | 0 <= k < |rules| && o in rules[k] ensures o.anchor == BODY_ANCHORS[k] && |o.startKey| == |o.endKey| == 4 {
      FoundAreReal(reading, BODY_ANCHOR_RULES[k], after);
      assert o in Found(reading, BODY_ANCHOR_RULES[k], after);
    }
  }

  /** A real occurrence begins on the line its keys name, and ends no further up. */
  lemma RealDescends(reading: Reading, rule: Rule, line: Line, run: Run, path: seq<Run>, start: nat, o: Occurrence)
    requires WellIndexed(reading) && RealAt(reading, rule, line, run, path, start, o)
    ensures |o.startKey| == |o.endKey| == 4 && o.startKey[0] == o.line as real && o.startKey[0] <= o.endKey[0]
  {
    hide WellIndexed, PathCharacters, SourceBox, SourceSpans, PositionKey, IsChain, OccursAt;
    forall i, j | 0 <= i < j < |path| ensures path[i].lineIndex <= path[j].lineIndex {
      ChainClimbs(reading, run, path, rule.maximumLines, i);
      ChainClimbs(reading, run, path, rule.maximumLines, j);
    }
    var mapped := PathCharacters(path);
    CharactersDescend(path, start, start + |rule.text| - 1);
    KeyBegins(mapped, start, false);
    KeyBegins(mapped, start + |rule.text| - 1, true);
  }

  lemma FoundDescends(reading: Reading, rule: Rule, after: seq<real>, o: Occurrence)
    requires WellIndexed(reading) && rule.maximumLines >= 1 && o in Found(reading, rule, after)
    ensures |o.startKey| == |o.endKey| == 4 && o.startKey[0] == o.line as real && o.startKey[0] <= o.endKey[0]
  {
    hide Found, WellIndexed, RealAt, LexLess;
    FoundAreReal(reading, rule, after);
    var line, run, path, start :| RealAt(reading, rule, line, run, path, start, o);
    RealDescends(reading, rule, line, run, path, start, o);
  }

  lemma KeyBegins(mapped: Mapped, index: nat, afterCharacter: bool)
    requires index < |mapped|
    ensures PositionKey(mapped, index, afterCharacter)[0] == mapped[index].lineIndex as real
  {
  }

  lemma AnchorLinesFit(reading: Reading, after: seq<real>)
    requires WellIndexed(reading)
    ensures LinesFit(AnchorRules(reading, after))
  {
    hide Found, WellIndexed;
    var rules := AnchorRules(reading, after);
    forall k, o: Occurrence | 0 <= k < |rules| && o in rules[k]
      ensures o.startKey != [] && o.endKey != [] && o.startKey[0] == o.line as real && o.startKey[0] <= o.endKey[0]
    {
      FoundDescends(reading, BODY_ANCHOR_RULES[k], after, o);
    }
  }

  // ---------------------------------------------------------------- real occurrences as the search sees them

  /** No two real occurrences of a rule share both ends. */
  ghost predicate UnambiguousFor(reading: Reading, rule: Rule) {
    forall o, p :: IsReal(reading, rule, o) && IsReal(reading, rule, p) && IdentityKey(o) == IdentityKey(p) ==> o == p
  }

  ghost predicate Unambiguous(reading: Reading) {
    forall k :: 0 <= k < |BODY_ANCHOR_RULES| ==> UnambiguousFor(reading, BODY_ANCHOR_RULES[k])
  }

  /** Neither the path search nor the list of occurrences reaches its bound. */
  predicate NotCutOff(reading: Reading, rule: Rule, after: seq<real>) {
    BoundedPaths(reading, rule.maximumLines) && |Found(reading, rule, after)| < MAX_BODY_ANCHOR_OCCURRENCES_PER_ID
  }

  predicate NothingCutOff(reading: Reading, after: seq<real>) {
    forall k :: 0 <= k < |BODY_ANCHOR_RULES| ==> NotCutOff(reading, BODY_ANCHOR_RULES[k], after)
  }

  /** Then the occurrences found are exactly the real ones after the heading. */
  lemma FoundExactlyReal(reading: Reading, rule: Rule, after: seq<real>, o: Occurrence)
    requires rule.maximumLines >= 1 && UnambiguousFor(reading, rule) && NotCutOff(reading, rule, after)
    ensures o in Found(reading, rule, after) <==> IsReal(reading, rule, o) && LexLess(after, o.startKey)
  {
    hide Found, IsReal, LexLess, BoundedPaths, IdentityKey;
    FoundAreReal(reading, rule, after);
    if IsReal(reading, rule, o) && LexLess(after, o.startKey) {
      FoundMissesNothing(reading, rule, after, o);
      var found := Found(reading, rule, after);
      var i :| 0 <= i < |found| && IdentityKey(found[i]) == IdentityKey(o);
      assert found[i] in found && found[i] == o;
    }
  }

  /** One rule's turn of the search: every state tried with every occurrence. */
  method ExtendStates(states: seq<State>, occs: seq<Occurrence>) returns (next: seq<State>)
    ensures next == ApplyRule(states, states, occs)
  {
    hide Follows, Offer;
    next := states;
    for i := 0 to |states|
      invariant next == ApplyRule(states, states[..i], occs)
    {
      var from := states[i];
      ghost var before := next;
      for k := 0 to |occs|
        invariant next == ExtendAll(before, from, occs[..k])
      {
        assert occs[..k + 1][..k] == occs[..k];
        if from.last.Some? && !Follows(from.last.value, occs[k]) {
          continue;
        }
        next := Offer(next, Extended(from, occs[k]));
      }
      assert occs[..|occs|] == occs;
      assert states[..i + 1][..i] == states[..i];
    }
    assert states[..|states|] == states;
  }

  method FindBodySignature(reading: Reading, after: seq<real>) returns (ids: seq<AnchorId>)
    ensures ids == BodySignature(AnchorRules(reading, after))
  {
    hide Found, ApplyRule, Best;
    ghost var rules := AnchorRules(reading, after);
    AnchorRulesFit(reading, after);
    var states := [EMPTY_STATE];
    for i := 0 to |BODY_ANCHOR_RULES|
      invariant states == Search(rules[..i])
    {
      var occs := BodyAnchorOccurrences(reading, BODY_ANCHOR_RULES[i], after);
      assert rules[..i + 1][..i] == rules[..i];
      states := ExtendStates(states, occs);
    }
    assert rules[..|rules|] == rules;
    var best := Best(states);
    ids := if best.Some? then best.value else [];
  }
}
