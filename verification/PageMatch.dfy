/** The headings of a page and the template decision on it. */
module PageMatch {
  import opened Basics
  import opened Collections
  import opened Sorting
  import opened ReadingOrder
  import opened ReadingLoops
  import opened MappedText
  import opened AnchorSearch
  import opened SearchExactness
  import opened TemplateMatch

  const INSTITUTION_NAME: string :=
    "\U{6E56}\U{5317}\U{4EA4}\U{901A}\U{804C}\U{4E1A}\U{6280}\U{672F}\U{5B66}\U{9662}"
  const NESTING_MODIFIERS: seq<string> := ["\U{9644}\U{5C5E}", "\U{5206}\U{6821}"]
  const TITLE_SURROUNDING_PUNCTUATION: string := ":,.;\U{FF0C}\U{3002}\U{FF1A}\U{FF1B}"
  const TITLE_REGION_MAX_Y: real := 0.20
  const TITLE_MIN_WIDTH: real := 0.16
  const TITLE_CENTER_X_MIN: real := 0.15
  const TITLE_CENTER_X_MAX: real := 0.85

  // ---------------------------------------------------------------- headings

  datatype HeadingCandidate = HeadingCandidate(
    text: string, spanIds: seq<nat>, startKey: seq<real>, endKey: seq<real>, maxY: real, width: real)

  /** Whether a heading names some other institution; the tests on Chinese suffixes are not modelled. */
  const LooksLikeDifferentInstitution: HeadingCandidate -> bool

  function StripStart(text: string): string {
    if text != "" && text[0] in TITLE_SURROUNDING_PUNCTUATION then StripStart(text[1..]) else text
  }

  function StripEnd(text: string): string {
    if text != "" && text[|text| - 1] in TITLE_SURROUNDING_PUNCTUATION then StripEnd(text[..|text| - 1]) else text
  }

  /** The heading a stretch of text makes, if it stands in the title region. */
  function HeadingOf(mapped: Mapped): Option<HeadingCandidate> {
    if mapped == [] then None
    else
      var spans := SourceSpans(mapped);
      var box := SourceBox(spans);
      if box.None? then None
      else if box.value.maxY > TITLE_REGION_MAX_Y || Width(box.value) < TITLE_MIN_WIDTH
              || !(TITLE_CENTER_X_MIN <= CenterX(box.value) <= TITLE_CENTER_X_MAX) then None
      else
        var text := StripEnd(StripStart(TextOf(mapped)));
        if text == "" then None
        else
          Some(HeadingCandidate(text, IdsOfSpans(spans), PositionKey(mapped, 0, false),
                                PositionKey(mapped, |mapped| - 1, true), box.value.maxY, Width(box.value)))
  }

  predicate NamesInstitution(h: Option<HeadingCandidate>) {
    h.Some? && h.value.text == INSTITUTION_NAME
  }

  /** The name stands in the text right behind or right before a nesting modifier. */
  predicate HasNestedModifier(text: string) {
    var starts := Starts(text, INSTITUTION_NAME);
    && starts != []
    && var before, after := text[..starts[0]], text[starts[0] + |INSTITUTION_NAME|..];
       exists i :: 0 <= i < |NESTING_MODIFIERS| && (EndsWith(before, NESTING_MODIFIERS[i]) || NESTING_MODIFIERS[i] <= after)
  }

  predicate EndsWith(text: string, suffix: string) {
    |suffix| <= |text| && text[|text| - |suffix|..] == suffix
  }

  /** Two related runs make a heading together, unless one of them names the institution by itself. */
  function CombinedPart(run: Run): Run -> seq<HeadingCandidate> {
    (related: Run) =>
      var combined := HeadingOf(PathCharacters([run, related]));
      if NamesInstitution(HeadingOf(PathCharacters([run]))) || NamesInstitution(HeadingOf(PathCharacters([related]))) then
        if combined.Some? && HasNestedModifier(combined.value.text) then [combined.value] else []
      else AsList(combined)
  }

  function HeadingsOfRun(reading: Reading): Run -> seq<HeadingCandidate> {
    (run: Run) =>
      AsList(HeadingOf(PathCharacters([run]))) + Collect(RelatedRuns(reading, run, run.lineIndex + 1), CombinedPart(run))
  }

  function HeadingsOfLine(reading: Reading): Line -> seq<HeadingCandidate> {
    (line: Line) => Collect(line.runs, HeadingsOfRun(reading))
  }

  function HeadingKey(h: HeadingCandidate): (string, seq<nat>) {
    (h.text, h.spanIds)
  }

  function HeadingOrder(h: HeadingCandidate): seq<real> {
    h.startKey + h.endKey
  }

  /** All headings of a page, one for each text and set of spans, by position. */
  function Headings(reading: Reading): seq<HeadingCandidate> {
    Sort(Latest(Collect(reading.lines, HeadingsOfLine(reading)), HeadingKey), HeadingOrder)
  }

  /** Enter the headings that a run makes with its related runs. */
  method EnterCombined(run: Run, related: seq<Run>, found: seq<HeadingCandidate>, ghost stream: seq<HeadingCandidate>)
    returns (more: seq<HeadingCandidate>)
    requires found == Latest(stream, HeadingKey)
    ensures more == Latest(stream + Collect(related, CombinedPart(run)), HeadingKey)
  {
    hide Latest, Collect, Put, HeadingOf, HasNestedModifier, PathCharacters;
    more := found;
    ghost var part := CombinedPart(run);
    CollectEnds(stream, related, part);
    var alone := FromRuns([run]);
    var candidate := HeadingOf(alone);
    for i := 0 to |related|
      invariant more == Latest(stream + Collect(related[..i], part), HeadingKey)
    {
      CollectNext(stream, related, i, part);
      ghost var before := stream + Collect(related[..i], part);
      var other := FromRuns([related[i]]);
      var both := FromRuns([run, related[i]]);
      var combined := HeadingOf(both);
      assert before + [] == before;
      if NamesInstitution(candidate) || NamesInstitution(HeadingOf(other)) {
        if combined.Some? && HasNestedModifier(combined.value.text) {
          LatestExtends(before, combined.value, HeadingKey);
          more := Put(more, combined.value, HeadingKey);
        }
      } else if combined.Some? {
        LatestExtends(before, combined.value, HeadingKey);
        more := Put(more, combined.value, HeadingKey);
      }
    }
  }

  /** Enter the headings of some runs. */
  method EnterHeadings(reading: Reading, runs: seq<Run>, found: seq<HeadingCandidate>, ghost stream: seq<HeadingCandidate>)
    returns (more: seq<HeadingCandidate>)
    requires found == Latest(stream, HeadingKey)
    ensures more == Latest(stream + Collect(runs, HeadingsOfRun(reading)), HeadingKey)
  {
    hide Latest, Collect, Put, HeadingOf, CombinedPart, RelatedRuns, PathCharacters;
    more := found;
    ghost var part := HeadingsOfRun(reading);
    CollectEnds(stream, runs, part);
    for i := 0 to |runs|
      invariant more == Latest(stream + Collect(runs[..i], part), HeadingKey)
    {
      CollectNext(stream, runs, i, part);
      ghost var before := stream + Collect(runs[..i], part);
      var mapped := FromRuns([runs[i]]);
      var candidate := HeadingOf(mapped);
      if candidate.Some? {
        LatestExtends(before, candidate.value, HeadingKey);
        more := Put(more, candidate.value, HeadingKey);
      }
      var related := RelatedRuns(reading, runs[i], runs[i].lineIndex + 1);
      ghost var rest := Collect(related, CombinedPart(runs[i]));
      assert before + [] == before;
      assert before + (AsList(candidate) + rest) == before + AsList(candidate) + rest;
      more := EnterCombined(runs[i], related, more, before + AsList(candidate));
    }
  }

  method HeadingCandidates(reading: Reading) returns (headings: seq<HeadingCandidate>)
    ensures headings == Headings(reading)
  {
    hide Collect, HeadingsOfRun, Sort;
    headings := [];
    assert Latest<HeadingCandidate, (string, seq<nat>)>([], HeadingKey) == [];
    hide Latest;
    ghost var part := HeadingsOfLine(reading);
    CollectEnds([], reading.lines, part);
    for i := 0 to |reading.lines|
      invariant headings == Latest(Collect(reading.lines[..i], part), HeadingKey)
    {
      CollectTurn(reading.lines, i, part);
      headings := EnterHeadings(reading, reading.lines[i].runs, headings, Collect(reading.lines[..i], part));
    }
    headings := Sort(headings, HeadingOrder);
  }

  // ---------------------------------------------------------------- what a decision may look like

  const TEMPLATE_ANCHORS: seq<AnchorId> := [Heading, Salutation, Committee, Admission, MajorStudy]

  datatype MatchStatus = Matched | NotMatched | Insufficient

  datatype Match = Match(status: MatchStatus, ids: seq<AnchorId>)

  /** Those of the first n template anchors that are among the given ones, in template order. */
  function InOrderBelow(n: nat, ids: seq<AnchorId>): seq<AnchorId>
    requires n <= |TEMPLATE_ANCHORS|
  {
    if n == 0 then []
    else InOrderBelow(n - 1, ids) + (if TEMPLATE_ANCHORS[n - 1] in ids then [TEMPLATE_ANCHORS[n - 1]] else [])
  }

  function InOrder(ids: seq<AnchorId>): seq<AnchorId> {
    InOrderBelow(|TEMPLATE_ANCHORS|, ids)
  }

  function Count(ids: seq<AnchorId>, a: AnchorId): nat {
    if a in ids then 1 else 0
  }

  function BodyCount(ids: seq<AnchorId>): nat {
    Count(ids, Salutation) + Count(ids, Committee) + Count(ids, Admission) + Count(ids, MajorStudy)
  }

  predicate SatisfiesPolicy(ids: seq<AnchorId>) {
    Heading in ids && BodyCount(ids) >= MINIMUM_BODY_ANCHORS
  }

  /** What the decision's constructor accepts. */
  predicate ValidMatch(m: Match) {
    && m.ids == InOrder(m.ids)
    && (m.status == Matched ==> SatisfiesPolicy(m.ids))
    && (m.status == Insufficient ==> !SatisfiesPolicy(m.ids))
    && (m.status == NotMatched ==> m.ids == [])
  }

  predicate Rising(ids: seq<AnchorId>) {
    forall i, j :: 0 <= i < j < |ids| ==> Rank(ids[i]) < Rank(ids[j])
  }

  lemma {:induction false} InOrderIgnoresLater(n: nat, ids: seq<AnchorId>, more: seq<AnchorId>)
    requires n <= |TEMPLATE_ANCHORS| && forall i :: 0 <= i < n ==> (TEMPLATE_ANCHORS[i] in ids <==> TEMPLATE_ANCHORS[i] in more)
    ensures InOrderBelow(n, ids) == InOrderBelow(n, more)
  {
    if n > 0 {
      InOrderIgnoresLater(n - 1, ids, more);
    }
  }

  lemma RankIsIndex(i: nat)
    requires i < |TEMPLATE_ANCHORS|
    ensures Rank(TEMPLATE_ANCHORS[i]) == i
  {
  }

  lemma SameRank(a: AnchorId, b: AnchorId)
    requires Rank(a) == Rank(b)
    ensures a == b
  {
  }

  lemma {:induction false} RisingIsInOrder(n: nat, ids: seq<AnchorId>)
    requires n <= |TEMPLATE_ANCHORS| && Rising(ids) && forall i :: 0 <= i < |ids| ==> Rank(ids[i]) < n
    ensures InOrderBelow(n, ids) == ids
  {
    hide TEMPLATE_ANCHORS, Rank;
    assert ids == [] || Rank(ids[0]) < n;
    if n > 0 {
      var k := |ids| - 1;
      RankIsIndex(n - 1);
      if ids != [] && Rank(ids[k]) == n - 1 {
        SameRank(ids[k], TEMPLATE_ANCHORS[n - 1]);
        RisingIsInOrder(n - 1, ids[..k]);
        assert ids == ids[..k] + [ids[k]];
        forall i | 0 <= i < n - 1 ensures TEMPLATE_ANCHORS[i] in ids <==> TEMPLATE_ANCHORS[i] in ids[..k] {
          RankIsIndex(i);
        }
        InOrderIgnoresLater(n - 1, ids, ids[..k]);
      } else {
        forall i | 0 <= i < |ids| ensures Rank(ids[i]) < n - 1 {
          assert i < k ==> Rank(ids[i]) < Rank(ids[k]);
        }
        RisingIsInOrder(n - 1, ids);
      }
    }
  }

  lemma NoneInOrder()
    ensures InOrder([]) == []
  {
    RisingIsInOrder(|TEMPLATE_ANCHORS|, []);
  }

  /** Picking a second time changes nothing, and the length is the number of template anchors present. */
  lemma {:induction false} InOrderBelowIs(n: nat, ids: seq<AnchorId>, a: AnchorId)
    requires n <= |TEMPLATE_ANCHORS|
    ensures a in InOrderBelow(n, ids) <==> Rank(a) < n && a in ids
  {
    if n > 0 {
      InOrderBelowIs(n - 1, ids, a);
      RankIsIndex(n - 1);
      RankIsIndex(Rank(a));
    }
  }

  lemma InOrderHas(ids: seq<AnchorId>, a: AnchorId)
    ensures a in InOrder(ids) <==> a in ids
  {
    InOrderBelowIs(|TEMPLATE_ANCHORS|, ids, a);
  }

  lemma InOrderTwice(ids: seq<AnchorId>)
    ensures InOrder(InOrder(ids)) == InOrder(ids) && (SatisfiesPolicy(InOrder(ids)) <==> SatisfiesPolicy(ids))
  {
    forall a: AnchorId | true ensures a in InOrder(ids) <==> a in ids {
      InOrderHas(ids, a);
    }
    InOrderIgnoresLater(|TEMPLATE_ANCHORS|, InOrder(ids), ids);
    hide InOrder;
  }

  lemma CountsRising(body: seq<AnchorId>)
    requires Rising(body) && Heading !in body
    ensures InOrder([Heading] + body) == [Heading] + body && BodyCount([Heading] + body) == |body|
  {
    var ids := [Heading] + body;
    forall i | 0 <= i < |body| ensures Rank(body[i]) > 0 {
      assert body[i] != Heading;
    }
    RisingIsInOrder(|TEMPLATE_ANCHORS|, ids);
    assert InOrderBelow(0, ids) == [];
    assert |InOrderBelow(1, ids)| == 1;
    assert |InOrderBelow(2, ids)| == 1 + Count(ids, Salutation);
    assert |InOrderBelow(3, ids)| == 1 + Count(ids, Salutation) + Count(ids, Committee);
    assert |InOrderBelow(4, ids)| == 1 + Count(ids, Salutation) + Count(ids, Committee) + Count(ids, Admission);
    assert |InOrderBelow(5, ids)| == 1 + BodyCount(ids);
  }

  // ---------------------------------------------------------------- the decision on one page

  function Supported(headings: seq<HeadingCandidate>): (supported: seq<HeadingCandidate>)
    ensures forall h :: h in supported <==> h in headings && h.text == INSTITUTION_NAME
  {
    if headings == [] then []
    else
      assert headings == headings[..|headings| - 1] + [headings[|headings| - 1]];
      Supported(headings[..|headings| - 1])
      + (if headings[|headings| - 1].text == INSTITUTION_NAME then [headings[|headings| - 1]] else [])
  }

  function SpanSet(h: HeadingCandidate): set<nat> {
    set id | id in h.spanIds
  }

  /** Another institution is named outside the supported headings. */
  predicate Conflicts(headings: seq<HeadingCandidate>) {
    exists h :: h in headings && LooksLikeDifferentInstitution(h)
                && forall s :: s in Supported(headings) ==> !(SpanSet(h) <= SpanSet(s))
  }

  /** The greatest signature below any of the headings, the first on a tie. */
  function BestSignature(reading: Reading, headings: seq<HeadingCandidate>): seq<AnchorId>
    requires headings != []
  {
    var k := |headings| - 1;
    var last := BodySignature(AnchorRules(reading, headings[k].endKey));
    if k == 0 then last
    else
      var before := BestSignature(reading, headings[..k]);
      if LexLess(SignatureKey(before), SignatureKey(last)) then last else before
  }

  function MatchReading(reading: Reading): Match {
    var headings := Headings(reading);
    var supported := Supported(headings);
    if Conflicts(headings) then Match(NotMatched, [])
    else if supported == [] then Match(Insufficient, [])
    else
      var body := BestSignature(reading, supported);
      Match(if |body| >= MINIMUM_BODY_ANCHORS then Matched else Insufficient, [Heading] + body)
  }

  /** The best signature is that of a real chain below one of the headings. */
  lemma {:induction false} BestIsReal(reading: Reading, headings: seq<HeadingCandidate>)
    returns (h: HeadingCandidate, c: seq<Occurrence>)
    requires headings != []
    ensures h in headings && EligibleChain(AnchorRules(reading, h.endKey), c) && IdsOf(c) == BestSignature(reading, headings)
  {
    var k := |headings| - 1;
    h := headings[k];
    AnchorRulesFit(reading, h.endKey);
    c := SignatureIsReal(AnchorRules(reading, h.endKey));
    hide AnchorRules, BodySignature, SignatureKey, EligibleChain;
    if k > 0 {
      var h', c' := BestIsReal(reading, headings[..k]);
      if BestSignature(reading, headings) == BestSignature(reading, headings[..k]) {
        h, c := h', c';
      }
    }
  }

  lemma {:induction false} BestBeats(reading: Reading, headings: seq<HeadingCandidate>, h: HeadingCandidate)
    requires h in headings
    ensures !LexLess(SignatureKey(BestSignature(reading, headings)),
                     SignatureKey(BodySignature(AnchorRules(reading, h.endKey))))
  {
    hide AnchorRules, BodySignature;
    var k := |headings| - 1;
    var last := SignatureKey(BodySignature(AnchorRules(reading, headings[k].endKey)));
    var all := SignatureKey(BestSignature(reading, headings));
    LexTotal(last, all);
    if h != headings[k] {
      assert h in headings[..k];
      BestBeats(reading, headings[..k], h);
      var before := SignatureKey(BestSignature(reading, headings[..k]));
      LexTotal(before, last);
      NotLessTransitive(SignatureKey(BodySignature(AnchorRules(reading, h.endKey))), before, all);
    }
  }

  lemma ChainRises(rules: seq<seq<Occurrence>>, c: seq<Occurrence>)
    requires RulesFit(rules) && Chain(rules, c)
    ensures Rising(IdsOf(c)) && Heading !in IdsOf(c)
  {
    hide Follows;
    forall i | 0 <= i < |c| ensures c[i].anchor != Heading {
      assert Occurs(rules, c[i]);
    }
  }

  /** The page's decision is one that the contract allows. */
  lemma MatchIsValid(reading: Reading)
    ensures ValidMatch(MatchReading(reading))
  {
    var supported := Supported(Headings(reading));
    hide Conflicts, Headings, Rising;
    if !Conflicts(Headings(reading)) && supported != [] {
      var h, c := BestIsReal(reading, supported);
      AnchorRulesFit(reading, h.endKey);
      ChainRises(AnchorRules(reading, h.endKey), c);
      CountsRising(BestSignature(reading, supported));
      hide BestSignature, InOrder, BodyCount;
    } else {
      NoneInOrder();
    }
  }

  /** What the anchors of a chain below a heading are: found on the page, each for its rule, after the heading. */
  ghost predicate StandsBelow(reading: Reading, h: HeadingCandidate, o: Occurrence) {
    exists k :: 0 <= k < |BODY_ANCHOR_RULES| && BODY_ANCHOR_RULES[k].anchor == o.anchor
                && IsReal(reading, BODY_ANCHOR_RULES[k], o) && LexLess(h.endKey, o.startKey)
  }

  lemma ChainStandsBelow(reading: Reading, h: HeadingCandidate, c: seq<Occurrence>, i: nat)
    requires Chain(AnchorRules(reading, h.endKey), c) && i < |c|
    ensures StandsBelow(reading, h, c[i])
  {
    hide Follows, Found, IsReal, LexLess;
    var rules := AnchorRules(reading, h.endKey);
    assert Occurs(rules, c[i]);
    var k :| 0 <= k < |rules| && c[i] in rules[k];
    FoundAreReal(reading, BODY_ANCHOR_RULES[k], h.endKey);
  }

  /** A page of a different institution's is never matched; a matched page shows the institution's own heading. */
  predicate InstitutionStands(reading: Reading, h: HeadingCandidate) {
    h in Headings(reading) && h.text == INSTITUTION_NAME && !Conflicts(Headings(reading))
  }

  /** Real anchors below a heading in template order, each strictly after the one before and compatible with it. */
  ghost predicate RealChain(reading: Reading, h: HeadingCandidate, c: seq<Occurrence>) {
    && (forall i :: 0 <= i < |c| ==> StandsBelow(reading, h, c[i]))
    && (forall i, j :: 0 <= i < j < |c| ==> Rank(c[i].anchor) < Rank(c[j].anchor))
    && (forall i :: 0 < i < |c| ==> Follows(c[i - 1], c[i]))
  }

  /** Three body anchors or more, beginning on three lines or more. */
  predicate Suffices(c: seq<Occurrence>) {
    |c| >= MINIMUM_BODY_ANCHORS && |AnchorLines(c)| >= MINIMUM_BODY_ANCHORS
  }

  /** A page is matched only if there is a sufficient real chain below a supported heading, and reports its anchors. */
  lemma MatchedMeansRealChain(reading: Reading) returns (h: HeadingCandidate, c: seq<Occurrence>)
    requires MatchReading(reading).status == Matched
    ensures InstitutionStands(reading, h) && RealChain(reading, h, c) && Suffices(c)
    ensures MatchReading(reading).ids == [Heading] + IdsOf(c)
  {
    hide StandsBelow, Follows, Headings, Conflicts, AnchorLines, BestSignature, Rank, AnchorRules;
    var supported := Supported(Headings(reading));
    h, c := BestIsReal(reading, supported);
    forall i | 0 <= i < |c| ensures StandsBelow(reading, h, c[i]) {
      ChainStandsBelow(reading, h, c, i);
    }
  }

  /** No occurrence below a supported heading costs another of its line a continuation. */
  predicate ExchangeBelow(reading: Reading, headings: seq<HeadingCandidate>) {
    forall h :: h in headings ==> LineExchange(AnchorRules(reading, h.endKey))
  }

  predicate QualifyingChain(reading: Reading, h: HeadingCandidate, c: seq<Occurrence>) {
    InstitutionStands(reading, h) && Qualifies(AnchorRules(reading, h.endKey), c)
  }

  /** Below one heading, a qualifying chain makes the page's best signature three anchors long. */
  lemma QualifyingIsEnough(reading: Reading, headings: seq<HeadingCandidate>, h: HeadingCandidate, c: seq<Occurrence>)
    requires WellIndexed(reading) && ExchangeBelow(reading, headings) && h in headings
    requires Qualifies(AnchorRules(reading, h.endKey), c)
    ensures |BestSignature(reading, headings)| >= MINIMUM_BODY_ANCHORS
  {
    hide WellIndexed, AnchorRules, Qualifies, BodySignature, LineExchange, BestSignature;
    var rules := AnchorRules(reading, h.endKey);
    AnchorRulesFit(reading, h.endKey);
    AnchorLinesFit(reading, h.endKey);
    ThreeReportedIff(rules);
    BestBeats(reading, headings, h);
    LengthFirst(BestSignature(reading, headings), BodySignature(rules));
  }

  /** Where no occurrence costs another a continuation, a page is matched exactly when it has a qualifying chain. */
  lemma MatchedExactlyOnChains(reading: Reading)
    requires WellIndexed(reading) && ExchangeBelow(reading, Supported(Headings(reading)))
    ensures MatchReading(reading).status == Matched <==> exists h, c :: QualifyingChain(reading, h, c)
  {
    hide Headings, Conflicts, AnchorRules, ExchangeBelow, EligibleChain, BestSignature, WellIndexed;
    var supported := Supported(Headings(reading));
    if MatchReading(reading).status == Matched {
      var h, c := BestIsReal(reading, supported);
      assert QualifyingChain(reading, h, c);
    }
    forall h, c | QualifyingChain(reading, h, c) ensures MatchReading(reading).status == Matched {
      QualifyingIsEnough(reading, supported, h, c);
    }
  }

  /** Real anchors are found anchors where nothing is cut off and no two share both ends. */
  lemma RealChainIsFound(reading: Reading, h: HeadingCandidate, c: seq<Occurrence>)
    requires Unambiguous(reading) && NothingCutOff(reading, h.endKey) && RealChain(reading, h, c) && Suffices(c)
    ensures Qualifies(AnchorRules(reading, h.endKey), c)
  {
    hide Found, IsReal, Follows, LexLess, AnchorLines, UnambiguousFor, NotCutOff, Rank;
    var rules := AnchorRules(reading, h.endKey);
    forall i | 0 <= i < |c| ensures Occurs(rules, c[i]) {
      var k :| 0 <= k < |BODY_ANCHOR_RULES| && BODY_ANCHOR_RULES[k].anchor == c[i].anchor
               && IsReal(reading, BODY_ANCHOR_RULES[k], c[i]) && LexLess(h.endKey, c[i].startKey);
      FoundExactlyReal(reading, BODY_ANCHOR_RULES[k], h.endKey, c[i]);
      assert c[i] in rules[k];
    }
  }

  /**
   A page is matched exactly when there is a sufficient real chain below a supported heading, if below each of them
   nothing is cut off, no two real anchors share both ends and none costs another of its line a continuation.
   */
  lemma MatchedIffRealChain(spans: seq<Span>)
    requires var reading := Reconstruct(spans);
             && Unambiguous(reading) && ExchangeBelow(reading, Supported(Headings(reading)))
             && forall h :: h in Supported(Headings(reading)) ==> NothingCutOff(reading, h.endKey)
    ensures var reading := Reconstruct(spans);
            MatchReading(reading).status == Matched
            <==> exists h, c :: InstitutionStands(reading, h) && RealChain(reading, h, c) && Suffices(c)
  {
    ReconstructedIsIndexed(spans);
    hide Reconstruct, WellIndexed, Headings, Conflicts, MatchReading, RealChain, Suffices, Unambiguous, NothingCutOff, Qualifies;
    var reading := Reconstruct(spans);
    MatchedExactlyOnChains(reading);
    if MatchReading(reading).status == Matched {
      var h, c := MatchedMeansRealChain(reading);
    }
    forall h, c | InstitutionStands(reading, h) && RealChain(reading, h, c) && Suffices(c)
      ensures MatchReading(reading).status == Matched
    {
      RealChainIsFound(reading, h, c);
      assert QualifyingChain(reading, h, c);
    }
  }
}
