/** Which stretches of a page are headings: exactly those that stand in its title region under the nesting rule. */
module TitlePlaces {
  import opened Basics
  import opened Collections
  import opened Sorting
  import opened ReadingOrder
  import opened ReadingLoops
  import opened MappedText
  import opened TemplateMatch
  import opened PageMatch
  import opened FieldText

  predicate Around(text: string, a: int, b: int) {
    0 <= a <= b <= |text| && forall i :: a <= i < b ==> text[i] in TITLE_SURROUNDING_PUNCTUATION
  }

  /** A part of the text with only punctuation around it, and none at its own ends. */
  predicate Core(text: string, a: int, b: int) {
    && 0 <= a < b <= |text| && Around(text, 0, a) && Around(text, b, |text|)
    && text[a] !in TITLE_SURROUNDING_PUNCTUATION && text[b - 1] !in TITLE_SURROUNDING_PUNCTUATION
  }

  predicate InTitle(box: Box) {
    box.maxY <= 0.20 && box.maxX - box.minX >= 0.16 && 0.15 <= (box.minX + box.maxX) / 2.0 <= 0.85
  }

  /** The heading reads the core of the whole text, whose spans stand in the title region. */
  predicate TitleReads(mapped: Mapped, a: int, b: int, h: HeadingCandidate) {
    var text, spans := TextOf(mapped), SourceSpans(mapped);
    && Core(text, a, b) && h.text == text[a..b] && h.spanIds == IdsOfSpans(spans)
    && h.startKey == PositionKey(mapped, 0, false) && h.endKey == PositionKey(mapped, |mapped| - 1, true)
    && SourceBox(spans).Some?
    && var box := SourceBox(spans).value; InTitle(box) && h.maxY == box.maxY && h.width == box.maxX - box.minX
  }

  ghost predicate Titled(path: seq<Run>, h: HeadingCandidate) {
    exists a, b :: TitleReads(PathCharacters(path), a, b, h)
  }

  /** The first mention of the name has a modifier right before or right behind it. */
  ghost predicate Nested(text: string) {
    exists p: nat, i :: FirstAt(text, INSTITUTION_NAME, 0, p) && 0 <= i < |NESTING_MODIFIERS| && ModifiedBy(text, p, NESTING_MODIFIERS[i])
  }

  predicate ModifiedBy(text: string, p: nat, modifier: string) {
    OccursAt(text, modifier, p - |modifier|) || OccursAt(text, modifier, p + |INSTITUTION_NAME|)
  }

  ghost predicate NamesItself(run: Run) {
    exists h :: Titled([run], h) && h.text == INSTITUTION_NAME
  }

  predicate OnReading(reading: Reading, run: Run) {
    exists line :: line in reading.lines && run in line.runs
  }

  /** Two related runs together, which must be nested if one of them by itself names the institution. */
  ghost predicate TitledTogether(reading: Reading, run: Run, next: Run, h: HeadingCandidate) {
    && next in RelatedRuns(reading, run, run.lineIndex + 1) && Titled([run, next], h)
    && (NamesItself(run) || NamesItself(next) ==> Nested(h.text))
  }

  ghost predicate IsHeading(reading: Reading, h: HeadingCandidate) {
    exists run :: OnReading(reading, run) && (Titled([run], h) || exists next :: TitledTogether(reading, run, next, h))
  }

  // ---------------------------------------------------------------- one stretch of text

  lemma {:induction false} StripStartIs(text: string) returns (a: nat)
    ensures a <= |text| && StripStart(text) == text[a..] && Around(text, 0, a)
    ensures a < |text| ==> text[a] !in TITLE_SURROUNDING_PUNCTUATION
  {
    hide TITLE_SURROUNDING_PUNCTUATION;
    if text != "" && text[0] in TITLE_SURROUNDING_PUNCTUATION {
      var x := StripStartIs(text[1..]);
      a := x + 1;
      assert text[1..][x..] == text[a..];
      assert forall i :: 0 < i <= x ==> text[i] == text[1..][i - 1];
    } else {
      a := 0;
      assert text[0..] == text;
    }
  }

  lemma {:induction false} StripEndIs(text: string) returns (b: nat)
    ensures b <= |text| && StripEnd(text) == text[..b] && Around(text, b, |text|)
    ensures b > 0 ==> text[b - 1] !in TITLE_SURROUNDING_PUNCTUATION
  {
    hide TITLE_SURROUNDING_PUNCTUATION;
    if text != "" && text[|text| - 1] in TITLE_SURROUNDING_PUNCTUATION {
      var k := |text| - 1;
      b := StripEndIs(text[..k]);
      assert text[..k][..b] == text[..b];
      assert forall i :: b <= i < k ==> text[i] == text[..k][i];
    } else {
      b := |text|;
      assert text[..|text|] == text;
    }
  }

  lemma CoreIsOne(text: string, a: int, b: int, c: int, d: int)
    requires Core(text, a, b) && Core(text, c, d)
    ensures a == c && b == d
  {
    hide TITLE_SURROUNDING_PUNCTUATION;
  }

  /** Stripping leaves the core, or nothing if there is none. */
  lemma StrippedIsCore(text: string) returns (a: nat, b: nat)
    ensures a <= b <= |text| && StripEnd(StripStart(text)) == text[a..b] && (a < b ==> Core(text, a, b))
    ensures a == b ==> forall c, d :: !Core(text, c, d)
  {
    hide TITLE_SURROUNDING_PUNCTUATION, StripStart, StripEnd;
    a := StripStartIs(text);
    var rest := text[a..];
    var n := StripEndIs(rest);
    b := a + n;
    assert rest[..n] == text[a..b];
    assert forall i :: 0 <= i < |rest| ==> rest[i] == text[a + i];
    assert forall i :: b <= i < |text| ==> text[i] == rest[i - a];
  }

  /** A text makes a heading exactly when it reads so. */
  lemma HeadingIs(mapped: Mapped, h: HeadingCandidate)
    ensures HeadingOf(mapped) == Some(h) <==> exists a, b :: TitleReads(mapped, a, b, h)
  {
    hide StripStart, StripEnd, Core, SourceSpans, SourceBox, PositionKey;
    var text := TextOf(mapped);
    var a, b := StrippedIsCore(text);
    if HeadingOf(mapped) == Some(h) {
      assert TitleReads(mapped, a, b, h);
    }
    if c, d :| TitleReads(mapped, c, d, h) {
      assert mapped != [] by { CoreIsThere(text, c, d); }
      if a < b { CoreIsOne(text, a, b, c, d); }
    }
  }

  lemma CoreIsThere(text: string, c: int, d: int)
    requires Core(text, c, d)
    ensures text != ""
  {
  }

  lemma TitledIs(path: seq<Run>, h: HeadingCandidate)
    ensures HeadingOf(PathCharacters(path)) == Some(h) <==> Titled(path, h)
  {
    HeadingIs(PathCharacters(path), h);
    hide HeadingOf, TitleReads, PathCharacters;
  }

  lemma NamesItselfIs(run: Run)
    ensures NamesInstitution(HeadingOf(PathCharacters([run]))) <==> NamesItself(run)
  {
    hide HeadingOf, Titled, PathCharacters, INSTITUTION_NAME;
    forall h: HeadingCandidate | true ensures HeadingOf(PathCharacters([run])) == Some(h) <==> Titled([run], h) {
      TitledIs([run], h);
    }
  }

  lemma NestedIs(text: string)
    ensures HasNestedModifier(text) <==> Nested(text)
  {
    assert INSTITUTION_NAME != "";
    hide NESTING_MODIFIERS, INSTITUTION_NAME, OccursAt;
    var starts := Starts(text, INSTITUTION_NAME);
    if starts != [] {
      var p := starts[0];
      assert FirstAt(text, INSTITUTION_NAME, 0, p) by {
        assert forall q: nat :: OccursAt(text, INSTITUTION_NAME, q) ==> q in starts;
      }
      assert p + |INSTITUTION_NAME| <= |text| by { OccursWithin(text, INSTITUTION_NAME, p); }
      forall i | 0 <= i < |NESTING_MODIFIERS|
        ensures (EndsWith(text[..p], NESTING_MODIFIERS[i]) || NESTING_MODIFIERS[i] <= text[p + |INSTITUTION_NAME|..])
                <==> ModifiedBy(text, p, NESTING_MODIFIERS[i])
      {
        NextTo(text, p, p + |INSTITUTION_NAME|, NESTING_MODIFIERS[i]);
      }
      hide EndsWith, ModifiedBy;
    }
  }

  lemma NextTo(text: string, p: nat, q: nat, modifier: string)
    requires p <= q <= |text|
    ensures EndsWith(text[..p], modifier) <==> OccursAt(text, modifier, p - |modifier|)
    ensures modifier <= text[q..] <==> OccursAt(text, modifier, q)
  {
    if |modifier| <= p {
      assert text[..p][p - |modifier|..] == text[p - |modifier|..p - |modifier| + |modifier|];
    }
    if q + |modifier| <= |text| {
      assert text[q..][..|modifier|] == text[q..q + |modifier|];
    }
  }

  // ---------------------------------------------------------------- all headings of a page

  lemma TogetherIs(reading: Reading, run: Run, next: Run, h: HeadingCandidate)
    requires next in RelatedRuns(reading, run, run.lineIndex + 1)
    ensures h in CombinedPart(run)(next) <==> TitledTogether(reading, run, next, h)
  {
    hide HeadingOf, Titled, PathCharacters, NamesInstitution, NamesItself, HasNestedModifier, Nested, RelatedRuns;
    TitledIs([run, next], h);
    NamesItselfIs(run);
    NamesItselfIs(next);
    NestedIs(h.text);
  }

  lemma HeadingsOfRunAre(reading: Reading, run: Run, h: HeadingCandidate)
    ensures h in HeadingsOfRun(reading)(run) <==> Titled([run], h) || exists next :: TitledTogether(reading, run, next, h)
  {
    hide HeadingOf, Titled, PathCharacters, CombinedPart, Collect, RelatedRuns, NamesItself, Nested;
    TitledIs([run], h);
    var related := RelatedRuns(reading, run, run.lineIndex + 1);
    if h in Collect(related, CombinedPart(run)) {
      var next := Contributor(related, CombinedPart(run), h);
      TogetherIs(reading, run, next, h);
    }
    if next :| TitledTogether(reading, run, next, h) {
      TogetherIs(reading, run, next, h);
      CollectMember(related, CombinedPart(run), next, h);
    }
  }

  lemma HeadingIsCollected(reading: Reading, h: HeadingCandidate)
    ensures h in Collect(reading.lines, HeadingsOfLine(reading)) <==> IsHeading(reading, h)
  {
    hide Collect, HeadingsOfRun, Titled, TitledTogether;
    if h in Collect(reading.lines, HeadingsOfLine(reading)) {
      var line := Contributor(reading.lines, HeadingsOfLine(reading), h);
      var run := Contributor(line.runs, HeadingsOfRun(reading), h);
      HeadingsOfRunAre(reading, run, h);
      assert OnReading(reading, run);
    }
    if run :| OnReading(reading, run) && (Titled([run], h) || exists next :: TitledTogether(reading, run, next, h)) {
      HeadingsOfRunAre(reading, run, h);
      var line :| line in reading.lines && run in line.runs;
      CollectMember(line.runs, HeadingsOfRun(reading), run, h);
      CollectMember(reading.lines, HeadingsOfLine(reading), line, h);
    }
  }

  predicate SameHeading(g: HeadingCandidate, h: HeadingCandidate) {
    g.text == h.text && g.spanIds == h.spanIds
  }

  lemma {:induction false} OnceByKey<T, K>(s: seq<T>, key: T -> K, x: T)
    requires DistinctKeys(s, key)
    ensures multiset(s)[x] <= 1
  {
    if s != [] {
      var k := |s| - 1;
      assert s == s[..k] + [s[k]];
      OnceByKey(s[..k], key, x);
      assert forall i :: 0 <= i < k ==> s[..k][i] == s[i] && key(s[i]) != key(s[k]);
      assert s[k] !in s[..k];
    }
  }

  /** Sorting elements of distinct keys keeps their keys distinct. */
  lemma SortedKeysDiffer<T, K>(s: seq<T>, key: T -> K, order: T -> seq<real>)
    requires DistinctKeys(s, key)
    ensures DistinctKeys(Sort(s, order), key)
  {
    var sorted := Sort(s, order);
    SortMultiset(s, order);
    hide Sort;
    forall i, j | 0 <= i < j < |sorted| ensures key(sorted[i]) != key(sorted[j]) {
      assert sorted[i] in multiset(s) && sorted[j] in multiset(s);
      OnceByKey(s, key, sorted[i]);
      TwiceCounts(sorted, i, j);
    }
  }

  /** A heading's place in the order has eight parts. */
  lemma HeadingIsKeyed(reading: Reading, h: HeadingCandidate)
    requires IsHeading(reading, h)
    ensures |HeadingOrder(h)| == 8
  {
    hide PathCharacters, RelatedRuns, Core, SourceBox, SourceSpans, NamesItself, Nested;
  }

  /**
   The headings of a page are titles that stand on it, one for each text and list of spans that any of them has, by
   the position at which they begin and then end.
   */
  lemma HeadingsAre(reading: Reading)
    ensures var headings := Headings(reading);
            && (forall h :: h in headings ==> IsHeading(reading, h))
            && (forall h :: IsHeading(reading, h) ==> exists g :: g in headings && SameHeading(g, h))
            && (forall i, j :: 0 <= i < j < |headings| ==> !SameHeading(headings[i], headings[j]))
            && SortedBy(headings, HeadingOrder)
  {
    hide Collect, HeadingsOfLine, IsHeading, Sort, Latest, LexLess;
    var stream := Collect(reading.lines, HeadingsOfLine(reading));
    var unique, headings := Latest(stream, HeadingKey), Headings(reading);
    LatestAre(stream, HeadingKey);
    SortedKeysDiffer(unique, HeadingKey, HeadingOrder);
    HeadingsHave(reading, unique);
    forall i | 0 <= i < |unique| ensures |HeadingOrder(unique[i])| == 8 {
      HeadingIsCollected(reading, unique[i]);
      HeadingIsKeyed(reading, unique[i]);
    }
    SortSorts(unique, HeadingOrder, 8);
    forall h | h in headings ensures IsHeading(reading, h) { HeadingIsCollected(reading, h); }
    forall h | IsHeading(reading, h) ensures exists g :: g in headings && SameHeading(g, h) {
      HeadingIsCollected(reading, h);
      assert HasKey(unique, HeadingKey, HeadingKey(h));
      var i :| 0 <= i < |unique| && HeadingKey(unique[i]) == HeadingKey(h);
      assert unique[i] in headings && SameHeading(unique[i], h);
    }
    forall i, j | 0 <= i < j < |headings| ensures !SameHeading(headings[i], headings[j]) {
      assert HeadingKey(headings[i]) != HeadingKey(headings[j]);
    }
  }

  lemma HeadingsHave(reading: Reading, unique: seq<HeadingCandidate>)
    requires Headings(reading) == Sort(unique, HeadingOrder)
    ensures forall h :: h in Headings(reading) <==> h in unique
  {
    hide Sort, Headings;
    SortMultiset(unique, HeadingOrder);
    forall h: HeadingCandidate | true ensures h in Headings(reading) <==> h in unique {
      assert h in multiset(Headings(reading)) <==> h in multiset(unique);
    }
  }

  /** A page is turned down exactly when a heading names some other institution beyond the spans of every heading of its own. */
  lemma TurnedDownIff(reading: Reading)
    ensures MatchReading(reading).status == NotMatched <==>
              exists h :: h in Headings(reading) && LooksLikeDifferentInstitution(h)
                          && forall own :: own in Headings(reading) && own.text == INSTITUTION_NAME ==>
                               exists id :: id in h.spanIds && id !in own.spanIds
    ensures MatchReading(reading).status == NotMatched ==> MatchReading(reading).ids == []
  {
    hide Headings, BestSignature, INSTITUTION_NAME;
    var headings := Headings(reading);
    forall h: HeadingCandidate, own: HeadingCandidate | true
      ensures !(SpanSet(h) <= SpanSet(own)) <==> exists id :: id in h.spanIds && id !in own.spanIds
    {
      if !(SpanSet(h) <= SpanSet(own)) {
        var id :| id in SpanSet(h) && id !in SpanSet(own);
        assert id in h.spanIds && id !in own.spanIds;
      }
      if id :| id in h.spanIds && id !in own.spanIds {
        assert id in SpanSet(h) && id !in SpanSet(own);
      }
    }
    hide SpanSet;
  }
}
