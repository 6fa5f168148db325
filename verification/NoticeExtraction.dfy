/** From the candidates of every matched page to the four fields of a notice, and what each such field meets. */
module NoticeExtraction {
  import opened Basics
  import opened Collections
  import opened Sorting
  import opened ReadingOrder
  import opened MappedText
  import opened PageMatch
  import opened CapturePages
  import opened FieldCandidates
  import opened FieldCollectors
  import opened CandidateSources

  // ---------------------------------------------------------------- one field

  datatype FieldStatus = FieldFound | FieldAmbiguous | FieldNotFound

  datatype Decision = NoCandidate | Unclear | Decided(candidate: Candidate)

  datatype Field = Field(status: FieldStatus, value: Option<string>, spanIds: seq<nat>, polygon: Option<Polygon>)

  function KeyOf(c: Candidate): OccurrenceKey {
    c.key
  }

  function DecisionFrom(candidates: seq<Candidate>): Decision {
    var unique := Latest(candidates, KeyOf);
    if unique == [] then NoCandidate else if |unique| != 1 then Unclear else Decided(unique[0])
  }

  /** The page is decided exactly when it has candidates and they all are one occurrence. */
  lemma DecidedIff(candidates: seq<Candidate>)
    ensures DecisionFrom(candidates) == NoCandidate <==> candidates == []
    ensures DecisionFrom(candidates).Decided? <==>
              candidates != [] && forall c :: c in candidates ==> c.key == candidates[0].key
    ensures DecisionFrom(candidates).Decided? ==> DecisionFrom(candidates).candidate in candidates
  {
    var unique := Latest(candidates, KeyOf);
    LatestAre(candidates, KeyOf);
    if candidates != [] {
      assert candidates[0] in candidates && HasKey(unique, KeyOf, KeyOf(candidates[0]));
    }
    forall c | c in candidates && |unique| == 1 ensures c.key == unique[0].key {
      assert HasKey(unique, KeyOf, KeyOf(c));
    }
    if |unique| > 1 {
      assert unique[0] in unique && unique[1] in unique && KeyOf(unique[0]) != KeyOf(unique[1]);
    }
    if unique != [] {
      assert unique[0] in unique;
    }
  }

  function CandidateOf(d: Decision): seq<Candidate> {
    if d.Decided? then [d.candidate] else []
  }

  function RectangleOf(b: Box): Polygon {
    Polygon(Point(b.minX, b.minY), Point(b.maxX, b.minY), Point(b.maxX, b.maxY), Point(b.minX, b.maxY))
  }

  function SpansOfCandidate(c: Candidate): seq<Span> {
    c.spans
  }

  function Empty(status: FieldStatus): Field {
    Field(status, None, [], None)
  }

  predicate OneValue(cs: seq<Candidate>) {
    forall i :: 0 <= i < |cs| ==> cs[i].value == cs[0].value
  }

  function Aggregate(decisions: seq<Decision>): Field {
    var cs := Collect(decisions, CandidateOf);
    if Unclear in decisions then Empty(FieldAmbiguous)
    else if cs == [] then Empty(FieldNotFound)
    else if !OneValue(cs) then Empty(FieldAmbiguous)
    else
      var spans := SortedSpans(Collect(cs, SpansOfCandidate));
      if |spans| > MAX_SOURCE_SPANS_PER_FIELD then Empty(FieldAmbiguous)
      else
        var polygon := if |cs| == 1 && cs[0].box.Some? then Some(RectangleOf(cs[0].box.value)) else None;
        Field(FieldFound, Some(cs[0].value), IdsOfSpans(spans), polygon)
  }

  /**
   A field is found exactly when no page is unclear about it, some page is decided, all decided pages agree on the
   value and their spans are not too many; it then has that value and exactly the spans of all of them.
   */
  lemma FieldFoundIff(decisions: seq<Decision>)
    ensures var cs, f := Collect(decisions, CandidateOf), Aggregate(decisions);
            && (f.status == FieldFound <==>
                  && Unclear !in decisions && cs != [] && OneValue(cs)
                  && |SortedSpans(Collect(cs, SpansOfCandidate))| <= MAX_SOURCE_SPANS_PER_FIELD)
            && (f.status == FieldNotFound <==> forall d :: d in decisions ==> d == NoCandidate)
            && (f.status == FieldFound ==>
                  && (forall d :: d in decisions && d.Decided? ==> f.value == Some(d.candidate.value))
                  && forall id :: id in f.spanIds <==> HasSpan(decisions, id))
  {
    hide Collect, SortedSpans, RectangleOf, HasSpan;
    var cs, f := Collect(decisions, CandidateOf), Aggregate(decisions);
    forall d | d in decisions && d.Decided? ensures d.candidate in cs {
      CollectMember(decisions, CandidateOf, d, d.candidate);
    }
    if cs != [] {
      var d := Contributor(decisions, CandidateOf, cs[0]);
    }
    if f.status == FieldFound {
      forall id: nat | true ensures id in f.spanIds <==> HasSpan(decisions, id) {
        SpanIdsAre(decisions, id);
      }
    }
  }

  /** Some decided page's candidate has the span. */
  predicate HasSpan(decisions: seq<Decision>, id: nat) {
    exists i, k :: 0 <= i < |decisions| && decisions[i].Decided? && 0 <= k < |decisions[i].candidate.spans|
      && decisions[i].candidate.spans[k].id == id
  }

  lemma SpanIdsAre(decisions: seq<Decision>, id: nat)
    ensures id in IdsOfSpans(SortedSpans(Collect(Collect(decisions, CandidateOf), SpansOfCandidate))) <==> HasSpan(decisions, id)
  {
    hide Collect, SortedSpans;
    var cs := Collect(decisions, CandidateOf);
    var all := Collect(cs, SpansOfCandidate);
    var sorted := SortedSpans(all);
    SortedSpansAre(all);
    if id in IdsOfSpans(sorted) {
      var j :| 0 <= j < |sorted| && IdsOfSpans(sorted)[j] == id;
      assert sorted[j] in all;
      var c := Contributor(cs, SpansOfCandidate, sorted[j]);
      var d := Contributor(decisions, CandidateOf, c);
      var i :| 0 <= i < |decisions| && decisions[i] == d;
      var k :| 0 <= k < |c.spans| && c.spans[k] == sorted[j];
      assert decisions[i].candidate.spans[k].id == id;
    }
    if HasSpan(decisions, id) {
      var i, k :| 0 <= i < |decisions| && decisions[i].Decided? && 0 <= k < |decisions[i].candidate.spans|
                  && decisions[i].candidate.spans[k].id == id;
      var c := decisions[i].candidate;
      CollectMember(decisions, CandidateOf, decisions[i], c);
      CollectMember(cs, SpansOfCandidate, c, c.spans[k]);
      assert HasKey(sorted, IdOf, id);
      var j :| 0 <= j < |sorted| && IdOf(sorted[j]) == id;
      assert IdsOfSpans(sorted)[j] == id;
    }
  }

  // ---------------------------------------------------------------- all four fields

  datatype FieldName = Name | SourceProvince | College | Major

  function Candidates(field: FieldName, page: Page): seq<Candidate> {
    var reading := Reconstruct(page.spans);
    match field
    case Name => NameCandidates(page, reading)
    case SourceProvince => ProvinceCandidates(page, reading)
    case College => CollegeCandidates(page, reading)
    case Major => MajorCandidates(page, reading)
  }

  function DecisionOnField(field: FieldName): Page -> seq<Decision> {
    (page: Page) => [DecisionFrom(Candidates(field, page))]
  }

  datatype Notice = Notice(
    epoch: Epoch, resultIds: seq<nat>, frameIds: seq<nat>, name: Field, sourceProvince: Field, college: Field, major: Field)

  datatype Extraction = Extracted(notice: Notice) | Incompatible(status: MatchStatus) | InvalidInput

  function NatKey(n: nat): seq<real> {
    [n as real]
  }

  function ResultIds(pages: seq<Page>): (ids: seq<nat>)
    ensures |ids| == |pages| && forall i :: 0 <= i < |ids| ==> ids[i] == pages[i].resultId
  {
    seq(|pages|, i requires 0 <= i < |pages| => pages[i].resultId)
  }

  function FrameIds(pages: seq<Page>): (ids: seq<nat>)
    ensures |ids| == |pages| && forall i :: 0 <= i < |ids| ==> ids[i] == pages[i].frameId
  {
    seq(|pages|, i requires 0 <= i < |pages| => pages[i].frameId)
  }

  function FieldOn(field: FieldName, matched: seq<Page>): Field {
    Aggregate(Collect(matched, DecisionOnField(field)))
  }

  function Extract(pages: seq<Page>): Extraction {
    var m := MatchPages(pages);
    if m.None? then InvalidInput
    else if m.value.decision.status != Matched then Incompatible(m.value.decision.status)
    else
      var (ordered, matched) := (m.value.ordered, m.value.matched);
      if ordered == [] then InvalidInput
      else
        Extracted(Notice(ordered[0].epoch, Sort(ResultIds(ordered), NatKey), Sort(FrameIds(ordered), NatKey),
                         FieldOn(Name, matched), FieldOn(SourceProvince, matched), FieldOn(College, matched),
                         FieldOn(Major, matched)))
  }

  method DecideField(field: FieldName, page: Page, reading: Reading) returns (d: Decision)
    requires reading == Reconstruct(page.spans)
    ensures [d] == DecisionOnField(field)(page)
  {
    hide Reconstruct, NameCandidates, ProvinceCandidates, CollegeCandidates, MajorCandidates, DecisionFrom;
    var candidates: seq<Candidate>;
    match field {
      case Name => candidates := CollectNames(page, reading);
      case SourceProvince => candidates := CollectProvinces(page, reading);
      case College => candidates := CollectColleges(page, reading);
      case Major => candidates := CollectMajors(page, reading);
    }
    d := DecisionFrom(candidates);
  }

  // ---------------------------------------------------------------- the same for every order of the pages

  /** The extraction does not depend on the order in which the pages are given. */
  lemma ExtractIgnoresPageOrder(a: seq<Page>, b: seq<Page>)
    requires multiset(a) == multiset(b)
    ensures Extract(a) == Extract(b)
  {
    MatchIgnoresPageOrder(a, b);
    hide MatchPages, FieldOn, Sort;
  }

  // ---------------------------------------------------------------- what the contract of a field demands

  predicate RisingNats(ids: seq<nat>) {
    forall i, j :: 0 <= i < j < |ids| ==> ids[i] < ids[j]
  }

  predicate IsRectangle(p: Polygon) {
    && p.p0.x == p.p3.x < p.p1.x == p.p2.x
    && p.p0.y == p.p1.y < p.p2.y == p.p3.y
  }

  /** What the constructor of a field accepts, the bounds on the value's characters aside. */
  predicate FieldFits(f: Field) {
    if f.status == FieldFound then
      && f.value.Some? && 1 <= |f.spanIds| <= MAX_SOURCE_SPANS_PER_FIELD && RisingNats(f.spanIds)
      && (f.polygon.Some? ==> IsRectangle(f.polygon.value))
    else f == Empty(f.status)
  }

  lemma {:induction false} LatestOfDistinct(spans: seq<Span>)
    requires DistinctIds(spans)
    ensures Latest(spans, IdOf) == spans
  {
    if spans != [] {
      var k := |spans| - 1;
      LatestOfDistinct(spans[..k]);
      assert Put(spans[..k], spans[k], IdOf) == spans[..k] + [spans[k]];
      assert spans == spans[..k] + [spans[k]];
    }
  }

  /** Sorting sorted spans again changes nothing. */
  lemma SortedAgain(spans: seq<Span>)
    requires RisingIds(spans)
    ensures SortedSpans(spans) == spans
  {
    LatestOfDistinct(spans);
    hide Sort, Latest;
    SortedAlready(spans, IdKey);
  }

  // ---------------------------------------------------------------- where the spans of a field stand

  /** The spans with these IDs, in this order, all on pages of one result. */
  predicate OnOneResult(ids: seq<nat>, spans: seq<Span>, resultId: nat, pages: seq<Page>) {
    && spans != [] && |spans| == |ids|
    && forall i :: 0 <= i < |ids| ==> spans[i].id == ids[i] && StandsOn(spans[i], resultId, pages)
  }

  predicate StandsOn(s: Span, resultId: nat, pages: seq<Page>) {
    exists i :: 0 <= i < |pages| && pages[i].resultId == resultId && s in pages[i].spans
  }

  ghost predicate IsKnown(id: nat, pages: seq<Page>) {
    exists s, resultId :: StandsOn(s, resultId, pages) && s.id == id
  }

  ghost predicate PolygonIsExact(f: Field, pages: seq<Page>) {
    exists resultId, spans :: OnOneResult(f.spanIds, spans, resultId, pages)
                              && f.polygon == Some(RectangleOf(BoundsOf(spans)))
  }

  /** Known spans only; a polygon is exactly the bounding box of its spans, which stand on one page. */
  ghost predicate FieldIsSourced(f: Field, pages: seq<Page>) {
    f.status == FieldFound ==>
      && (forall i :: 0 <= i < |f.spanIds| ==> IsKnown(f.spanIds[i], pages))
      && (f.polygon.Some? ==> PolygonIsExact(f, pages))
  }

  // ---------------------------------------------------------------- every extraction passes

  lemma CandidateIsFromPage(field: FieldName, page: Page, c: Candidate)
    requires c in Candidates(field, page)
    ensures Sourced(page, c)
  {
    hide Reconstruct, Sourced, NameCandidates, ProvinceCandidates, CollegeCandidates, MajorCandidates;
    match field
    case Name => NamesAreSourced(page, c);
    case SourceProvince => ProvincesAreSourced(page, c);
    case College => CollegesAreSourced(page, c);
    case Major => MajorsAreSourced(page, c);
  }

  /** The page a decided candidate comes from. */
  lemma PageOfCandidate(field: FieldName, matched: seq<Page>, c: Candidate) returns (page: Page)
    requires c in Collect(Collect(matched, DecisionOnField(field)), CandidateOf)
    ensures page in matched && Sourced(page, c)
  {
    hide Collect, Sourced, DecisionFrom, Candidates;
    var d := Contributor(Collect(matched, DecisionOnField(field)), CandidateOf, c);
    page := Contributor(matched, DecisionOnField(field), d);
    DecidedIff(Candidates(field, page));
    CandidateIsFromPage(field, page, c);
  }

  lemma AggregateFits(field: FieldName, matched: seq<Page>)
    ensures FieldFits(FieldOn(field, matched))
  {
    hide Collect, SortedSpans, DecisionOnField, RectangleOf;
    var cs := Collect(Collect(matched, DecisionOnField(field)), CandidateOf);
    var f := FieldOn(field, matched);
    if f.status == FieldFound {
      var page := PageOfCandidate(field, matched, cs[0]);
      var all := Collect(cs, SpansOfCandidate);
      SortedSpansAre(all);
      assert cs[0].spans[0] in cs[0].spans;
      CollectMember(cs, SpansOfCandidate, cs[0], cs[0].spans[0]);
      assert HasKey(SortedSpans(all), IdOf, cs[0].spans[0].id);
      RectangleFits(BoundsOf(cs[0].spans));
      hide BoundsOf;
    }
  }

  lemma RectangleFits(b: Box)
    requires ProperBox(b)
    ensures IsRectangle(RectangleOf(b)) && BoxOf(RectangleOf(b)) == b
  {
  }

  lemma SpanIsKnown(page: Page, pages: seq<Page>, s: Span)
    requires page in pages && s in page.spans
    ensures StandsOn(s, page.resultId, pages) && IsKnown(s.id, pages)
  {
    assert StandsOn(s, page.resultId, pages);
  }

  lemma AggregateIsSourced(field: FieldName, matched: seq<Page>, pages: seq<Page>)
    requires forall p :: p in matched ==> p in pages
    ensures FieldIsSourced(FieldOn(field, matched), pages)
  {
    hide Collect, SortedSpans, DecisionOnField, RectangleOf, IsKnown, PolygonIsExact;
    var cs := Collect(Collect(matched, DecisionOnField(field)), CandidateOf);
    var f := FieldOn(field, matched);
    if f.status == FieldFound {
      var all := Collect(cs, SpansOfCandidate);
      SortedSpansAre(all);
      var spans := SortedSpans(all);
      forall i | 0 <= i < |spans| ensures IsKnown(spans[i].id, pages) {
        assert spans[i] in all;
        var c := Contributor(cs, SpansOfCandidate, spans[i]);
        var page := PageOfCandidate(field, matched, c);
        SpanIsKnown(page, pages, spans[i]);
      }
      if |cs| == 1 {
        OnlyCandidate(cs);
        var page := PageOfCandidate(field, matched, cs[0]);
        CandidateIsExact(page, pages, cs[0], f);
      }
    }
  }

  lemma OnlyCandidate(cs: seq<Candidate>)
    requires |cs| == 1
    ensures Collect(cs, SpansOfCandidate) == cs[0].spans
  {
    assert cs[..0] == [];
  }

  lemma CandidateIsExact(page: Page, pages: seq<Page>, c: Candidate, f: Field)
    requires page in pages && Sourced(page, c) && f.spanIds == IdsOfSpans(SortedSpans(c.spans))
    requires c.box.Some? && f.polygon == Some(RectangleOf(c.box.value))
    ensures PolygonIsExact(f, pages)
  {
    SortedAgain(c.spans);
    hide SortedSpans, RectangleOf, BoundsOf;
    forall i | 0 <= i < |c.spans| ensures StandsOn(c.spans[i], page.resultId, pages) {
      SpanIsKnown(page, pages, c.spans[i]);
    }
    assert OnOneResult(f.spanIds, c.spans, page.resultId, pages);
  }
}
