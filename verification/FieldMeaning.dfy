/** What the fields of a notice say of its pages: exactly what the matched pages offer for that very field. */
module FieldMeaning {
  import opened Basics
  import opened Collections
  import opened Sorting
  import opened ReadingOrder
  import opened MappedText
  import opened PageMatch
  import opened CapturePages
  import opened FieldCandidates
  import opened FieldPlaces
  import opened FieldText
  import opened TemplateMatch
  import opened NoticeProvenance
  import opened NoticeExtraction

  // ---------------------------------------------------------------- one field over the matched pages

  predicate IsMatched(pages: seq<Page>, p: Page) {
    p in pages && DecisionOn(p).status == Matched
  }

  ghost predicate OffersNothing(field: FieldName, p: Page) {
    forall c :: !Offers(field, p, c)
  }

  /** Whatever the page offers for the field is one and the same occurrence. */
  ghost predicate OffersOnce(field: FieldName, p: Page) {
    forall c, d :: Offers(field, p, c) && Offers(field, p, d) ==> c.key == d.key
  }

  ghost predicate OffersValue(field: FieldName, p: Page, value: string) {
    exists c :: Offers(field, p, c) && c.value == value
  }

  /** Some matched page offers a reading of that span. */
  ghost predicate OffersSpan(field: FieldName, pages: seq<Page>, id: nat) {
    exists p, c :: IsMatched(pages, p) && Offers(field, p, c) && id in IdsOfSpans(c.spans)
  }

  /** A found field has a value that every matched page offering any offers, each once, and exactly the spans they read. */
  ghost predicate SaysWhatIsOffered(field: FieldName, pages: seq<Page>, f: Field) {
    && (forall p :: IsMatched(pages, p) ==> OffersOnce(field, p))
    && (exists p :: IsMatched(pages, p) && !OffersNothing(field, p))
    && f.value.Some? && (forall p :: IsMatched(pages, p) ==> OffersNothing(field, p) || OffersValue(field, p, f.value.value))
    && forall id :: id in f.spanIds <==> OffersSpan(field, pages, id)
  }

  /** Nothing but that value is offered, at most once on each page, in few spans, and at all. */
  ghost predicate OnlyOffered(field: FieldName, pages: seq<Page>, value: string, few: set<nat>) {
    && |few| <= 32 && (forall id :: OffersSpan(field, pages, id) ==> id in few)
    && (exists p :: IsMatched(pages, p) && !OffersNothing(field, p))
    && forall p :: IsMatched(pages, p) ==> OffersOnce(field, p) && forall c :: Offers(field, p, c) ==> c.value == value
  }

  ghost predicate FieldIs(field: FieldName, pages: seq<Page>, f: Field) {
    && (f.status == FieldNotFound <==> forall p :: IsMatched(pages, p) ==> OffersNothing(field, p))
    && (f.status == FieldFound ==> SaysWhatIsOffered(field, pages, f))
    && (forall value, few :: OnlyOffered(field, pages, value, few) ==> f.status == FieldFound && f.value == Some(value))
  }

  lemma PageDecision(field: FieldName, p: Page)
    ensures var d := DecisionFrom(Candidates(field, p));
            && (d == NoCandidate <==> OffersNothing(field, p)) && (d == Unclear <==> !OffersOnce(field, p))
            && (d.Decided? ==> Offers(field, p, d.candidate))
  {
    hide Offers, Candidates, DecisionFrom;
    var cs := Candidates(field, p);
    DecidedIff(cs);
    forall c: Candidate | true ensures c in cs <==> Offers(field, p, c) { CandidatesAre(field, p, c); }
    assert cs != [] ==> cs[0] in cs;
  }

  lemma ReadingIsKeyed(page: Page, mapped: Mapped, b: Bounds, isValid: string -> bool, c: Candidate)
    requires IsRead(page, mapped, b, isValid, c)
    ensures c.key.spanIds == IdsOfSpans(c.spans)
  {
    hide SourceSpans, SourceValue, Blank, Certain, SourceBox, StructuralAt;
  }

  /** The occurrence of an offer names its spans. */
  lemma OfferIsKeyed(field: FieldName, p: Page, c: Candidate)
    requires Offers(field, p, c)
    ensures c.key.spanIds == IdsOfSpans(c.spans)
  {
    hide IsRead, RunIn, NamePlace, ProvincePlace, FirstUnitEnd, OpensAt, MajorBegins, HoldsMajor, SetApart, OccursAt, Punctuation;
    forall mapped, b, isValid | IsRead(p, mapped, b, isValid, c) ensures c.key.spanIds == IdsOfSpans(c.spans) {
      ReadingIsKeyed(p, mapped, b, isValid, c);
    }
    hide IdsOfSpans;
  }

  function DecisionsOn(field: FieldName, matched: seq<Page>): seq<Decision> {
    Collect(matched, DecisionOnField(field))
  }

  lemma DecisionsAre(field: FieldName, matched: seq<Page>, d: Decision)
    ensures d in DecisionsOn(field, matched) <==> exists p :: p in matched && d == DecisionFrom(Candidates(field, p))
  {
    hide Collect, Candidates, DecisionFrom;
    CollectHas(matched, DecisionOnField(field), d);
    if p :| p in matched && d == DecisionFrom(Candidates(field, p)) {
      CollectMember(matched, DecisionOnField(field), p, d);
    }
  }

  lemma SpanIsOffered(field: FieldName, matched: seq<Page>, pages: seq<Page>, id: nat)
    requires forall p :: p in matched <==> IsMatched(pages, p)
    requires forall p :: IsMatched(pages, p) ==> OffersOnce(field, p)
    ensures HasSpan(DecisionsOn(field, matched), id) <==> OffersSpan(field, pages, id)
  {
    hide Offers, Candidates, DecisionFrom, IsMatched, DecisionsOn;
    var ds := DecisionsOn(field, matched);
    if HasSpan(ds, id) {
      var i, k :| 0 <= i < |ds| && ds[i].Decided? && 0 <= k < |ds[i].candidate.spans| && ds[i].candidate.spans[k].id == id;
      DecisionsAre(field, matched, ds[i]);
      var p :| p in matched && ds[i] == DecisionFrom(Candidates(field, p));
      PageDecision(field, p);
      assert IdsOfSpans(ds[i].candidate.spans)[k] == id;
    }
    if OffersSpan(field, pages, id) {
      var p, c :| IsMatched(pages, p) && Offers(field, p, c) && id in IdsOfSpans(c.spans);
      var d := DecisionFrom(Candidates(field, p));
      PageDecision(field, p);
      DecisionsAre(field, matched, d);
      OfferIsKeyed(field, p, c);
      OfferIsKeyed(field, p, d.candidate);
      var i :| 0 <= i < |ds| && ds[i] == d;
      var k :| 0 <= k < |IdsOfSpans(d.candidate.spans)| && IdsOfSpans(d.candidate.spans)[k] == id;
      assert ds[i].candidate.spans[k].id == id;
    }
  }

  lemma {:induction false} RisingFits(spans: seq<Span>, few: set<nat>)
    requires RisingIds(spans) && forall i :: 0 <= i < |spans| ==> spans[i].id in few
    ensures |spans| <= |few|
  {
    if spans != [] {
      var k := |spans| - 1;
      RisingFits(spans[..k], few - {spans[k].id});
    }
  }

  lemma FewSpans(field: FieldName, ds: seq<Decision>, few: set<nat>)
    requires forall id :: HasSpan(ds, id) ==> id in few
    ensures |SortedSpans(Collect(Collect(ds, CandidateOf), SpansOfCandidate))| <= |few|
  {
    hide Collect, SortedSpans, HasSpan;
    var all := Collect(Collect(ds, CandidateOf), SpansOfCandidate);
    var sorted := SortedSpans(all);
    SortedSpansAre(all);
    forall i | 0 <= i < |sorted| ensures sorted[i].id in few {
      SpanIdsAre(ds, sorted[i].id);
      assert IdsOfSpans(sorted)[i] == sorted[i].id;
    }
    RisingFits(sorted, few);
  }

  /** Pages that offer nothing but one value make the field found with that value. */
  lemma OnlyOfferedIsFound(field: FieldName, matched: seq<Page>, pages: seq<Page>, value: string, few: set<nat>)
    requires forall p :: p in matched <==> IsMatched(pages, p)
    requires OnlyOffered(field, pages, value, few)
    ensures var f := FieldOn(field, matched); f.status == FieldFound && f.value == Some(value)
  {
    hide Offers, Candidates, DecisionFrom, IsMatched, DecisionOnField, Collect, HasSpan, SortedSpans, OffersSpan;
    var ds := DecisionsOn(field, matched);
    var cs := Collect(ds, CandidateOf);
    FieldFoundIff(ds);
    forall d | d in ds ensures d != Unclear && (d.Decided? ==> d.candidate.value == value) {
      DecisionsAre(field, matched, d);
      var p :| p in matched && d == DecisionFrom(Candidates(field, p));
      PageDecision(field, p);
    }
    forall c | c in cs ensures c.value == value {
      var d := Contributor(ds, CandidateOf, c);
    }
    var p :| IsMatched(pages, p) && !OffersNothing(field, p);
    var d := DecisionFrom(Candidates(field, p));
    PageDecision(field, p);
    DecisionsAre(field, matched, d);
    CollectMember(ds, CandidateOf, d, d.candidate);
    forall id: nat | HasSpan(ds, id) ensures id in few {
      SpanIsOffered(field, matched, pages, id);
    }
    FewSpans(field, ds, few);
  }

  lemma FoundIsOffered(field: FieldName, matched: seq<Page>, pages: seq<Page>)
    requires forall p :: p in matched <==> IsMatched(pages, p)
    requires FieldOn(field, matched).status == FieldFound
    ensures SaysWhatIsOffered(field, pages, FieldOn(field, matched))
  {
    hide Offers, Candidates, DecisionFrom, IsMatched, DecisionOnField, Collect, HasSpan, SortedSpans, OffersSpan;
    var ds, f := DecisionsOn(field, matched), FieldOn(field, matched);
    var cs := Collect(ds, CandidateOf);
    FieldFoundIff(ds);
    forall p | IsMatched(pages, p)
      ensures OffersOnce(field, p) && (OffersNothing(field, p) || (f.value.Some? && OffersValue(field, p, f.value.value)))
    {
      PageDecision(field, p);
      DecisionsAre(field, matched, DecisionFrom(Candidates(field, p)));
    }
    var d := Contributor(ds, CandidateOf, cs[0]);
    DecisionsAre(field, matched, d);
    var p :| p in matched && d == DecisionFrom(Candidates(field, p));
    PageDecision(field, p);
    forall id: nat | true ensures id in f.spanIds <==> OffersSpan(field, pages, id) {
      SpanIsOffered(field, matched, pages, id);
    }
  }

  lemma NothingIsOffered(field: FieldName, matched: seq<Page>, pages: seq<Page>)
    requires forall p :: p in matched <==> IsMatched(pages, p)
    ensures FieldOn(field, matched).status == FieldNotFound <==> forall p :: IsMatched(pages, p) ==> OffersNothing(field, p)
  {
    hide Offers, Candidates, DecisionFrom, IsMatched, DecisionOnField, Collect, HasSpan, SortedSpans;
    var ds := DecisionsOn(field, matched);
    FieldFoundIff(ds);
    forall p | p in matched ensures DecisionFrom(Candidates(field, p)) in ds {
      DecisionsAre(field, matched, DecisionFrom(Candidates(field, p)));
    }
    forall p: Page | true ensures DecisionFrom(Candidates(field, p)) == NoCandidate <==> OffersNothing(field, p) {
      PageDecision(field, p);
    }
    forall d | d in ds ensures exists p :: p in matched && d == DecisionFrom(Candidates(field, p)) {
      DecisionsAre(field, matched, d);
    }
  }

  lemma FieldOnIs(field: FieldName, matched: seq<Page>, pages: seq<Page>)
    requires forall p :: p in matched <==> IsMatched(pages, p)
    ensures FieldIs(field, pages, FieldOn(field, matched))
  {
    hide FieldOn, SaysWhatIsOffered, OnlyOffered, IsMatched, OffersNothing;
    NothingIsOffered(field, matched, pages);
    if FieldOn(field, matched).status == FieldFound {
      FoundIsOffered(field, matched, pages);
    }
    forall value, few | OnlyOffered(field, pages, value, few)
      ensures FieldOn(field, matched).status == FieldFound && FieldOn(field, matched).value == Some(value)
    {
      OnlyOfferedIsFound(field, matched, pages, value, few);
    }
  }

  lemma SameElements<T>(a: seq<T>, b: seq<T>)
    requires multiset(a) == multiset(b)
    ensures forall x :: x in a <==> x in b
  {
    forall x | true ensures x in a <==> x in b {
      assert x in multiset(a) <==> x in multiset(b);
    }
  }

  /**
   Every field of a notice says what the matched pages offer for that very field: nothing where none offers any, and
   where one is found a value that each page offering any offers, once, with exactly the spans it is read from.
   */
  lemma NoticeSaysWhatStands(pages: seq<Page>)
    requires Extract(pages).Extracted?
    ensures var n := Extract(pages).notice;
            && FieldIs(Name, pages, n.name) && FieldIs(SourceProvince, pages, n.sourceProvince)
            && FieldIs(College, pages, n.college) && FieldIs(Major, pages, n.major)
  {
    hide Sort, FieldOn, DecisionOn, MatchOrdered, FieldIs;
    var m := MatchPages(pages).value;
    CaptureMatchedIff(pages);
    FieldOnIs(Name, m.matched, pages);
    FieldOnIs(SourceProvince, m.matched, pages);
    FieldOnIs(College, m.matched, pages);
    FieldOnIs(Major, m.matched, pages);
  }

  predicate OfResult(pages: seq<Page>, id: nat) {
    exists i :: 0 <= i < |pages| && pages[i].resultId == id
  }

  predicate OfFrame(pages: seq<Page>, id: nat) {
    exists i :: 0 <= i < |pages| && pages[i].frameId == id
  }

  lemma IdsOfPages(ordered: seq<Page>, pages: seq<Page>)
    requires forall p :: p in ordered <==> p in pages
    ensures forall x :: x in ResultIds(ordered) <==> OfResult(pages, x)
    ensures forall x :: x in FrameIds(ordered) <==> OfFrame(pages, x)
  {
    forall x: nat | true ensures x in ResultIds(ordered) <==> OfResult(pages, x) {
      if x in ResultIds(ordered) {
        var i :| 0 <= i < |ordered| && ResultIds(ordered)[i] == x;
        assert ordered[i] in pages;
      }
      if OfResult(pages, x) {
        var i :| 0 <= i < |pages| && pages[i].resultId == x;
        assert pages[i] in pages;
        var k :| 0 <= k < |ordered| && ordered[k] == pages[i];
        assert ResultIds(ordered)[k] == x;
      }
    }
    forall x: nat | true ensures x in FrameIds(ordered) <==> OfFrame(pages, x) {
      if x in FrameIds(ordered) {
        var i :| 0 <= i < |ordered| && FrameIds(ordered)[i] == x;
        assert ordered[i] in pages;
      }
      if OfFrame(pages, x) {
        var i :| 0 <= i < |pages| && pages[i].frameId == x;
        assert pages[i] in pages;
        var k :| 0 <= k < |ordered| && ordered[k] == pages[i];
        assert FrameIds(ordered)[k] == x;
      }
    }
  }

  /** A notice names exactly the results and frames of the pages, all of one epoch. */
  lemma NoticeNamesThePages(pages: seq<Page>)
    requires Extract(pages).Extracted?
    ensures var n := Extract(pages).notice;
            && (forall p :: p in pages ==> p.epoch == n.epoch)
            && (forall x :: x in n.resultIds <==> OfResult(pages, x))
            && (forall x :: x in n.frameIds <==> OfFrame(pages, x))
  {
    hide Sort, FieldOn, DecisionOn, MatchOrdered, OfResult, OfFrame;
    var n, ordered := Extract(pages).notice, MatchPages(pages).value.ordered;
    MatchedAreOrdered(pages);
    SortMultiset(pages, ResultKey);
    SameElements(ordered, pages);
    IdsOfPages(ordered, pages);
    SortMultiset(ResultIds(ordered), NatKey);
    SameElements(n.resultIds, ResultIds(ordered));
    SortMultiset(FrameIds(ordered), NatKey);
    SameElements(n.frameIds, FrameIds(ordered));
  }

  predicate AnyDecides(pages: seq<Page>, status: MatchStatus) {
    exists p :: p in pages && DecisionOn(p).status == status
  }

  /** What comes of the pages of a capture: which are refused as input, which for their template, and which make a notice. */
  lemma ExtractionIs(pages: seq<Page>)
    ensures var usable := 1 <= |pages| <= 3 && Usable(pages);
            && (Extract(pages).InvalidInput? <==> !usable)
            && (Extract(pages) == Incompatible(NotMatched) <==> usable && AnyDecides(pages, NotMatched))
            && (Extract(pages).Extracted? <==> usable && !AnyDecides(pages, NotMatched) && AnyDecides(pages, Matched))
            && (Extract(pages) == Incompatible(Insufficient) <==>
                  usable && !AnyDecides(pages, NotMatched) && !AnyDecides(pages, Matched))
  {
    AcceptedIff(pages);
    hide Sort, FieldOn, DecisionOn, MatchOrdered, Usable, Consistent;
    if OrderedPages(pages).Some? {
      CaptureMatchedIff(pages);
      MatchedAreOrdered(pages);
    }
  }
}
