/** The store's check of an extraction's provenance, and that every extraction passes it. */
module NoticeProvenance {
  import opened Basics
  import opened Collections
  import opened Sorting
  import opened ReadingOrder
  import opened MappedText
  import opened PageMatch
  import opened CapturePages
  import opened CandidateSources
  import opened NoticeExtraction

  /** No span twice, and every field sourced. */
  ghost predicate ProvenanceIsValid(n: Notice, pages: seq<Page>) {
    && DistinctIds(Collect(pages, SpansOfPage))
    && FieldIsSourced(n.name, pages) && FieldIsSourced(n.sourceProvince, pages)
    && FieldIsSourced(n.college, pages) && FieldIsSourced(n.major, pages)
  }

  // ---------------------------------------------------------------- the check

  /** A span and the result it belongs to. */
  datatype Owned = Owned(resultId: nat, span: Span)

  predicate OwnsAll(index: map<nat, Owned>, spans: seq<Span>, resultId: nat) {
    forall i :: 0 <= i < |spans| ==> spans[i].id in index && index[spans[i].id] == Owned(resultId, spans[i])
  }

  /** The index has exactly the spans of the pages, which have no ID twice. */
  ghost predicate IsIndexOf(index: map<nat, Owned>, pages: seq<Page>) {
    && DistinctIds(Collect(pages, SpansOfPage))
    && (forall i :: 0 <= i < |pages| ==> OwnsAll(index, pages[i].spans, pages[i].resultId))
    && (forall id :: id in index ==> index[id].span.id == id && index[id].span in Collect(pages, SpansOfPage)
                                     && StandsOn(index[id].span, index[id].resultId, pages))
  }

  lemma {:induction false} CollectedPrefix<T, U>(s: seq<T>, i: nat, part: T -> seq<U>)
    requires i <= |s|
    ensures Collect(s[..i], part) <= Collect(s, part)
    decreases |s| - i
  {
    if i < |s| {
      CollectTurn(s, i, part);
      CollectedPrefix(s, i + 1, part);
    } else {
      assert s[..i] == s;
    }
  }

  /** A span whose ID is taken already makes some ID occur twice. */
  lemma TakenTwice(pages: seq<Page>, i: nat, k: nat, j: nat)
    requires i < |pages| && k < |pages[i].spans|
    requires var before := Collect(pages[..i], SpansOfPage) + pages[i].spans[..k];
             j < |before| && before[j].id == pages[i].spans[k].id
    ensures !DistinctIds(Collect(pages, SpansOfPage))
  {
    hide Collect;
    var before := Collect(pages[..i], SpansOfPage) + pages[i].spans[..k];
    var all := Collect(pages, SpansOfPage);
    CollectTurn(pages, i, SpansOfPage);
    CollectedPrefix(pages, i + 1, SpansOfPage);
    var next := Collect(pages[..i + 1], SpansOfPage);
    assert next == Collect(pages[..i], SpansOfPage) + pages[i].spans;
    assert all[j] == before[j] && all[|before|] == pages[i].spans[k];
  }

  /** The state of the index in the middle of a page. */
  ghost predicate IndexesPart(index: map<nat, Owned>, pages: seq<Page>, i: nat, k: nat)
    requires i < |pages| && k <= |pages[i].spans|
  {
    var before := Collect(pages[..i], SpansOfPage) + pages[i].spans[..k];
    && DistinctIds(before)
    && (forall j :: 0 <= j < i ==> OwnsAll(index, pages[j].spans, pages[j].resultId))
    && OwnsAll(index, pages[i].spans[..k], pages[i].resultId)
    && (forall id :: id in index ==> index[id].span.id == id && index[id].span in before
                                     && StandsOn(index[id].span, index[id].resultId, pages))
    && (forall j :: 0 <= j < |before| ==> before[j].id in index)
  }

  /** Build the index, unless some ID occurs twice. */
  method IndexSpans(pages: seq<Page>) returns (index: Option<map<nat, Owned>>)
    ensures index.None? ==> !DistinctIds(Collect(pages, SpansOfPage))
    ensures index.Some? ==> IsIndexOf(index.value, pages)
  {
    hide Collect, StandsOn;
    var m: map<nat, Owned> := map[];
    CollectEnds([], pages, SpansOfPage);
    for i := 0 to |pages|
      invariant IndexesSome(m, pages, i)
    {
      var page := pages[i];
      StartPage(m, pages, i);
      for k := 0 to |page.spans|
        invariant IndexesPart(m, pages, i, k)
      {
        var span := page.spans[k];
        if span.id in m {
          TakenAlready(m, pages, i, k);
          return None;
        }
        EnterSpan(m, pages, i, k);
        m := m[span.id := Owned(page.resultId, span)];
      }
      EndPage(m, pages, i);
    }
    EndPages(m, pages);
    index := Some(m);
  }

  /** The state of the index between two pages. */
  ghost predicate IndexesSome(index: map<nat, Owned>, pages: seq<Page>, i: nat)
    requires i <= |pages|
  {
    var before := Collect(pages[..i], SpansOfPage);
    && DistinctIds(before)
    && (forall j :: 0 <= j < i ==> OwnsAll(index, pages[j].spans, pages[j].resultId))
    && (forall id :: id in index ==> index[id].span.id == id && index[id].span in before
                                     && StandsOn(index[id].span, index[id].resultId, pages))
    && (forall j :: 0 <= j < |before| ==> before[j].id in index)
  }

  lemma StartPage(index: map<nat, Owned>, pages: seq<Page>, i: nat)
    requires i < |pages| && IndexesSome(index, pages, i)
    ensures IndexesPart(index, pages, i, 0)
  {
    hide Collect, StandsOn;
    assert Collect(pages[..i], SpansOfPage) + pages[i].spans[..0] == Collect(pages[..i], SpansOfPage);
  }

  lemma EndPage(index: map<nat, Owned>, pages: seq<Page>, i: nat)
    requires i < |pages| && IndexesPart(index, pages, i, |pages[i].spans|)
    ensures IndexesSome(index, pages, i + 1)
  {
    hide Collect, StandsOn;
    CollectTurn(pages, i, SpansOfPage);
    assert pages[i].spans[..|pages[i].spans|] == pages[i].spans;
  }

  lemma EndPages(index: map<nat, Owned>, pages: seq<Page>)
    requires IndexesSome(index, pages, |pages|)
    ensures IsIndexOf(index, pages)
  {
    hide Collect, StandsOn, OwnsAll;
    assert pages[..|pages|] == pages;
  }

  lemma TakenAlready(index: map<nat, Owned>, pages: seq<Page>, i: nat, k: nat)
    requires i < |pages| && k < |pages[i].spans| && IndexesPart(index, pages, i, k) && pages[i].spans[k].id in index
    ensures !DistinctIds(Collect(pages, SpansOfPage))
  {
    hide Collect, StandsOn, OwnsAll;
    var before := Collect(pages[..i], SpansOfPage) + pages[i].spans[..k];
    var s := index[pages[i].spans[k].id].span;
    var j :| 0 <= j < |before| && before[j] == s;
    TakenTwice(pages, i, k, j);
  }

  lemma EnterSpan(index: map<nat, Owned>, pages: seq<Page>, i: nat, k: nat)
    requires i < |pages| && k < |pages[i].spans| && IndexesPart(index, pages, i, k) && pages[i].spans[k].id !in index
    ensures IndexesPart(index[pages[i].spans[k].id := Owned(pages[i].resultId, pages[i].spans[k])], pages, i, k + 1)
  {
    assert StandsOn(pages[i].spans[k], pages[i].resultId, pages);
    hide Collect, StandsOn;
    var s := pages[i].spans[k];
    var before := Collect(pages[..i], SpansOfPage) + pages[i].spans[..k];
    var after := Collect(pages[..i], SpansOfPage) + pages[i].spans[..k + 1];
    assert after == before + [s];
    var next := index[s.id := Owned(pages[i].resultId, s)];
    forall j | 0 <= j < i ensures OwnsAll(next, pages[j].spans, pages[j].resultId) {
      assert OwnsAll(index, pages[j].spans, pages[j].resultId);
    }
  }

  lemma StandsInIndex(index: map<nat, Owned>, pages: seq<Page>, s: Span, resultId: nat)
    requires IsIndexOf(index, pages) && StandsOn(s, resultId, pages)
    ensures s.id in index && index[s.id] == Owned(resultId, s)
  {
    hide Collect;
    var i :| 0 <= i < |pages| && pages[i].resultId == resultId && s in pages[i].spans;
    assert OwnsAll(index, pages[i].spans, resultId);
    var k :| 0 <= k < |pages[i].spans| && pages[i].spans[k] == s;
  }

  lemma KnownIff(index: map<nat, Owned>, pages: seq<Page>, id: nat)
    requires IsIndexOf(index, pages)
    ensures IsKnown(id, pages) <==> id in index
  {
    hide StandsOn;
    if id in index {
      assert StandsOn(index[id].span, index[id].resultId, pages);
    }
    if IsKnown(id, pages) {
      var s, resultId :| StandsOn(s, resultId, pages) && s.id == id;
      StandsInIndex(index, pages, s, resultId);
    }
  }

  /** The spans behind some IDs, when all belong to the result of the first. */
  predicate OneOwner(index: map<nat, Owned>, ids: seq<nat>, spans: seq<Span>, resultId: nat) {
    |spans| <= |ids| && forall i :: 0 <= i < |spans| ==> ids[i] in index && index[ids[i]] == Owned(resultId, spans[i])
  }

  lemma OwnersAreExact(index: map<nat, Owned>, pages: seq<Page>, f: Field, spans: seq<Span>, resultId: nat)
    requires IsIndexOf(index, pages) && f.spanIds != []
    requires OneOwner(index, f.spanIds, spans, resultId) && |spans| == |f.spanIds|
    ensures PolygonIsExact(f, pages) <==> f.polygon == Some(RectangleOf(BoundsOf(spans)))
  {
    hide StandsOn, BoundsOf, RectangleOf;
    forall i | 0 <= i < |spans| ensures spans[i].id == f.spanIds[i] && StandsOn(spans[i], resultId, pages) {
      assert f.spanIds[i] in index;
    }
    assert OnOneResult(f.spanIds, spans, resultId, pages);
    forall r, other | OnOneResult(f.spanIds, other, r, pages) ensures other == spans {
      forall i | 0 <= i < |spans| ensures other[i] == spans[i] {
        StandsInIndex(index, pages, other[i], r);
      }
    }
  }

  lemma TwoOwners(index: map<nat, Owned>, pages: seq<Page>, f: Field, i: nat)
    requires IsIndexOf(index, pages) && 0 < i < |f.spanIds| && f.spanIds[0] in index && f.spanIds[i] in index
    requires index[f.spanIds[0]].resultId != index[f.spanIds[i]].resultId
    ensures !PolygonIsExact(f, pages)
  {
    hide StandsOn, BoundsOf, RectangleOf;
    forall r, spans | OnOneResult(f.spanIds, spans, r, pages) ensures false {
      StandsInIndex(index, pages, spans[0], r);
      StandsInIndex(index, pages, spans[i], r);
    }
  }

  method CheckField(f: Field, index: map<nat, Owned>, ghost pages: seq<Page>) returns (ok: bool)
    requires IsIndexOf(index, pages)
    ensures ok <==> FieldIsSourced(f, pages)
  {
    hide IsIndexOf, IsKnown, PolygonIsExact, RectangleOf;
    if f.status != FieldFound {
      return true;
    }
    for i := 0 to |f.spanIds|
      invariant forall k :: 0 <= k < i ==> f.spanIds[k] in index && IsKnown(f.spanIds[k], pages)
    {
      KnownIff(index, pages, f.spanIds[i]);
      if f.spanIds[i] !in index {
        return false;
      }
    }
    if f.polygon.None? {
      return true;
    }
    if f.spanIds == [] {
      NoSpans(f, pages);
      return false;
    }
    var resultId, spans := index[f.spanIds[0]].resultId, [];
    for i := 0 to |f.spanIds|
      invariant |spans| == i && OneOwner(index, f.spanIds, spans, resultId)
    {
      if index[f.spanIds[i]].resultId != resultId {
        TwoOwners(index, pages, f, i);
        return false;
      }
      spans := spans + [index[f.spanIds[i]].span];
    }
    OwnersAreExact(index, pages, f, spans, resultId);
    ok := f.polygon.value == RectangleOf(BoundsOf(spans));
  }

  lemma NoSpans(f: Field, pages: seq<Page>)
    requires f.spanIds == []
    ensures !PolygonIsExact(f, pages)
  {
  }

  /** The check accepts exactly the notices of which every field is sourced, over pages without a repeated span. */
  method ExtractionProvenanceIsValid(n: Notice, pages: seq<Page>) returns (ok: bool)
    ensures ok <==> ProvenanceIsValid(n, pages)
  {
    hide FieldIsSourced;
    var index := IndexSpans(pages);
    if index.None? {
      return false;
    }
    assert DistinctIds(Collect(pages, SpansOfPage));
    var fields := [n.name, n.sourceProvince, n.college, n.major];
    for i := 0 to |fields|
      invariant forall k :: 0 <= k < i ==> FieldIsSourced(fields[k], pages)
    {
      var sourced := CheckField(fields[i], index.value, pages);
      if !sourced {
        assert fields[i] == n.name || fields[i] == n.sourceProvince || fields[i] == n.college || fields[i] == n.major;
        return false;
      }
    }
    assert fields[0] == n.name && fields[1] == n.sourceProvince && fields[2] == n.college && fields[3] == n.major;
    ok := true;
  }

  // ---------------------------------------------------------------- every extraction passes it

  /** What the constructor of a notice demands of its identities and fields. */
  predicate NoticeFits(n: Notice) {
    && 1 <= |n.resultIds| <= MAX_SOURCE_RESULTS && |n.frameIds| == |n.resultIds|
    && RisingNats(n.resultIds) && RisingNats(n.frameIds)
    && FieldFits(n.name) && FieldFits(n.sourceProvince) && FieldFits(n.college) && FieldFits(n.major)
  }

  lemma SortedNats(ids: seq<nat>)
    requires forall i, j :: 0 <= i < j < |ids| ==> ids[i] != ids[j]
    ensures RisingNats(Sort(ids, NatKey)) && |Sort(ids, NatKey)| == |ids|
  {
    var sorted := Sort(ids, NatKey);
    SortSorts(ids, NatKey, 1);
    SortMultiset(ids, NatKey);
    assert |sorted| == |multiset(sorted)| == |multiset(ids)| == |ids|;
    forall i, j | 0 <= i < j < |sorted| ensures sorted[i] < sorted[j] {
      assert !LexLess(NatKey(sorted[j]), NatKey(sorted[i]));
      if sorted[i] == sorted[j] {
        TwiceCounts(sorted, i, j);
        OnceCounts(ids, sorted[i]);
      }
    }
  }

  lemma {:induction false} OnceCounts(ids: seq<nat>, x: nat)
    requires forall i, j :: 0 <= i < j < |ids| ==> ids[i] != ids[j]
    ensures multiset(ids)[x] <= 1
  {
    if ids != [] {
      var init, last := ids[..|ids| - 1], ids[|ids| - 1];
      assert ids == init + [last];
      OnceCounts(init, x);
      assert last !in init;
    }
  }

  lemma DistinctIdentities(ordered: seq<Page>)
    requires Consistent(ordered)
    ensures forall i, j :: 0 <= i < j < |ordered| ==> ResultIds(ordered)[i] != ResultIds(ordered)[j]
    ensures forall i, j :: 0 <= i < j < |ordered| ==> FrameIds(ordered)[i] != FrameIds(ordered)[j]
  {
    hide Collect;
    forall i, j | 0 <= i < j < |ordered|
      ensures ResultIds(ordered)[i] != ResultIds(ordered)[j] && FrameIds(ordered)[i] != FrameIds(ordered)[j]
    {
      assert ResultIdOf(ordered[i]) != ResultIdOf(ordered[j]) && FrameIdOf(ordered[i]) != FrameIdOf(ordered[j]);
    }
  }

  lemma FieldsFit(matched: seq<Page>, ordered: seq<Page>)
    requires forall p :: p in matched ==> p in ordered
    ensures forall field :: FieldFits(FieldOn(field, matched)) && FieldIsSourced(FieldOn(field, matched), ordered)
  {
    hide FieldOn, FieldFits, FieldIsSourced;
    forall field | true ensures FieldFits(FieldOn(field, matched)) && FieldIsSourced(FieldOn(field, matched), ordered) {
      AggregateFits(field, matched);
      AggregateIsSourced(field, matched, ordered);
    }
  }

  /** Every notice extracted is one its contract allows, and passes the store's check over the pages by result ID. */
  lemma ExtractionsPassTheCheck(pages: seq<Page>)
    requires Extract(pages).Extracted?
    ensures NoticeFits(Extract(pages).notice)
    ensures ProvenanceIsValid(Extract(pages).notice, Sort(pages, ResultKey))
  {
    hide Sort, FieldOn, FieldFits, FieldIsSourced, RisingNats, DecisionOn, Collect, MatchOrdered, DistinctKeys;
    var m := MatchPages(pages).value;
    MatchedAreOrdered(pages);
    FieldsFit(m.matched, m.ordered);
    DistinctIdentities(m.ordered);
    SortedNats(ResultIds(m.ordered));
    SortedNats(FrameIds(m.ordered));
  }

  lemma MatchedAreOrdered(pages: seq<Page>)
    requires MatchPages(pages).Some?
    ensures var m := MatchPages(pages).value;
            && m.ordered == Sort(pages, ResultKey) && Consistent(m.ordered)
            && 1 <= |m.ordered| <= MAX_SOURCE_RESULTS && forall p :: p in m.matched ==> p in m.ordered
  {
    hide Sort, DecisionOn, Collect, Consistent;
    SortMultiset(pages, ResultKey);
    var ordered := Sort(pages, ResultKey);
    assert |ordered| == |multiset(ordered)| == |multiset(pages)| == |pages|;
  }
}
