/** The pages of one capture: their order and the template decision over all of them. */
module CapturePages {
  import opened Basics
  import opened Collections
  import opened Sorting
  import opened ReadingOrder
  import opened MappedText
  import opened AnchorSearch
  import opened PageMatch

  const MAX_SOURCE_RESULTS: nat := 3

  datatype Page = Page(resultId: nat, frameId: nat, epoch: Epoch, spans: seq<Span>)

  function ResultKey(page: Page): seq<real> {
    [page.resultId as real]
  }

  function ResultIdOf(page: Page): nat {
    page.resultId
  }

  function FrameIdOf(page: Page): nat {
    page.frameId
  }

  function SpansOfPage(page: Page): seq<Span> {
    page.spans
  }

  /** Pages of one epoch, no result, frame or span twice. */
  predicate Consistent(ordered: seq<Page>) {
    && DistinctKeys(ordered, ResultIdOf) && DistinctKeys(ordered, FrameIdOf)
    && (forall i :: 0 <= i < |ordered| ==> ordered[i].epoch == ordered[0].epoch)
    && DistinctIds(Collect(ordered, SpansOfPage))
  }

  /** The pages by result ID, if they can be used together. */
  function OrderedPages(pages: seq<Page>): Option<seq<Page>> {
    var ordered := Sort(pages, ResultKey);
    if !(1 <= |pages| <= MAX_SOURCE_RESULTS) || !Consistent(ordered) then None else Some(ordered)
  }

  lemma DistinctPagesOrder(a: seq<Page>, b: seq<Page>)
    requires multiset(a) == multiset(b) && DistinctKeys(Sort(a, ResultKey), ResultIdOf)
    ensures Sort(a, ResultKey) == Sort(b, ResultKey)
  {
    hide Sort, SortedBy, LexLess;
    var x, y := Sort(a, ResultKey), Sort(b, ResultKey);
    SortSorts(a, ResultKey, 1);
    SortSorts(b, ResultKey, 1);
    SortMultiset(a, ResultKey);
    SortMultiset(b, ResultKey);
    forall i, j | 0 <= i < |x| && 0 <= j < |x| && ResultKey(x[i]) == ResultKey(x[j]) ensures x[i] == x[j] {
      assert ResultKey(x[i])[0] == ResultKey(x[j])[0];
      assert i < j ==> ResultIdOf(x[i]) != ResultIdOf(x[j]);
      assert j < i ==> ResultIdOf(x[j]) != ResultIdOf(x[i]);
    }
    SortedUnique(x, y, ResultKey, 1);
  }

  /** Which pages are accepted, and in which order they are read, does not depend on the order they come in. */
  lemma PagesIgnoreOrder(a: seq<Page>, b: seq<Page>)
    requires multiset(a) == multiset(b)
    ensures OrderedPages(a) == OrderedPages(b)
  {
    assert |a| == |multiset(a)| == |multiset(b)| == |b|;
    if DistinctKeys(Sort(a, ResultKey), ResultIdOf) {
      DistinctPagesOrder(a, b);
    } else if DistinctKeys(Sort(b, ResultKey), ResultIdOf) {
      DistinctPagesOrder(b, a);
    }
    hide Sort;
  }

  // ---------------------------------------------------------------- which pages can be used together

  /** The two pages may stand in one capture: one epoch, different results and frames, no span ID in both. */
  predicate Beside(p: Page, q: Page) {
    && p.epoch == q.epoch && p.resultId != q.resultId && p.frameId != q.frameId
    && forall i, j :: 0 <= i < |p.spans| && 0 <= j < |q.spans| ==> p.spans[i].id != q.spans[j].id
  }

  /** No span ID twice on any page, and any two pages fit. */
  predicate Usable(pages: seq<Page>) {
    && (forall i :: 0 <= i < |pages| ==> DistinctIds(pages[i].spans))
    && (forall i, j :: 0 <= i < j < |pages| ==> Beside(pages[i], pages[j]))
  }

  /** The same pages in another order are as usable. */
  lemma UsableInAnyOrder(a: seq<Page>, b: seq<Page>)
    requires multiset(a) == multiset(b) && Usable(a)
    ensures Usable(b)
  {
    forall i | 0 <= i < |b| ensures DistinctIds(b[i].spans) {
      assert b[i] in multiset(a);
    }
    forall i, j | 0 <= i < j < |b| ensures Beside(b[i], b[j]) {
      assert b[i] in multiset(a) && b[j] in multiset(a);
      var k :| 0 <= k < |a| && a[k] == b[i];
      var m :| 0 <= m < |a| && a[m] == b[j];
      if k == m { TwiceInOrder(a, b, i, j); }
      hide DistinctIds;
      assert k < m ==> Beside(a[k], a[m]);
      assert m < k ==> Beside(a[m], a[k]);
    }
  }

  /** No usable page comes twice. */
  lemma TwiceInOrder(a: seq<Page>, b: seq<Page>, i: nat, j: nat)
    requires multiset(a) == multiset(b) && Usable(a) && i < j < |b|
    ensures b[i] != b[j]
  {
    UsableOnce(a, b[i]);
    TwiceCounts(b, i, j);
  }

  lemma {:induction false} UsableOnce(a: seq<Page>, p: Page)
    requires Usable(a)
    ensures multiset(a)[p] <= 1
  {
    hide DistinctIds;
    if a != [] {
      var k := |a| - 1;
      assert a == a[..k] + [a[k]];
      UsableOnce(a[..k], p);
      assert forall i :: 0 <= i < k ==> Beside(a[i], a[k]) && a[..k][i] == a[i];
      assert a[k] !in a[..k];
    }
  }

  /** The spans of all pages have distinct IDs exactly when those of each have and no two pages share one. */
  lemma {:induction false} SpansDifferIff(pages: seq<Page>)
    ensures DistinctIds(Collect(pages, SpansOfPage)) <==>
              && (forall i :: 0 <= i < |pages| ==> DistinctIds(pages[i].spans))
              && (forall i, j :: 0 <= i < j < |pages| ==> NoneShared(pages[i], pages[j]))
  {
    if pages != [] {
      var k := |pages| - 1;
      var before, last := Collect(pages[..k], SpansOfPage), pages[k].spans;
      SpansDifferIff(pages[..k]);
      JoinedIds(before, last);
      forall x: Span | true ensures x in before <==> exists i :: 0 <= i < k && x in pages[i].spans {
        CollectHas(pages[..k], SpansOfPage, x);
        if i :| 0 <= i < k && x in pages[i].spans {
          assert x in SpansOfPage(pages[..k][i]);
        }
      }
      hide Collect, DistinctIds;
      assert Collect(pages, SpansOfPage) == before + last by { CollectLast(pages); }
      if DisjointIds(before, last) {
        forall i | 0 <= i < k ensures NoneShared(pages[i], pages[k]) { }
      }
    }
  }

  lemma CollectLast(pages: seq<Page>)
    requires pages != []
    ensures Collect(pages, SpansOfPage) == Collect(pages[..|pages| - 1], SpansOfPage) + pages[|pages| - 1].spans
  {
  }

  predicate NoneShared(p: Page, q: Page) {
    forall x, y :: x in p.spans && y in q.spans ==> x.id != y.id
  }

  predicate DisjointIds(a: seq<Span>, b: seq<Span>) {
    forall x, y :: x in a && y in b ==> x.id != y.id
  }

  lemma JoinedIds(a: seq<Span>, b: seq<Span>)
    ensures DistinctIds(a + b) <==> DistinctIds(a) && DistinctIds(b) && DisjointIds(a, b)
  {
    var c := a + b;
    if DistinctIds(c) {
      assert forall i :: 0 <= i < |a| ==> c[i] == a[i];
      assert forall j :: 0 <= j < |b| ==> c[|a| + j] == b[j];
    }
  }

  /** Pages are accepted exactly when there are one to three of them and any two fit, in whatever order they come. */
  lemma AcceptedIff(pages: seq<Page>)
    ensures OrderedPages(pages).Some? <==> 1 <= |pages| <= 3 && Usable(pages)
  {
    hide Sort;
    var ordered := Sort(pages, ResultKey);
    SortMultiset(pages, ResultKey);
    SpansDifferIff(ordered);
    assert Consistent(ordered) <==> Usable(ordered) by { hide DistinctIds; BesideIs(ordered); }
    if Usable(ordered) { UsableInAnyOrder(ordered, pages); }
    if Usable(pages) { UsableInAnyOrder(pages, ordered); }
    hide Consistent, Usable;
  }

  lemma BesideIs(pages: seq<Page>)
    ensures forall i, j :: 0 <= i < j < |pages| ==>
              (Beside(pages[i], pages[j])
               <==> pages[i].epoch == pages[j].epoch && pages[i].resultId != pages[j].resultId
                    && pages[i].frameId != pages[j].frameId && NoneShared(pages[i], pages[j]))
  {
  }

  // ---------------------------------------------------------------- the decision

  function DecisionOn(page: Page): Match {
    MatchReading(Reconstruct(page.spans))
  }

  /** The pages with a decision of some status. */
  function PagesWith(pages: seq<Page>, status: MatchStatus): (r: seq<Page>)
    ensures forall p :: p in r <==> p in pages && DecisionOn(p).status == status
    ensures |r| <= |pages|
  {
    if pages == [] then []
    else
      var last := pages[|pages| - 1];
      assert pages == pages[..|pages| - 1] + [last];
      PagesWith(pages[..|pages| - 1], status) + (if DecisionOn(last).status == status then [last] else [])
  }

  function AnchorsOn(page: Page): seq<AnchorId> {
    DecisionOn(page).ids
  }

  function StrengthKey(m: Match): seq<real> {
    [|m.ids| as real, Flag(m.ids, Heading), Flag(m.ids, Salutation), Flag(m.ids, Committee), Flag(m.ids, Admission),
     Flag(m.ids, MajorStudy)]
  }

  /** A decision is stronger for more anchors, or of as many for the earliest in template order that it alone has. */
  lemma StrengthIs(m: Match, n: Match)
    ensures LexLess(StrengthKey(m), StrengthKey(n)) <==> Weaker(TEMPLATE_ANCHORS, m.ids, n.ids)
  {
    forall k | 0 <= k < |TEMPLATE_ANCHORS|
      ensures StrengthKey(m)[k + 1] == Flag(m.ids, TEMPLATE_ANCHORS[k]) && StrengthKey(n)[k + 1] == Flag(n.ids, TEMPLATE_ANCHORS[k])
    {
    }
    assert |StrengthKey(m)| == |StrengthKey(n)| == |TEMPLATE_ANCHORS| + 1;
    hide LexLess, Weaker;
    WeakerIs(TEMPLATE_ANCHORS, m.ids, n.ids, StrengthKey(m), StrengthKey(n));
  }

  /** The first page with the strongest decision. */
  function Strongest(pages: seq<Page>): (p: Page)
    requires pages != []
    ensures p in pages
  {
    var last := pages[|pages| - 1];
    if |pages| == 1 then last
    else
      var before := Strongest(pages[..|pages| - 1]);
      if LexLess(StrengthKey(DecisionOn(before)), StrengthKey(DecisionOn(last))) then last else before
  }

  /** The decision on a capture, and the pages that were matched. */
  datatype CaptureMatch = CaptureMatch(decision: Match, ordered: seq<Page>, matched: seq<Page>)

  function MatchOrdered(ordered: seq<Page>): CaptureMatch
    requires ordered != []
  {
    if PagesWith(ordered, NotMatched) != [] then CaptureMatch(Match(NotMatched, []), ordered, [])
    else
      var matched := PagesWith(ordered, Matched);
      if matched != [] then CaptureMatch(Match(Matched, InOrder(Collect(matched, AnchorsOn))), ordered, matched)
      else CaptureMatch(Match(Insufficient, DecisionOn(Strongest(ordered)).ids), ordered, [])
  }

  function MatchPages(pages: seq<Page>): Option<CaptureMatch> {
    var ordered := OrderedPages(pages);
    if ordered.None? then None
    else
      SortMultiset(pages, ResultKey);
      assert |ordered.value| == |multiset(ordered.value)| == |multiset(pages)| == |pages|;
      Some(MatchOrdered(ordered.value))
  }

  lemma MatchIgnoresPageOrder(a: seq<Page>, b: seq<Page>)
    requires multiset(a) == multiset(b)
    ensures MatchPages(a) == MatchPages(b)
  {
    PagesIgnoreOrder(a, b);
    hide OrderedPages, MatchOrdered;
  }

  /**
   The capture is matched exactly when some page is and no page shows another institution, it is rejected exactly
   when some page does, and the pages handed on are exactly the matched ones.
   */
  lemma CaptureMatchedIff(pages: seq<Page>)
    requires OrderedPages(pages).Some?
    ensures var m := MatchPages(pages).value;
            var some, other := (exists p :: p in pages && DecisionOn(p).status == Matched),
                               (exists p :: p in pages && DecisionOn(p).status == NotMatched);
            && (m.decision.status == Matched <==> some && !other)
            && (m.decision.status == NotMatched <==> other)
            && (forall p :: p in m.matched <==> !other && p in pages && DecisionOn(p).status == Matched)
  {
    SortMultiset(pages, ResultKey);
    var ordered := OrderedPages(pages).value;
    forall p: Page | true ensures p in ordered <==> p in pages {
      assert p in multiset(ordered) <==> p in multiset(pages);
    }
    hide Sort, DecisionOn, InOrder, Consistent;
    var others, matched := PagesWith(ordered, NotMatched), PagesWith(ordered, Matched);
    assert others != [] ==> others[0] in others;
    assert matched != [] ==> matched[0] in matched;
  }

  lemma PolicyGrows(ids: seq<AnchorId>, more: seq<AnchorId>)
    requires SatisfiesPolicy(ids) && forall a :: a in ids ==> a in more
    ensures SatisfiesPolicy(more)
  {
  }

  /** The decision on a capture is one that the contract allows. */
  lemma CaptureMatchIsValid(pages: seq<Page>)
    requires MatchPages(pages).Some?
    ensures ValidMatch(MatchPages(pages).value.decision)
  {
    hide Sort, InOrder, DecisionOn, Consistent, SatisfiesPolicy;
    var ordered := OrderedPages(pages).value;
    NoneInOrder();
    if PagesWith(ordered, NotMatched) == [] {
      var matched := PagesWith(ordered, Matched);
      if matched == [] {
        StrongestIsValid(ordered);
      } else {
        UnionIsValid(matched);
      }
    }
  }

  lemma UnionIsValid(matched: seq<Page>)
    requires matched != [] && forall p :: p in matched ==> DecisionOn(p).status == Matched
    ensures ValidMatch(Match(Matched, InOrder(Collect(matched, AnchorsOn))))
  {
    var all := Collect(matched, AnchorsOn);
    hide Collect, MatchReading, InOrder, SatisfiesPolicy;
    MatchIsValid(Reconstruct(matched[0].spans));
    assert matched[0] in matched;
    forall a | a in AnchorsOn(matched[0]) ensures a in all {
      CollectMember(matched, AnchorsOn, matched[0], a);
    }
    PolicyGrows(AnchorsOn(matched[0]), all);
    InOrderTwice(all);
  }

  lemma StrongestIsValid(ordered: seq<Page>)
    requires ordered != [] && PagesWith(ordered, NotMatched) == PagesWith(ordered, Matched) == []
    ensures ValidMatch(Match(Insufficient, DecisionOn(Strongest(ordered)).ids))
  {
    var p := Strongest(ordered);
    hide MatchReading, InOrder, SatisfiesPolicy, Strongest;
    assert p !in PagesWith(ordered, NotMatched) && p !in PagesWith(ordered, Matched);
    MatchIsValid(Reconstruct(p.spans));
  }

  lemma {:induction false} NoneIsStronger(pages: seq<Page>, p: Page)
    requires p in pages
    ensures !LexLess(StrengthKey(DecisionOn(Strongest(pages))), StrengthKey(DecisionOn(p)))
  {
    hide DecisionOn;
    var k := |pages| - 1;
    var best, last := StrengthKey(DecisionOn(Strongest(pages))), StrengthKey(DecisionOn(pages[k]));
    LexTotal(best, last);
    if p != pages[k] {
      assert p in pages[..k];
      NoneIsStronger(pages[..k], p);
      var before := StrengthKey(DecisionOn(Strongest(pages[..k])));
      LexTotal(before, last);
      NotLessTransitive(StrengthKey(DecisionOn(p)), before, best);
    }
  }

  predicate OnSome(pages: seq<Page>, a: AnchorId) {
    exists i :: 0 <= i < |pages| && a in AnchorsOn(pages[i])
  }

  /** The anchors of a page than which none is stronger. */
  predicate OfStrongest(pages: seq<Page>, ids: seq<AnchorId>) {
    exists i :: 0 <= i < |pages| && ids == AnchorsOn(pages[i]) && Unbeaten(pages, pages[i])
  }

  predicate Unbeaten(pages: seq<Page>, p: Page) {
    forall i :: 0 <= i < |pages| ==> !LexLess(StrengthKey(DecisionOn(p)), StrengthKey(DecisionOn(pages[i])))
  }

  /**
   What a capture reports: when matched, exactly the anchors found on its matched pages; when insufficient, the
   anchors of a page than which none is stronger.
   */
  lemma CaptureAnchorsAre(pages: seq<Page>)
    requires MatchPages(pages).Some?
    ensures var m := MatchPages(pages).value;
            && (m.decision.status == Matched ==> forall a :: a in m.decision.ids <==> OnSome(m.matched, a))
            && (m.decision.status == Insufficient ==> OfStrongest(m.ordered, m.decision.ids))
  {
    hide Sort, DecisionOn, InOrder, Consistent, Collect, Strongest, Unbeaten, OnSome;
    var m := MatchPages(pages).value;
    forall a: AnchorId | true ensures a in InOrder(Collect(m.matched, AnchorsOn)) <==> OnSome(m.matched, a) {
      AnchorIsFound(m.matched, a);
    }
    StrongestIsUnbeaten(m.ordered);
    var p := Strongest(m.ordered);
    var i :| 0 <= i < |m.ordered| && m.ordered[i] == p;
  }

  lemma StrongestIsUnbeaten(pages: seq<Page>)
    requires pages != []
    ensures Unbeaten(pages, Strongest(pages))
  {
    hide DecisionOn, Strongest, StrengthKey;
    forall i | 0 <= i < |pages|
      ensures !LexLess(StrengthKey(DecisionOn(Strongest(pages))), StrengthKey(DecisionOn(pages[i])))
    {
      NoneIsStronger(pages, pages[i]);
    }
  }

  lemma AnchorIsFound(matched: seq<Page>, a: AnchorId)
    ensures a in InOrder(Collect(matched, AnchorsOn)) <==> OnSome(matched, a)
  {
    hide Collect, InOrder, DecisionOn;
    InOrderHas(Collect(matched, AnchorsOn), a);
    if a in Collect(matched, AnchorsOn) {
      var p := Contributor(matched, AnchorsOn, a);
    }
    forall p | p in matched && a in AnchorsOn(p) ensures a in Collect(matched, AnchorsOn) {
      CollectMember(matched, AnchorsOn, p, a);
    }
  }
}
