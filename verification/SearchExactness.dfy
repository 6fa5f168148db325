/** Exactly when the search for the longest body signature misses nothing, and pages on which it does. */
module SearchExactness {
  import opened Basics
  import opened Sorting
  import opened AnchorSearch

  // ---------------------------------------------------------------- exactly when early chains are found

  /** A page made of some of the occurrences. */
  predicate Within(sub: seq<seq<Occurrence>>, rules: seq<seq<Occurrence>>) {
    |sub| == |rules| && forall k, o :: 0 <= k < |sub| && o in sub[k] ==> o in rules[k]
  }

  ghost predicate FindsEarly(rules: seq<seq<Occurrence>>) {
    forall c :: EligibleChain(rules, c) && Early(c) ==> NotBeaten(rules, c)
  }

  lemma WithinKeeps(sub: seq<seq<Occurrence>>, rules: seq<seq<Occurrence>>)
    requires RulesFit(rules) && LinesFit(rules) && Within(sub, rules)
    ensures RulesFit(sub) && LinesFit(sub) && (LineExchange(rules) ==> LineExchange(sub))
  {
    hide Loses;
  }

  lemma OneFrom(states: seq<State>, froms: seq<State>, from: State, occs: seq<Occurrence>)
    ensures ApplyRule(states, froms + [from], occs) == ExtendAll(ApplyRule(states, froms, occs), from, occs)
  {
    assert (froms + [from])[..|froms|] == froms;
  }

  lemma OneOccurrence(states: seq<State>, from: State, o: Occurrence)
    ensures ExtendAll(states, from, [o]) == Extend(states, from, o)
  {
    assert |[o][..0]| == 0;
  }

  lemma TwoOccurrences(states: seq<State>, from: State, x: Occurrence, y: Occurrence)
    ensures ExtendAll(states, from, [x, y]) == Extend(Extend(states, from, x), from, y)
  {
    assert [x, y][..1] == [x];
    OneOccurrence(states, from, x);
  }

  lemma NewKey(states: seq<State>, s: State)
    requires s.last.Some? && forall i :: 0 <= i < |states| ==> states[i].ids != s.ids
    ensures Offer(states, s) == states + [s]
  {
  }

  lemma {:induction false} NoOccurrences(states: seq<State>, froms: seq<State>)
    ensures ApplyRule(states, froms, []) == states
  {
    if froms != [] {
      NoOccurrences(states, froms[..|froms| - 1]);
    }
  }

  /** Rules without occurrences add nothing. */
  lemma {:induction false} QuietRules(rules: seq<seq<Occurrence>>, a: nat, b: nat)
    requires a <= b <= |rules| && forall k :: a <= k < b ==> rules[k] == []
    ensures Search(rules[..b]) == Search(rules[..a])
    decreases b
  {
    if a < b {
      QuietRules(rules, a, b - 1);
      assert rules[..b][..b - 1] == rules[..b - 1];
      NoOccurrences(Search(rules[..b - 1]), Search(rules[..b - 1]));
    }
  }

  function First(o: Occurrence): State {
    Extended(EMPTY_STATE, o)
  }

  /** Of two occurrences on one line only the one kept is left. */
  lemma PairIsPruned(q: Occurrence, p: Occurrence)
    requires q.anchor == p.anchor && q.line == p.line && !LexLess(p.endKey, q.endKey)
    ensures ApplyRule([EMPTY_STATE], [EMPTY_STATE], [q, p]) == [EMPTY_STATE, First(q)]
  {
    var states := [EMPTY_STATE, First(q)];
    assert First(q).ids == [q.anchor] && KeyOf(First(p)) == KeyOf(First(q)) by {
      assert [] + [q.anchor] == [q.anchor];
    }
    NewKey([EMPTY_STATE], First(q));
    assert [EMPTY_STATE] + [First(q)] == states && states[..1] == [EMPTY_STATE] && [EMPTY_STATE][..0] == [];
    assert Where([EMPTY_STATE], KeyOf(First(q))) == 1;
    assert Where(states, KeyOf(First(q))) == 1;
    assert Offer(states, First(p)) == states;
    hide KeyOf, Where, Offer, LexLess;
    TwoOccurrences([EMPTY_STATE], EMPTY_STATE, q, p);
    OneFrom([EMPTY_STATE], [], EMPTY_STATE, [q, p]);
    assert [] + [EMPTY_STATE] == [EMPTY_STATE];
  }

  /** What does not follow the one kept starts afresh. */
  lemma OnlyStartsAfresh(q: Occurrence, o: Occurrence)
    requires !Follows(q, o) && q.anchor != o.anchor
    ensures ApplyRule([EMPTY_STATE, First(q)], [EMPTY_STATE, First(q)], [o]) == [EMPTY_STATE, First(q), First(o)]
  {
    var states, after := [EMPTY_STATE, First(q)], [EMPTY_STATE, First(q), First(o)];
    assert First(q).ids == [q.anchor] && First(o).ids == [o.anchor] && First(q).last == Some(q);
    hide Follows, KeyOf, Where, Offer, First;
    NewKey(states, First(o));
    assert states + [First(o)] == after;
    OneOccurrence(states, EMPTY_STATE, o);
    OneOccurrence(after, First(q), o);
    OneFrom(states, [], EMPTY_STATE, [o]);
    OneFrom(states, [EMPTY_STATE], First(q), [o]);
    assert [] + [EMPTY_STATE] == [EMPTY_STATE] && [EMPTY_STATE] + [First(q)] == states;
    assert First(o) == Extended(EMPTY_STATE, o) by { FirstIs(o); }
  }

  lemma FirstIs(o: Occurrence)
    ensures First(o) == Extended(EMPTY_STATE, o) && First(o).ids == [o.anchor] && First(o).last == Some(o)
  {
    assert [] + [o.anchor] == [o.anchor];
  }

  lemma ExtendedIs(from: State, o: Occurrence)
    ensures Extended(from, o).ids == from.ids + [o.anchor] && Extended(from, o).last == Some(o)
  {
  }

  /** The page with one pair on a line and one occurrence further down. */
  function LossPage(n: nat, i: nat, j: nat, q: Occurrence, p: Occurrence, o: Occurrence): (rules: seq<seq<Occurrence>>)
    ensures |rules| == n && forall k :: 0 <= k < n ==> rules[k] == if k == i then [q, p] else if k == j then [o] else []
  {
    seq(n, k requires 0 <= k < n => if k == i then [q, p] else if k == j then [o] else [])
  }

  lemma LossPageSearch(n: nat, i: nat, j: nat, q: Occurrence, p: Occurrence, o: Occurrence)
    requires i < j < n && q.anchor == p.anchor && q.anchor != o.anchor && Loses(q, p, o)
    ensures Search(LossPage(n, i, j, q, p, o)) == [EMPTY_STATE, First(q), First(o)]
  {
    hide Compatible, LexLess, Extended, ApplyRule;
    var rules := LossPage(n, i, j, q, p, o);
    PairIsPruned(q, p);
    OnlyStartsAfresh(q, o);
    hide First, Loses, Follows;
    QuietRules(rules, 0, i);
    assert rules[..0] == [] && rules[..i + 1][..i] == rules[..i];
    assert Search(rules[..i + 1]) == [EMPTY_STATE, First(q)];
    QuietRules(rules, i + 1, j);
    assert rules[..j + 1][..j] == rules[..j];
    assert Search(rules[..j + 1]) == [EMPTY_STATE, First(q), First(o)];
    QuietRules(rules, j + 1, n);
    assert rules[..n] == rules;
  }

  lemma PairIsAChain(rules: seq<seq<Occurrence>>, p: Occurrence, o: Occurrence)
    requires Occurs(rules, p) && Occurs(rules, o) && Follows(p, o) && Rank(p.anchor) < Rank(o.anchor)
    ensures EligibleChain(rules, [p, o]) && Early([p, o]) && IdsOf([p, o]) == [p.anchor, o.anchor]
  {
    hide Follows, Occurs, Rank;
    var c := [p, o];
    assert c[..1] == [p] && AnchorLines([p]) == {p.line} by { LinesExtend([], p); assert [] + [p] == [p]; }
  }

  /** The pair of occurrences costs the search a chain on the page that has nothing else. */
  lemma LossIsMissed(rules: seq<seq<Occurrence>>, i: nat, j: nat, p: Occurrence, q: Occurrence, o: Occurrence)
    returns (sub: seq<seq<Occurrence>>)
    requires RulesFit(rules) && i < j < |rules| && p in rules[i] && q in rules[i] && o in rules[j] && Loses(q, p, o)
    ensures Within(sub, rules) && EligibleChain(sub, [p, o]) && Early([p, o]) && !NotBeaten(sub, [p, o])
  {
    hide Compatible, LexLess, Search;
    sub := LossPage(|rules|, i, j, q, p, o);
    assert p.anchor == q.anchor == BODY_ANCHORS[i] && o.anchor == BODY_ANCHORS[j] && Rank(p.anchor) < Rank(o.anchor);
    assert Follows(p, o);
    LossPageSearch(|rules|, i, j, q, p, o);
    hide RulesFit, Loses, Follows, Rank, LossPage;
    assert p in sub[i] && o in sub[j];
    PairIsAChain(sub, p, o);
    var states := [EMPTY_STATE, First(q), First(o)];
    BestIsThere(states);
    assert Eligible(EMPTY_STATE.ids, EMPTY_STATE.lines);
    var s :| s in states && Eligible(s.ids, s.lines) && s.ids == Best(states).value;
    assert |s.ids| <= 1;
    ShorterIsBeaten(BodySignature(sub), IdsOf([p, o]));
  }

  lemma ShorterIsBeaten(a: seq<AnchorId>, b: seq<AnchorId>)
    requires |a| < |b|
    ensures LexLess(SignatureKey(a), SignatureKey(b))
  {
  }

  /**
   On every page made of some of these occurrences the search reports no less than any early chain, if and only if
   no occurrence costs another of its rule and line a continuation.
   */
  lemma FindsEarlyIff(rules: seq<seq<Occurrence>>)
    requires RulesFit(rules) && LinesFit(rules)
    ensures (forall sub :: Within(sub, rules) ==> FindsEarly(sub)) <==> LineExchange(rules)
  {
    if LineExchange(rules) {
      forall sub, c | Within(sub, rules) && EligibleChain(sub, c) && Early(c) ensures NotBeaten(sub, c) {
        WithinKeeps(sub, rules);
        EarlyIsNotBeaten(sub, c);
      }
    } else {
      var i, j, p, q, o :| 0 <= i < j < |rules| && p in rules[i] && q in rules[i] && o in rules[j] && Loses(q, p, o);
      var sub := LossIsMissed(rules, i, j, p, q, o);
      assert !FindsEarly(sub);
    }
    hide RulesFit, LinesFit, EligibleChain, Early, NotBeaten, Loses;
  }

  // ---------------------------------------------------------------- exactly when all chains are found

  /** Template order, each following the one before, wherever the occurrences come from. */
  predicate Linked(c: seq<Occurrence>) {
    && (forall i, j :: 0 <= i < j < |c| ==> Rank(c[i].anchor) < Rank(c[j].anchor))
    && (forall i :: 0 < i < |c| ==> Follows(c[i - 1], c[i]))
  }

  /** The last of the first three with either's first and second, and then o. */
  function Mixed(c: seq<Occurrence>, d: seq<Occurrence>, a: bool, b: bool, o: Occurrence): seq<Occurrence>
    requires |c| == |d| == 3
  {
    [if a then c[0] else d[0], if b then c[1] else d[1], c[2], o]
  }

  predicate Detour(c: seq<Occurrence>, d: seq<Occurrence>, a: bool, b: bool, o: Occurrence)
    requires |c| == |d| == 3
  {
    var m := Mixed(c, d, a, b, o);
    Linked(m) && Early(m) && |AnchorLines(m)| >= MINIMUM_BODY_ANCHORS
  }

  /**
   Two chains of three anchors on three lines, of which the one that ends no later is kept: the other goes on to a
   fourth anchor, the one kept does not, and no early chain gets there either.
   */
  predicate Overtaken(c: seq<Occurrence>, d: seq<Occurrence>, o: Occurrence) {
    && |c| == |d| == 3 && |AnchorLines(c)| >= MINIMUM_BODY_ANCHORS && |AnchorLines(d)| >= MINIMUM_BODY_ANCHORS
    && !LexLess(c[2].endKey, d[2].endKey) && Follows(c[2], o) && !Compatible(d[2], o)
    && !Detour(c, d, false, false, o) && !Detour(c, d, false, true, o)
    && !Detour(c, d, true, false, o) && !Detour(c, d, true, true, o)
  }

  ghost predicate NoneOvertaken(rules: seq<seq<Occurrence>>) {
    |rules| == |BODY_ANCHORS| ==>
      forall c, d, o :: Chain(rules[..3], c) && Chain(rules[..3], d) && o in rules[3] ==> !Overtaken(c, d, o)
  }

  ghost predicate FindsAll(rules: seq<seq<Occurrence>>) {
    forall c :: EligibleChain(rules, c) ==> NotBeaten(rules, c)
  }

  /** A chain that is not early has all four anchors. */
  lemma LateIsFull(rules: seq<seq<Occurrence>>, c: seq<Occurrence>)
    requires RulesFit(rules) && Chain(rules, c) && !Early(c)
    ensures |rules| == |c| == 4 && c[3] in rules[3] && Chain(rules[..3], c[..3]) && IdsOf(c) == BODY_ANCHORS
  {
    hide AnchorLines, RulesFit, Follows;
    FewLines(c[..|c| - 1]);
    AllRanks(rules, c);
    assert c[3].anchor == MajorStudy && Occurs(rules, c[3]);
    hide Early, Occurs;
    MajorIsLast(rules, c[3]);
    ChainSplits(rules, c);
  }

  lemma MajorIsLast(rules: seq<seq<Occurrence>>, o: Occurrence)
    requires RulesFit(rules) && o.anchor == MajorStudy && Occurs(rules, o)
    ensures |rules| == 4 && o in rules[3] && !Occurs(rules[..3], o)
  {
    var k :| 0 <= k < |rules| && o in rules[k];
    assert BODY_ANCHORS[k] == MajorStudy && k == 3;
    forall i | 0 <= i < 3 ensures o !in rules[..3][i] {
      assert rules[..3][i] == rules[i] && BODY_ANCHORS[i] != MajorStudy;
    }
  }

  lemma {:induction false} RankFloor(rules: seq<seq<Occurrence>>, c: seq<Occurrence>, i: nat)
    requires RulesFit(rules) && Chain(rules, c) && i < |c|
    ensures i + 1 <= Rank(c[i].anchor) <= 4
  {
    assert Occurs(rules, c[i]);
    hide Follows;
    if i > 0 { RankFloor(rules, c, i - 1); }
  }

  lemma AllRanks(rules: seq<seq<Occurrence>>, c: seq<Occurrence>)
    requires RulesFit(rules) && Chain(rules, c)
    ensures |c| <= 4 && (|c| == 4 ==> IdsOf(c) == BODY_ANCHORS)
  {
    if c != [] {
      RankFloor(rules, c, |c| - 1);
    }
    if |c| == 4 {
      RankFloor(rules, c, 0);
      assert Rank(c[0].anchor) < Rank(c[1].anchor) < Rank(c[2].anchor) < Rank(c[3].anchor);
      hide Chain, RulesFit, Follows;
      assert c[0].anchor == Salutation && c[1].anchor == Committee && c[2].anchor == Admission && c[3].anchor == MajorStudy;
    }
  }

  lemma SignatureFits(rules: seq<seq<Occurrence>>)
    requires RulesFit(rules)
    ensures |BodySignature(rules)| <= 4 && (|BodySignature(rules)| == 4 ==> BodySignature(rules) == BODY_ANCHORS)
  {
    var e := SignatureIsReal(rules);
    hide BodySignature, Chain;
    AllRanks(rules, e);
  }

  /** A late chain is matched by a signature of four anchors and by nothing less. */
  lemma FullIsNotBeaten(rules: seq<seq<Occurrence>>, c: seq<Occurrence>)
    requires RulesFit(rules) && Chain(rules, c) && !Early(c)
    ensures NotBeaten(rules, c) <==> |BodySignature(rules)| == 4
  {
    LateIsFull(rules, c);
    SignatureFits(rules);
    hide Early, BodySignature, Chain, RulesFit;
    LexTotal(SignatureKey(IdsOf(c)), SignatureKey(IdsOf(c)));
    if |BodySignature(rules)| < 4 {
      assert SignatureKey(BodySignature(rules))[0] < SignatureKey(IdsOf(c))[0];
    }
  }

  /** States under one key, one of them on three lines, have the same anchors and are both on three lines. */
  lemma KeyTells(x: State, y: State)
    requires KeyOf(x) == KeyOf(y) && |x.lines| >= MINIMUM_BODY_ANCHORS
    ensures x.ids == y.ids && |y.lines| >= MINIMUM_BODY_ANCHORS
  {
  }

  /** If the kept state goes on to the fourth anchor, all four are reported. */
  lemma FourthIsReported(rules: seq<seq<Occurrence>>, t: State, o: Occurrence)
    requires RulesFit(rules) && |rules| == 4 && t in Search(rules[..3]) && o in rules[3] && t.last.Some?
    requires Follows(t.last.value, o) && |t.ids| == 3 && |t.lines| >= MINIMUM_BODY_ANCHORS
    ensures |BodySignature(rules)| >= 4
  {
    var before, x := Search(rules[..3]), Extended(t, o);
    SearchFits(rules[..3]);
    RulesShorten(rules);
    LinesGrow(t.lines, o.line);
    hide Follows, LexLess, RulesFit;
    ApplyRuleOffers(before, before, rules[3], t, o);
    assert Search(rules) == ApplyRule(before, before, rules[3]);
    hide ApplyRule, AllKeysFit, OccsFit, NoLater, KeyOf, Search;
    var y :| y in Search(rules) && KeyOf(y) == KeyOf(x) && NoLater(y, x);
    KeyTells(x, y);
    BestIsGreatest(Search(rules), y);
    LengthFirst(BodySignature(rules), y.ids);
  }

  lemma LengthFirst(a: seq<AnchorId>, b: seq<AnchorId>)
    requires !LexLess(SignatureKey(a), SignatureKey(b))
    ensures |a| >= |b|
  {
  }

  lemma DetourIsEarly(rules: seq<seq<Occurrence>>, c: seq<Occurrence>, d: seq<Occurrence>, a: bool, b: bool, o: Occurrence)
    requires RulesFit(rules) && LinesFit(rules) && LineExchange(rules) && |rules| == 4 && |c| == |d| == 3
    requires Chain(rules, c) && Chain(rules, d) && o in rules[3] && Detour(c, d, a, b, o)
    ensures |BodySignature(rules)| >= 4
  {
    var m := Mixed(c, d, a, b, o);
    assert Occurs(rules, o);
    assert Occurs(rules, c[0]) && Occurs(rules, c[1]) && Occurs(rules, c[2]) && Occurs(rules, d[0]) && Occurs(rules, d[1]);
    hide Occurs, Follows, Rank, RulesFit, LinesFit, LineExchange, AnchorLines, Early, BodySignature;
    assert Chain(rules, m);
    EarlyIsNotBeaten(rules, m);
    LengthFirst(BodySignature(rules), IdsOf(m));
  }

  /** No eligible chain, early or not, has a greater signature than the one reported. */
  lemma SignatureIsGreatest(rules: seq<seq<Occurrence>>, c: seq<Occurrence>)
    requires RulesFit(rules) && LinesFit(rules) && LineExchange(rules) && NoneOvertaken(rules) && EligibleChain(rules, c)
    ensures NotBeaten(rules, c)
  {
    if Early(c) {
      EarlyIsNotBeaten(rules, c);
    } else {
      LateIsFull(rules, c);
      LateIsReported(rules, c);
      SignatureFits(rules);
      hide BodySignature, Early, NotBeaten, Chain;
      assert |BodySignature(rules)| == 4;
      FullIsNotBeaten(rules, c);
    }
  }

  lemma LateIsReported(rules: seq<seq<Occurrence>>, c: seq<Occurrence>)
    requires RulesFit(rules) && LinesFit(rules) && LineExchange(rules) && NoneOvertaken(rules)
    requires EligibleChain(rules, c) && !Early(c) && |rules| == |c| == 4 && c[3] in rules[3] && Chain(rules[..3], c[..3])
    ensures |BodySignature(rules)| >= 4
  {
    hide Follows, LinesFit, LineExchange, NoneOvertaken, Compatible, BodySignature, LexLess, Search;
    var init, h, o := rules[..3], c[..3], c[3];
    RulesShorten(rules);
    FewLines(h[..2]);
    ChainFollows(rules, c);
    ChainKeysFit(rules, c);
    hide RulesFit, AnchorLines, Chain;
    SearchCovers(init, h);
    SearchIsSound(init);
    var t :| t in Search(init) && KeyOf(t) == KeyOf(StateOf(h)) && NoLater(t, StateOf(h));
    assert Realised(init, t);
    var d :| Realises(init, d, t);
    assert |d| == 3 && t.last == Some(d[2]) && |AnchorLines(d)| >= MINIMUM_BODY_ANCHORS;
    ChainKeysFit(init, d);
    hide KeyOf, Realised, Search;
    if Follows(d[2], o) {
      FourthIsReported(rules, t, o);
    } else {
      NotCompatible(d[2], h[2], o);
      ChainGrows(init, rules, h);
      ChainGrows(init, rules, d);
      TakeDetour(rules, h, d, o);
    }
  }

  lemma NotCompatible(q: Occurrence, p: Occurrence, o: Occurrence)
    requires |q.endKey| == |p.endKey| == |o.startKey| == 4
    requires !LexLess(p.endKey, q.endKey) && Follows(p, o) && !Follows(q, o)
    ensures !Compatible(q, o)
  {
    if Compatible(q, o) { FollowsFromEarlier(q, p, o); }
  }

  lemma TakeDetour(rules: seq<seq<Occurrence>>, c: seq<Occurrence>, d: seq<Occurrence>, o: Occurrence)
    requires RulesFit(rules) && LinesFit(rules) && LineExchange(rules) && NoneOvertaken(rules) && |rules| == 4
    requires Chain(rules[..3], c) && Chain(rules[..3], d) && Chain(rules, c) && Chain(rules, d) && o in rules[3]
    requires |c| == |d| == 3 && |AnchorLines(c)| >= MINIMUM_BODY_ANCHORS && |AnchorLines(d)| >= MINIMUM_BODY_ANCHORS
    requires !LexLess(c[2].endKey, d[2].endKey) && Follows(c[2], o) && !Compatible(d[2], o)
    ensures |BodySignature(rules)| >= 4
  {
    assert !Overtaken(c, d, o);
    hide RulesFit, LinesFit, LineExchange, NoneOvertaken, Chain, Detour, BodySignature, AnchorLines, Follows, Compatible, LexLess;
    if Detour(c, d, false, false, o) { DetourIsEarly(rules, c, d, false, false, o); }
    else if Detour(c, d, false, true, o) { DetourIsEarly(rules, c, d, false, true, o); }
    else if Detour(c, d, true, false, o) { DetourIsEarly(rules, c, d, true, false, o); }
    else { DetourIsEarly(rules, c, d, true, true, o); }
  }

  // ---------------------------------------------------------------- and that nothing less will do

  /** No two occurrences of a rule end alike. */
  predicate DistinctEnds(rules: seq<seq<Occurrence>>) {
    forall i, p, q :: 0 <= i < |rules| && p in rules[i] && q in rules[i] && p.endKey == q.endKey ==> p == q
  }

  predicate UniqueKeys(states: seq<State>) {
    forall i, j :: 0 <= i < j < |states| ==> KeyOf(states[i]) != KeyOf(states[j])
  }

  lemma {:induction false} WhereFinds(states: seq<State>, key: (seq<AnchorId>, Option<set<nat>>))
    ensures Where(states, key) == |states| ==> forall i :: 0 <= i < |states| ==> KeyOf(states[i]) != key
  {
    if states != [] {
      WhereFinds(states[..|states| - 1], key);
    }
  }

  lemma OfferKeepsUnique(states: seq<State>, s: State)
    requires UniqueKeys(states) && s.last.Some?
    ensures UniqueKeys(Offer(states, s))
  {
    WhereFinds(states, KeyOf(s));
    hide KeyOf, LexLess;
  }

  lemma {:induction false} ExtendAllKeepsUnique(states: seq<State>, from: State, occs: seq<Occurrence>)
    requires UniqueKeys(states)
    ensures UniqueKeys(ExtendAll(states, from, occs))
  {
    hide UniqueKeys, Offer, Follows;
    if occs != [] {
      var k := |occs| - 1;
      ExtendAllKeepsUnique(states, from, occs[..k]);
      OfferKeepsUnique(ExtendAll(states, from, occs[..k]), Extended(from, occs[k]));
    }
  }

  lemma {:induction false} ApplyRuleKeepsUnique(states: seq<State>, froms: seq<State>, occs: seq<Occurrence>)
    requires UniqueKeys(states)
    ensures UniqueKeys(ApplyRule(states, froms, occs))
  {
    hide UniqueKeys, ExtendAll;
    if froms != [] {
      var k := |froms| - 1;
      ApplyRuleKeepsUnique(states, froms[..k], occs);
      ExtendAllKeepsUnique(ApplyRule(states, froms[..k], occs), froms[k], occs);
    }
  }

  lemma {:induction false} SearchIsUnique(rules: seq<seq<Occurrence>>)
    ensures UniqueKeys(Search(rules))
  {
    if rules != [] {
      SearchIsUnique(rules[..|rules| - 1]);
      ApplyRuleKeepsUnique(Search(rules[..|rules| - 1]), Search(rules[..|rules| - 1]), rules[|rules| - 1]);
    }
    hide ApplyRule;
  }

  /** A state that extends some state of before by some occurrence that may follow it. */
  predicate Derived(froms: seq<State>, occs: seq<Occurrence>, s: State) {
    exists i, k :: 0 <= i < |froms| && 0 <= k < |occs| && s == Extended(froms[i], occs[k])
      && (froms[i].last.None? || Follows(froms[i].last.value, occs[k]))
  }

  lemma OfferAdds(states: seq<State>, n: State, s: State)
    requires n.last.Some? && s in Offer(states, n)
    ensures s in states || s == n
  {
    hide KeyOf, LexLess, Where;
  }

  lemma {:induction false} ExtendAllDerives(states: seq<State>, from: State, occs: seq<Occurrence>, s: State)
    requires s in ExtendAll(states, from, occs)
    ensures s in states || Derived([from], occs, s)
  {
    hide Offer, Follows;
    if occs != [] {
      var k := |occs| - 1;
      var before := ExtendAll(states, from, occs[..k]);
      if s in before {
        ExtendAllDerives(states, from, occs[..k], s);
        if s !in states {
          var i, x :| 0 <= i < 1 && 0 <= x < k && s == Extended([from][i], occs[..k][x])
                      && ([from][i].last.None? || Follows([from][i].last.value, occs[..k][x]));
          assert s == Extended([from][0], occs[x]);
        }
      } else {
        OfferAdds(before, Extended(from, occs[k]), s);
        assert s == Extended([from][0], occs[k]);
      }
    }
  }

  lemma {:induction false} ApplyRuleDerives(states: seq<State>, froms: seq<State>, occs: seq<Occurrence>, s: State)
    requires s in ApplyRule(states, froms, occs)
    ensures s in states || Derived(froms, occs, s)
  {
    hide ExtendAll, Follows, Extended;
    if froms != [] {
      var k := |froms| - 1;
      var before := ApplyRule(states, froms[..k], occs);
      if s in before {
        ApplyRuleDerives(states, froms[..k], occs, s);
        if s !in states {
          var i, x :| 0 <= i < k && 0 <= x < |occs| && s == Extended(froms[..k][i], occs[x])
                      && (froms[..k][i].last.None? || Follows(froms[..k][i].last.value, occs[x]));
          assert s == Extended(froms[i], occs[x]);
        }
      } else {
        ExtendAllDerives(before, froms[k], occs, s);
        var i, x :| 0 <= i < 1 && 0 <= x < |occs| && s == Extended([froms[k]][i], occs[x])
                    && ([froms[k]][i].last.None? || Follows([froms[k]][i].last.value, occs[x]));
        assert s == Extended(froms[k], occs[x]);
      }
    }
  }

  /** The page that has the two chains and the fourth anchor and nothing else. */
  function OvertakingPage(c: seq<Occurrence>, d: seq<Occurrence>, o: Occurrence): seq<seq<Occurrence>>
    requires |c| == |d| == 3
  {
    [[d[0], c[0]], [d[1], c[1]], [d[2], c[2]], [o]]
  }

  /** A state of four anchors comes from one of three by the fourth. */
  lemma FullStateExtends(rules: seq<seq<Occurrence>>, o: Occurrence, s: State) returns (from: State)
    requires RulesFit(rules) && |rules| == 4 && rules[3] == [o] && s in Search(rules) && |s.ids| == 4
    ensures from in Search(rules[..3]) && s == Extended(from, o) && (from.last.None? || Follows(from.last.value, o))
  {
    var before := Search(rules[..3]);
    RulesShorten(rules);
    SearchIsSound(rules[..3]);
    assert Search(rules) == ApplyRule(before, before, [o]);
    ApplyRuleDerives(before, before, [o], s);
    hide Search, ApplyRule, Follows, AnchorLines, RulesFit, Chain;
    if s in before {
      assert Realised(rules[..3], s);
      var e :| Realises(rules[..3], e, s);
      MajorIsThere(rules, e);
    }
    var i, k :| 0 <= i < |before| && 0 <= k < 1 && s == Extended(before[i], [o][k])
                && (before[i].last.None? || Follows(before[i].last.value, [o][k]));
    from := before[i];
  }

  /** A chain of three on that page that the fourth anchor may follow mixes the two and ends with the overtaken one's last. */
  lemma ThreeAreMixed(c: seq<Occurrence>, d: seq<Occurrence>, o: Occurrence, e: seq<Occurrence>) returns (a: bool, b: bool)
    requires |c| == |d| == |e| == 3 && RulesFit(OvertakingPage(c, d, o)) && !Follows(d[2], o) && Follows(e[2], o)
    requires Chain(OvertakingPage(c, d, o)[..3], e)
    ensures e == Mixed(c, d, a, b, o)[..3] && e[2] == c[2]
  {
    var rules := OvertakingPage(c, d, o);
    RulesOfThree(rules);
    hide Follows, RulesFit;
    ThreeOfThree(rules[..3], e);
    hide Chain;
    assert rules[..3][0] == [d[0], c[0]] && rules[..3][1] == [d[1], c[1]] && rules[..3][2] == [d[2], c[2]];
    a, b := e[0] == c[0], e[1] == c[1];
    assert e == Mixed(c, d, a, b, o)[..3];
  }

  /** What a full state of that page goes back to. */
  lemma FullStateIsMixed(c: seq<Occurrence>, d: seq<Occurrence>, o: Occurrence, s: State) returns (from: State, a: bool, b: bool)
    requires |c| == |d| == 3 && RulesFit(OvertakingPage(c, d, o)) && !Follows(d[2], o)
    requires s in Search(OvertakingPage(c, d, o)) && |s.ids| == 4
    ensures from in Search(OvertakingPage(c, d, o)[..3]) && from.last == Some(c[2]) && s == Extended(from, o)
    ensures Follows(c[2], o) && Realises(OvertakingPage(c, d, o)[..3], Mixed(c, d, a, b, o)[..3], from)
  {
    var rules := OvertakingPage(c, d, o);
    assert rules[3] == [o];
    RulesOfThree(rules);
    hide Follows, RulesFit, Search, Chain, AnchorLines, Mixed, OvertakingPage;
    from := FullStateExtends(rules, o, s);
    SearchIsSound(rules[..3]);
    assert Realised(rules[..3], from);
    var e :| Realises(rules[..3], e, from);
    assert |e| == 3;
    a, b := ThreeAreMixed(c, d, o, e);
  }

  lemma MajorIsThere(rules: seq<seq<Occurrence>>, e: seq<Occurrence>)
    requires RulesFit(rules) && |rules| == 4 && Chain(rules[..3], e)
    ensures |e| <= 3
  {
    ChainGrows(rules[..3], rules, e);
    AllRanks(rules, e);
    if |e| == 4 {
      assert e[3].anchor == IdsOf(e)[3] == MajorStudy && Occurs(rules, e[3]) && Occurs(rules[..3], e[3]);
      MajorIsLast(rules, e[3]);
    }
  }

  /** A chain of three over three rules takes one occurrence of each. */
  lemma ThreeOfThree(rules: seq<seq<Occurrence>>, e: seq<Occurrence>)
    requires RulesFit(rules) && |rules| == |e| == 3 && Chain(rules, e)
    ensures e[0] in rules[0] && e[1] in rules[1] && e[2] in rules[2]
  {
    RankFloor(rules, e, 0);
    assert Rank(e[0].anchor) < Rank(e[1].anchor) < Rank(e[2].anchor);
    InItsRule(rules, e[0]);
    InItsRule(rules, e[1]);
    InItsRule(rules, e[2]);
  }

  lemma InItsRule(rules: seq<seq<Occurrence>>, o: Occurrence)
    requires RulesFit(rules) && Occurs(rules, o)
    ensures 1 <= Rank(o.anchor) <= |rules| && o in rules[Rank(o.anchor) - 1]
  {
    var k :| 0 <= k < |rules| && o in rules[k];
    assert o.anchor == BODY_ANCHORS[k];
  }

  /** On that page the two chains are there, and the fourth anchor goes on from the overtaken one. */
  lemma OvertakingPageHas(rules: seq<seq<Occurrence>>, c: seq<Occurrence>, d: seq<Occurrence>, o: Occurrence)
    requires RulesFit(rules) && |rules| == 4 && |c| == |d| == 3 && Follows(c[2], o)
    requires Chain(rules[..3], c) && Chain(rules[..3], d) && o in rules[3]
    ensures var sub := OvertakingPage(c, d, o);
            Within(sub, rules) && Chain(sub[..3], c) && Chain(sub[..3], d) && Chain(sub, c + [o])
  {
    var sub := OvertakingPage(c, d, o);
    RulesOfThree(rules);
    ThreeOfThree(rules[..3], c);
    ThreeOfThree(rules[..3], d);
    hide Follows, Rank;
    assert Within(sub, rules) && RulesFit(sub) by { hide Chain; }
    RechainedOn(rules[..3], sub[..3], c);
    RechainedOn(rules[..3], sub[..3], d);
    assert o in sub[3] && sub[..|sub| - 1] == sub[..3];
    hide Chain, OvertakingPage, Within, RulesFit;
    ChainExtends(sub, c, o);
  }

  lemma RechainedOn(rules: seq<seq<Occurrence>>, sub: seq<seq<Occurrence>>, c: seq<Occurrence>)
    requires Chain(rules, c) && |c| == |sub| == 3 && c[0] in sub[0] && c[1] in sub[1] && c[2] in sub[2]
    ensures Chain(sub, c)
  {
    assert Occurs(sub, c[0]) && Occurs(sub, c[1]) && Occurs(sub, c[2]);
    hide Follows, Rank, Occurs;
  }

  lemma NoDetour(c: seq<Occurrence>, d: seq<Occurrence>, o: Occurrence, a: bool, b: bool)
    requires Overtaken(c, d, o)
    ensures !Detour(c, d, a, b, o)
  {
    hide Detour, AnchorLines, Follows, Compatible, LexLess;
    assert a == true || a == false;
    assert b == true || b == false;
  }

  /** The overtaken chain ends strictly later than the one that overtakes it. */
  lemma OvertakenEndsLater(rules: seq<seq<Occurrence>>, c: seq<Occurrence>, d: seq<Occurrence>, o: Occurrence)
    requires |rules| >= 3 && |c| == |d| == 3 && c[2] in rules[2] && d[2] in rules[2] && DistinctEnds(rules)
    requires |c[2].endKey| == |d[2].endKey| == 4 && Overtaken(c, d, o)
    ensures LexLess(d[2].endKey, c[2].endKey)
  {
    hide Detour, AnchorLines, LexLess;
    LexTotal(c[2].endKey, d[2].endKey);
  }

  /** Going on from less than three lines to three lines is a detour. */
  lemma FewLinesDetour(c: seq<Occurrence>, d: seq<Occurrence>, o: Occurrence, a: bool, b: bool, from: State)
    requires |c| == |d| == 3 && RulesFit(OvertakingPage(c, d, o)) && Follows(c[2], o)
    requires Realises(OvertakingPage(c, d, o)[..3], Mixed(c, d, a, b, o)[..3], from)
    requires |from.lines| < MINIMUM_BODY_ANCHORS <= |from.lines + {o.line}|
    ensures Detour(c, d, a, b, o)
  {
    var rules, m := OvertakingPage(c, d, o), Mixed(c, d, a, b, o);
    assert m == m[..3] + [o] && m[..|m| - 1] == m[..3] && m[2] == c[2] && o in rules[3];
    LinesExtend(m[..3], o);
    hide RulesFit, AnchorLines, Follows, Chain, OvertakingPage, Mixed;
    MixedIsLinked(rules, m, o);
    hide Linked;
  }

  /** On three lines there is one state, and it ends no later than the chain that is kept. */
  lemma FullIsKept(c: seq<Occurrence>, d: seq<Occurrence>, o: Occurrence, m: seq<Occurrence>, from: State)
    requires |c| == |d| == |m| == 3 && Chain(OvertakingPage(c, d, o)[..3], d) && |AnchorLines(d)| >= MINIMUM_BODY_ANCHORS
    requires var rules := OvertakingPage(c, d, o);
             RulesFit(rules) && LinesFit(rules) && LineExchange(rules) && Realises(rules[..3], m, from)
    requires from in Search(OvertakingPage(c, d, o)[..3]) && from.last == Some(c[2]) && |from.lines| >= MINIMUM_BODY_ANCHORS
    ensures !LexLess(d[2].endKey, c[2].endKey)
  {
    var rules := OvertakingPage(c, d, o);
    hide RulesFit, LinesFit, LineExchange, Chain, AnchorLines, Search, LexLess;
    SameIds(rules, m, d);
    KeptEndsFirst(rules, d, from);
  }

  /** A state of all four anchors on that page would be a detour, or the overtaken chain would end first. */
  lemma NoFullState(c: seq<Occurrence>, d: seq<Occurrence>, o: Occurrence, s: State)
    requires Overtaken(c, d, o) && s in Search(OvertakingPage(c, d, o)) && |s.ids| == 4
    requires var rules := OvertakingPage(c, d, o);
             && RulesFit(rules) && LinesFit(rules) && LineExchange(rules) && DistinctEnds(rules)
             && Chain(rules[..3], c) && Chain(rules[..3], d)
    ensures |s.lines| < MINIMUM_BODY_ANCHORS
  {
    assert |c| == |d| == 3 && |AnchorLines(d)| >= MINIMUM_BODY_ANCHORS;
    OvertakenEnds(c, d, o);
    hide RulesFit, LinesFit, LineExchange, DistinctEnds, Overtaken, OvertakingPage, Chain, AnchorLines, Search, Follows, Mixed;
    hide LexLess, Detour, Realises;
    var from, a, b := FullStateIsMixed(c, d, o, s);
    if |from.lines| < MINIMUM_BODY_ANCHORS {
      NoDetour(c, d, o, a, b);
      if |s.lines| >= MINIMUM_BODY_ANCHORS {
        FewLinesDetour(c, d, o, a, b, from);
      }
    } else {
      MixedIsThree(c, d, a, b, o);
      FullIsKept(c, d, o, Mixed(c, d, a, b, o)[..3], from);
    }
  }

  lemma MixedIsThree(c: seq<Occurrence>, d: seq<Occurrence>, a: bool, b: bool, o: Occurrence)
    requires |c| == |d| == 3
    ensures |Mixed(c, d, a, b, o)| == 4
  {
  }

  lemma OvertakenEnds(c: seq<Occurrence>, d: seq<Occurrence>, o: Occurrence)
    requires Overtaken(c, d, o) && RulesFit(OvertakingPage(c, d, o)) && DistinctEnds(OvertakingPage(c, d, o))
    ensures !Follows(d[2], o) && LexLess(d[2].endKey, c[2].endKey)
  {
    var rules := OvertakingPage(c, d, o);
    assert c[2] in rules[2] && d[2] in rules[2];
    hide OvertakingPage, Detour, AnchorLines;
    OvertakenEndsLater(rules, c, d, o);
  }

  lemma SameIds(rules: seq<seq<Occurrence>>, c: seq<Occurrence>, d: seq<Occurrence>)
    requires RulesFit(rules) && |rules| >= 3 && |c| == |d| == 3 && Chain(rules[..3], c) && Chain(rules[..3], d)
    ensures IdsOf(c) == IdsOf(d)
  {
    ThreeAnchors(rules, c);
    ThreeAnchors(rules, d);
  }

  lemma ThreeAnchors(rules: seq<seq<Occurrence>>, c: seq<Occurrence>)
    requires RulesFit(rules) && |rules| >= 3 && |c| == 3 && Chain(rules[..3], c)
    ensures IdsOf(c) == [Salutation, Committee, Admission]
  {
    RulesOfThree(rules);
    ThreeOfThree(rules[..3], c);
    hide Chain;
    assert rules[..3][0] == rules[0] && rules[..3][1] == rules[1] && rules[..3][2] == rules[2];
    assert c[0].anchor == Salutation && c[1].anchor == Committee && c[2].anchor == Admission;
  }

  lemma RulesOfThree(rules: seq<seq<Occurrence>>)
    requires RulesFit(rules) && |rules| >= 3
    ensures RulesFit(rules[..3])
  {
  }

  lemma MixedIsLinked(rules: seq<seq<Occurrence>>, m: seq<Occurrence>, o: Occurrence)
    requires RulesFit(rules) && |rules| == 4 && |m| == 4 && m[3] == o && o in rules[3]
    requires Chain(rules[..3], m[..3]) && Follows(m[2], o)
    ensures Linked(m)
  {
    assert m == m[..3] + [o];
    hide Follows;
    ChainExtends(rules, m[..3], o);
  }

  /** The one state of three anchors on three lines ends no later than any chain of that kind. */
  lemma KeptEndsFirst(rules: seq<seq<Occurrence>>, d: seq<Occurrence>, from: State)
    requires RulesFit(rules) && LinesFit(rules) && LineExchange(rules) && |rules| == 4
    requires Chain(rules[..3], d) && |d| == 3 && |AnchorLines(d)| >= MINIMUM_BODY_ANCHORS
    requires from in Search(rules[..3]) && from.last.Some? && |from.lines| >= MINIMUM_BODY_ANCHORS && from.ids == IdsOf(d)
    ensures !LexLess(d[2].endKey, from.last.value.endKey)
  {
    RulesShorten(rules);
    FewLines(d[..2]);
    hide RulesFit, LinesFit, LineExchange, Chain, AnchorLines, Search, LexLess;
    SearchCovers(rules[..3], d);
    SearchIsUnique(rules[..3]);
    var states := Search(rules[..3]);
    var t :| t in states && KeyOf(t) == KeyOf(StateOf(d)) && NoLater(t, StateOf(d));
    assert KeyOf(from) == KeyOf(StateOf(d));
    var i :| 0 <= i < |states| && states[i] == t;
    var j :| 0 <= j < |states| && states[j] == from;
    hide KeyOf;
    assert i == j;
  }

  /** An overtaken chain is missed on the page that has just the two. */
  lemma OvertakenIsMissed(rules: seq<seq<Occurrence>>, c: seq<Occurrence>, d: seq<Occurrence>, o: Occurrence)
    returns (sub: seq<seq<Occurrence>>)
    requires RulesFit(rules) && LinesFit(rules) && LineExchange(rules) && DistinctEnds(rules) && |rules| == 4
    requires Chain(rules[..3], c) && Chain(rules[..3], d) && o in rules[3] && Overtaken(c, d, o)
    ensures Within(sub, rules) && EligibleChain(sub, c + [o]) && !NotBeaten(sub, c + [o])
  {
    sub := OvertakingPage(c, d, o);
    OvertakingPageHas(rules, c, d, o);
    WithinKeeps(sub, rules);
    assert DistinctEnds(sub) by { hide RulesFit, LinesFit, LineExchange, Chain, Overtaken; }
    LinesExtend(c, o);
    LinesGrow(AnchorLines(c), o.line);
    assert (c + [o])[..3] == c;
    assert !Early(c + [o]) && |AnchorLines(c + [o])| >= MINIMUM_BODY_ANCHORS;
    hide RulesFit, LinesFit, LineExchange, DistinctEnds, Chain, Overtaken, OvertakingPage, Early, AnchorLines, Within;
    FullIsNotBeaten(sub, c + [o]);
    if |BodySignature(sub)| == 4 {
      SearchFits(sub);
      BestIsThere(Search(sub));
      assert Eligible(EMPTY_STATE.ids, EMPTY_STATE.lines);
      var s :| s in Search(sub) && Eligible(s.ids, s.lines) && s.ids == Best(Search(sub)).value;
      NoFullState(c, d, o, s);
    }
  }

  /**
   On every page made of some of these occurrences, which all end at different places, the search reports no less
   than any chain, if and only if none costs another of its line a continuation and no chain is overtaken.
   */
  lemma FindsAllIff(rules: seq<seq<Occurrence>>)
    requires RulesFit(rules) && LinesFit(rules) && DistinctEnds(rules)
    ensures (forall sub :: Within(sub, rules) ==> FindsAll(sub)) <==> LineExchange(rules) && NoneOvertaken(rules)
  {
    hide RulesFit, LinesFit, DistinctEnds, EligibleChain, Early, NotBeaten, Overtaken;
    if LineExchange(rules) && NoneOvertaken(rules) {
      forall sub, c | Within(sub, rules) && EligibleChain(sub, c) ensures NotBeaten(sub, c) {
        WithinKeeps(sub, rules);
        NoneOvertakenWithin(sub, rules);
        SignatureIsGreatest(sub, c);
      }
    } else if !LineExchange(rules) {
      FindsEarlyIff(rules);
      var sub :| Within(sub, rules) && !FindsEarly(sub);
      assert !FindsAll(sub);
    } else {
      var c, d, o :| Chain(rules[..3], c) && Chain(rules[..3], d) && o in rules[3] && Overtaken(c, d, o);
      var sub := OvertakenIsMissed(rules, c, d, o);
      assert !FindsAll(sub);
    }
  }

  lemma NoneOvertakenWithin(sub: seq<seq<Occurrence>>, rules: seq<seq<Occurrence>>)
    requires NoneOvertaken(rules) && Within(sub, rules)
    ensures NoneOvertaken(sub)
  {
    hide Overtaken;
    if |rules| == |BODY_ANCHORS| {
      forall c, d, o | Chain(sub[..3], c) && Chain(sub[..3], d) && o in sub[3] ensures !Overtaken(c, d, o) {
        ChainWithin(sub, rules, c);
        ChainWithin(sub, rules, d);
      }
    }
  }

  lemma ChainWithin(sub: seq<seq<Occurrence>>, rules: seq<seq<Occurrence>>, c: seq<Occurrence>)
    requires Within(sub, rules) && |rules| >= 3 && Chain(sub[..3], c)
    ensures Chain(rules[..3], c)
  {
    forall i | 0 <= i < |c| ensures Occurs(rules[..3], c[i]) {
      assert Occurs(sub[..3], c[i]);
      var k :| 0 <= k < 3 && c[i] in sub[..3][k];
      assert c[i] in rules[..3][k];
    }
    hide Follows, Occurs;
  }

  // ---------------------------------------------------------------- what that means for a match

  /** A chain of three anchors or more on three lines or more. */
  predicate Qualifies(rules: seq<seq<Occurrence>>, c: seq<Occurrence>) {
    EligibleChain(rules, c) && |c| >= MINIMUM_BODY_ANCHORS
  }

  lemma ChainShortens(rules: seq<seq<Occurrence>>, c: seq<Occurrence>)
    requires Chain(rules, c) && c != []
    ensures Chain(rules, c[..|c| - 1])
  {
    hide Follows, Occurs, Rank;
  }

  /** If there is a qualifying chain there is an early one. */
  lemma {:induction false} EarlyQualifies(rules: seq<seq<Occurrence>>, c: seq<Occurrence>) returns (e: seq<Occurrence>)
    requires Qualifies(rules, c)
    ensures Qualifies(rules, e) && Early(e)
    decreases |c|
  {
    hide Chain;
    if Early(c) {
      e := c;
    } else {
      ChainShortens(rules, c);
      FewLines(c[..|c| - 1]);
      e := EarlyQualifies(rules, c[..|c| - 1]);
    }
  }

  lemma {:induction false} FewLines(c: seq<Occurrence>)
    ensures |AnchorLines(c)| <= |c|
    decreases |c|
  {
    if c != [] {
      var init, o := c[..|c| - 1], c[|c| - 1];
      FewLines(init);
      LinesExtend(init, o);
      assert c == init + [o];
    } else {
      assert AnchorLines(c) == {};
    }
  }

  /** Then three anchors are reported exactly when some chain of three anchors on three lines is there. */
  lemma ThreeReportedIff(rules: seq<seq<Occurrence>>)
    requires RulesFit(rules) && LinesFit(rules) && LineExchange(rules)
    ensures |BodySignature(rules)| >= MINIMUM_BODY_ANCHORS <==> exists c :: Qualifies(rules, c)
  {
    hide RulesFit, LinesFit, LineExchange, Chain, BodySignature, Early, Eligible;
    var r := SignatureIsReal(rules);
    if |BodySignature(rules)| >= MINIMUM_BODY_ANCHORS {
      assert Qualifies(rules, r);
    }
    if c :| Qualifies(rules, c) {
      var e := EarlyQualifies(rules, c);
      EarlyIsNotBeaten(rules, e);
      assert |IdsOf(e)| >= MINIMUM_BODY_ANCHORS;
    }
  }

  // ---------------------------------------------------------------- a match that is missed

  /**
   Two salutations on one line, the rest of the notice below the right one only: the left one, which ends first, is
   kept for both.
   */
  predicate TwoColumns(left: Occurrence, right: Occurrence, committee: Occurrence, admission: Occurrence) {
    && left.anchor == right.anchor == Salutation && committee.anchor == Committee && admission.anchor == Admission
    && Loses(left, right, committee) && !Compatible(left, admission) && Follows(committee, admission)
    && right.line < committee.line < admission.line
  }

  function ColumnRules(left: Occurrence, right: Occurrence, committee: Occurrence, admission: Occurrence): seq<seq<Occurrence>> {
    [[left, right], [committee], [admission], []]
  }

  lemma LastRuleOfColumns(left: Occurrence, committee: Occurrence, admission: Occurrence)
    requires left.anchor == Salutation && committee.anchor == Committee && admission.anchor == Admission
    requires !Follows(left, admission) && Follows(committee, admission)
    ensures var states := [EMPTY_STATE, First(left), First(committee)];
            ApplyRule(states, states, [admission]) == states + [First(admission), Extended(First(committee), admission)]
  {
    hide Follows, LexLess, Extended, KeyOf, Where, Offer, First;
    var states := [EMPTY_STATE, First(left), First(committee)];
    var a, b := First(admission), Extended(First(committee), admission);
    var next := states + [a];
    FirstIs(left);
    FirstIs(committee);
    FirstIs(admission);
    ExtendedIs(First(committee), admission);
    NewKey(states, a);
    NewKey(next, b);
    OneOccurrence(states, EMPTY_STATE, admission);
    OneOccurrence(next, First(left), admission);
    OneOccurrence(next, First(committee), admission);
    OneFrom(states, [], EMPTY_STATE, [admission]);
    OneFrom(states, [EMPTY_STATE], First(left), [admission]);
    OneFrom(states, [EMPTY_STATE, First(left)], First(committee), [admission]);
    assert [] + [EMPTY_STATE] == [EMPTY_STATE] && [EMPTY_STATE] + [First(left)] == [EMPTY_STATE, First(left)];
    assert [EMPTY_STATE, First(left)] + [First(committee)] == states;
    assert states + [a, b] == next + [b];
  }

  function ColumnStates(left: Occurrence, committee: Occurrence, admission: Occurrence): seq<State> {
    [EMPTY_STATE, First(left), First(committee), First(admission), Extended(First(committee), admission)]
  }

  lemma ColumnsSearch(left: Occurrence, right: Occurrence, committee: Occurrence, admission: Occurrence)
    requires TwoColumns(left, right, committee, admission)
    ensures Search(ColumnRules(left, right, committee, admission)) == ColumnStates(left, committee, admission)
  {
    var rules := ColumnRules(left, right, committee, admission);
    PairIsPruned(left, right);
    OnlyStartsAfresh(left, committee);
    LastRuleOfColumns(left, committee, admission);
    hide ApplyRule, Follows, Compatible, LexLess, First, Extended, TwoColumns;
    assert rules[..0] == [] && rules[..1][..0] == [] && rules[..2][..1] == rules[..1] && rules[..3][..2] == rules[..2];
    assert Search(rules[..1]) == [EMPTY_STATE, First(left)];
    assert Search(rules[..2]) == [EMPTY_STATE, First(left), First(committee)];
    assert [EMPTY_STATE, First(left), First(committee)] + [First(admission), Extended(First(committee), admission)]
        == ColumnStates(left, committee, admission);
    assert Search(rules[..3]) == ColumnStates(left, committee, admission);
    QuietRules(rules, 3, 4);
    assert rules[..4] == rules;
  }

  /** Then a chain of three anchors on three lines is there, and the search reports two. */
  lemma ColumnIsMissed(left: Occurrence, right: Occurrence, committee: Occurrence, admission: Occurrence)
    requires TwoColumns(left, right, committee, admission)
    ensures var rules := ColumnRules(left, right, committee, admission);
            Qualifies(rules, [right, committee, admission]) && BodySignature(rules) == [Committee, Admission]
  {
    ColumnsSearch(left, right, committee, admission);
    BestOfColumns(left, committee, admission);
    hide Search, Best, ColumnStates, Compatible, LexLess;
    ColumnQualifies(ColumnRules(left, right, committee, admission), [right, committee, admission]);
  }

  lemma BestOfColumns(left: Occurrence, committee: Occurrence, admission: Occurrence)
    requires left.anchor == Salutation && committee.anchor == Committee && admission.anchor == Admission
    ensures Best(ColumnStates(left, committee, admission)) == Some([Committee, Admission])
  {
    var both := Extended(First(committee), admission);
    var states := ColumnStates(left, committee, admission);
    assert both.ids == [Committee, Admission] && |First(left).ids| == |First(committee).ids| == |First(admission).ids| == 1;
    hide Extended, First;
    BestIsGreatest(states, both);
    BestIsThere(states);
    var s :| s in states && Eligible(s.ids, s.lines) && s.ids == Best(states).value;
    assert |s.ids| == 2;
  }

  lemma ColumnQualifies(rules: seq<seq<Occurrence>>, c: seq<Occurrence>)
    requires |c| == 3 && |rules| == 4 && c[0] in rules[0] && c[1] in rules[1] && c[2] in rules[2]
    requires Follows(c[0], c[1]) && Follows(c[1], c[2]) && c[0].line < c[1].line < c[2].line
    requires Rank(c[0].anchor) < Rank(c[1].anchor) < Rank(c[2].anchor)
    ensures Qualifies(rules, c)
  {
    hide Follows, Rank;
    assert Occurs(rules, c[0]) && Occurs(rules, c[1]) && Occurs(rules, c[2]);
    assert c[0].line in AnchorLines(c) && c[1].line in AnchorLines(c) && c[2].line in AnchorLines(c);
    assert AnchorLines(c) == {c[0].line, c[1].line, c[2].line};
    hide Occurs, AnchorLines;
  }
}
