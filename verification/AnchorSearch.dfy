/**
 The search for the longest body signature of a page: states keyed by the anchors found so far and the
 lines they begin on, each keeping only its occurrence that ends first.
 */
module AnchorSearch {
  import opened Basics
  import opened Sorting
  import opened ReadingOrder

  const MINIMUM_BODY_ANCHORS: nat := 3
  const MAX_ADMISSION_TO_MAJOR_HORIZONTAL_GAP: real := 0.18

  datatype AnchorId = Heading | Salutation | Committee | Admission | MajorStudy

  const BODY_ANCHORS: seq<AnchorId> := [Salutation, Committee, Admission, MajorStudy]

  function Rank(a: AnchorId): nat {
    match a
    case Heading => 0
    case Salutation => 1
    case Committee => 2
    case Admission => 3
    case MajorStudy => 4
  }

  /** An anchor found on the page; keys are position keys of equal length. */
  datatype Occurrence = Occurrence(
    anchor: AnchorId, startKey: seq<real>, endKey: seq<real>, line: nat, minX: real, maxX: real)

  predicate Compatible(previous: Occurrence, current: Occurrence) {
    var gap := Max(0.0, Max(current.minX - previous.maxX, previous.minX - current.maxX));
    || gap == 0.0
    || (previous.anchor == Admission && current.anchor == MajorStudy && gap <= MAX_ADMISSION_TO_MAJOR_HORIZONTAL_GAP)
  }

  /** Strictly after, and horizontally compatible. */
  predicate Follows(previous: Occurrence, current: Occurrence) {
    LexLess(previous.endKey, current.startKey) && Compatible(previous, current)
  }

  /** Anchors whose extents meet are compatible, and a study not far beside its admission. */
  lemma CompatibleIs(p: Occurrence, c: Occurrence)
    requires p.minX <= p.maxX && c.minX <= c.maxX
    ensures Compatible(p, c) <==>
              || (p.minX <= c.maxX && c.minX <= p.maxX)
              || (p.anchor == Admission && c.anchor == MajorStudy && c.minX <= p.maxX + 0.18 && p.minX <= c.maxX + 0.18)
  {
  }

  datatype State = State(ids: seq<AnchorId>, last: Option<Occurrence>, lines: set<nat>)

  const EMPTY_STATE := State([], None, {})

  /** States with three lines or more are not told apart by their lines. */
  function KeyOf(s: State): (seq<AnchorId>, Option<set<nat>>) {
    (s.ids, if |s.lines| >= MINIMUM_BODY_ANCHORS then None else Some(s.lines))
  }

  /** The position of a key, or the length when it is not there. */
  function Where(states: seq<State>, key: (seq<AnchorId>, Option<set<nat>>)): (i: nat)
    ensures i <= |states|
    ensures i < |states| ==> KeyOf(states[i]) == key
  {
    if states == [] then 0
    else
      var k := |states| - 1;
      var before := Where(states[..k], key);
      if before < k then before else if KeyOf(states[k]) == key then k else |states|
  }

  /** Enter a state under its key, unless the one already there ends no later. */
  function Offer(states: seq<State>, s: State): seq<State>
    requires s.last.Some?
  {
    var i := Where(states, KeyOf(s));
    if i == |states| then states + [s]
    else if states[i].last.None? || LexLess(s.last.value.endKey, states[i].last.value.endKey) then states[i := s]
    else states
  }

  function Extended(from: State, o: Occurrence): State {
    State(from.ids + [o.anchor], Some(o), from.lines + {o.line})
  }

  function Extend(states: seq<State>, from: State, o: Occurrence): seq<State> {
    if from.last.Some? && !Follows(from.last.value, o) then states else Offer(states, Extended(from, o))
  }

  function ExtendAll(states: seq<State>, from: State, occs: seq<Occurrence>): seq<State> {
    if occs == [] then states
    else Extend(ExtendAll(states, from, occs[..|occs| - 1]), from, occs[|occs| - 1])
  }

  /** All states extended by one rule's occurrences, beside the states themselves. */
  function ApplyRule(states: seq<State>, froms: seq<State>, occs: seq<Occurrence>): seq<State> {
    if froms == [] then states
    else ExtendAll(ApplyRule(states, froms[..|froms| - 1], occs), froms[|froms| - 1], occs)
  }

  function Search(rules: seq<seq<Occurrence>>): seq<State> {
    if rules == [] then [EMPTY_STATE]
    else
      var before := Search(rules[..|rules| - 1]);
      ApplyRule(before, before, rules[|rules| - 1])
  }

  predicate Eligible(ids: seq<AnchorId>, lines: set<nat>) {
    |ids| < MINIMUM_BODY_ANCHORS || |lines| >= MINIMUM_BODY_ANCHORS
  }

  function Flag(ids: seq<AnchorId>, a: AnchorId): real {
    if a in ids then 1.0 else 0.0
  }

  /** Longer signatures first, then earlier anchors. */
  function SignatureKey(ids: seq<AnchorId>): seq<real> {
    [|ids| as real, Flag(ids, Salutation), Flag(ids, Committee), Flag(ids, Admission), Flag(ids, MajorStudy)]
  }

  /** Fewer anchors are weaker, and of as many those that lack the first in some order that only the others have. */
  predicate Weaker(order: seq<AnchorId>, a: seq<AnchorId>, b: seq<AnchorId>) {
    || |a| < |b|
    || (|a| == |b| && exists k :: 0 <= k < |order| && order[k] in b && order[k] !in a && AlikeBefore(order, a, b, k))
  }

  predicate AlikeBefore(order: seq<AnchorId>, a: seq<AnchorId>, b: seq<AnchorId>, k: nat)
    requires k <= |order|
  {
    forall j :: 0 <= j < k ==> (order[j] in a <==> order[j] in b)
  }

  /** What keys of a length and a flag for each anchor compare by. */
  lemma WeakerIs(order: seq<AnchorId>, a: seq<AnchorId>, b: seq<AnchorId>, x: seq<real>, y: seq<real>)
    requires |x| == |y| == |order| + 1 && x[0] == |a| as real && y[0] == |b| as real
    requires forall k :: 0 <= k < |order| ==> x[k + 1] == Flag(a, order[k]) && y[k + 1] == Flag(b, order[k])
    ensures LexLess(x, y) <==> Weaker(order, a, b)
  {
    LexLessIs(x, y);
    hide LexLess;
    if k :| LessAt(x, y, k) {
      if k > 0 {
        forall j | 0 <= j < k - 1 ensures order[j] in a <==> order[j] in b {
          assert x[j + 1] == y[j + 1];
        }
        assert AlikeBefore(order, a, b, k - 1);
      }
    }
    if |a| < |b| {
      assert LessAt(x, y, 0);
    } else if Weaker(order, a, b) {
      var k :| 0 <= k < |order| && order[k] in b && order[k] !in a && AlikeBefore(order, a, b, k);
      forall j | 0 <= j < k + 1 ensures x[j] == y[j] {
        if j > 0 { assert order[j - 1] in a <==> order[j - 1] in b; }
      }
      assert LessAt(x, y, k + 1);
    }
  }

  /** A signature is greater for more anchors, or of as many for the earliest that it alone has. */
  lemma SignatureOrderIs(a: seq<AnchorId>, b: seq<AnchorId>)
    ensures LexLess(SignatureKey(a), SignatureKey(b)) <==> Weaker(BODY_ANCHORS, a, b)
  {
    forall k | 0 <= k < |BODY_ANCHORS|
      ensures SignatureKey(a)[k + 1] == Flag(a, BODY_ANCHORS[k]) && SignatureKey(b)[k + 1] == Flag(b, BODY_ANCHORS[k])
    {
    }
    assert |SignatureKey(a)| == |SignatureKey(b)| == |BODY_ANCHORS| + 1;
    hide LexLess, Weaker;
    WeakerIs(BODY_ANCHORS, a, b, SignatureKey(a), SignatureKey(b));
  }

  /** The first of the greatest eligible signatures. */
  function Best(states: seq<State>): Option<seq<AnchorId>> {
    if states == [] then None
    else
      var before, s := Best(states[..|states| - 1]), states[|states| - 1];
      if !Eligible(s.ids, s.lines) then before
      else if before.Some? && !LexLess(SignatureKey(before.value), SignatureKey(s.ids)) then before
      else Some(s.ids)
  }

  // ---------------------------------------------------------------- every state is a real chain

  function IdsOf(c: seq<Occurrence>): (ids: seq<AnchorId>)
    ensures |ids| == |c| && forall i :: 0 <= i < |c| ==> ids[i] == c[i].anchor
  {
    if c == [] then [] else IdsOf(c[..|c| - 1]) + [c[|c| - 1].anchor]
  }

  function AnchorLines(c: seq<Occurrence>): set<nat> {
    set i | 0 <= i < |c| :: c[i].line
  }

  predicate Occurs(rules: seq<seq<Occurrence>>, o: Occurrence) {
    exists i :: 0 <= i < |rules| && o in rules[i]
  }

  /** Occurrences of the rules in template order, each following the one before. */
  predicate Chain(rules: seq<seq<Occurrence>>, c: seq<Occurrence>) {
    && (forall i :: 0 <= i < |c| ==> Occurs(rules, c[i]))
    && (forall i, j :: 0 <= i < j < |c| ==> Rank(c[i].anchor) < Rank(c[j].anchor))
    && (forall i :: 0 < i < |c| ==> Follows(c[i - 1], c[i]))
  }

  /** Rule number k holds occurrences of body anchor number k, with position keys of length four. */
  predicate RulesFit(rules: seq<seq<Occurrence>>) {
    && |rules| <= |BODY_ANCHORS|
    && forall k, o :: 0 <= k < |rules| && o in rules[k] ==>
         o.anchor == BODY_ANCHORS[k] && |o.startKey| == |o.endKey| == 4
  }

  predicate Realises(rules: seq<seq<Occurrence>>, c: seq<Occurrence>, s: State) {
    && Chain(rules, c) && s.ids == IdsOf(c) && s.lines == AnchorLines(c)
    && s.last == if c == [] then None else Some(c[|c| - 1])
  }

  ghost predicate Realised(rules: seq<seq<Occurrence>>, s: State) {
    exists c :: Realises(rules, c, s)
  }

  ghost predicate AllRealised(rules: seq<seq<Occurrence>>, states: seq<State>) {
    forall s :: s in states ==> Realised(rules, s)
  }

  lemma OfferKeepsRealised(rules: seq<seq<Occurrence>>, states: seq<State>, s: State)
    requires AllRealised(rules, states) && Realised(rules, s) && s.last.Some?
    ensures AllRealised(rules, Offer(states, s))
  {
    forall t | t in Offer(states, s) ensures Realised(rules, t) {
      assert t == s || t in states;
    }
    hide Realised;
  }

  lemma LinesExtend(c: seq<Occurrence>, o: Occurrence)
    ensures AnchorLines(c + [o]) == AnchorLines(c) + {o.line} && IdsOf(c + [o]) == IdsOf(c) + [o.anchor]
  {
    var c' := c + [o];
    assert c'[..|c|] == c;
    forall x | x in AnchorLines(c) + {o.line} ensures x in AnchorLines(c') {
      if x in AnchorLines(c) {
        var i :| 0 <= i < |c| && c[i].line == x;
        assert c'[i].line == x;
      } else {
        assert c'[|c|].line == x;
      }
    }
  }

  lemma ChainExtends(rules: seq<seq<Occurrence>>, c: seq<Occurrence>, o: Occurrence)
    requires RulesFit(rules) && rules != [] && Chain(rules[..|rules| - 1], c) && o in rules[|rules| - 1]
    requires c != [] ==> Follows(c[|c| - 1], o)
    ensures Chain(rules, c + [o])
  {
    var init := rules[..|rules| - 1];
    ChainGrows(init, rules, c);
    forall i | 0 <= i < |c| ensures Rank(c[i].anchor) < Rank(o.anchor) {
      assert Occurs(init, c[i]);
      RanksOfRules(rules, c[i], o);
    }
    assert Occurs(rules, o);
    hide Follows, Occurs, RulesFit, Rank;
  }

  lemma RanksOfRules(rules: seq<seq<Occurrence>>, p: Occurrence, o: Occurrence)
    requires RulesFit(rules) && rules != [] && Occurs(rules[..|rules| - 1], p) && o in rules[|rules| - 1]
    ensures Rank(p.anchor) < Rank(o.anchor)
  {
    var k :| 0 <= k < |rules| - 1 && p in rules[..|rules| - 1][k];
    assert p in rules[k];
  }

  /** A realised state of earlier rules, extended by an occurrence of a later one, is realised. */
  lemma ExtendedIsRealised(rules: seq<seq<Occurrence>>, from: State, o: Occurrence)
    requires RulesFit(rules) && rules != [] && o in rules[|rules| - 1]
    requires Realised(rules[..|rules| - 1], from) && (from.last.Some? ==> Follows(from.last.value, o))
    ensures Realised(rules, Extended(from, o))
  {
    hide Follows, Chain, RulesFit, AnchorLines;
    var c :| Realises(rules[..|rules| - 1], c, from);
    ChainExtends(rules, c, o);
    LinesExtend(c, o);
    assert Realises(rules, c + [o], Extended(from, o));
  }

  lemma ChainGrows(init: seq<seq<Occurrence>>, rules: seq<seq<Occurrence>>, c: seq<Occurrence>)
    requires |init| <= |rules| && init == rules[..|init|] && Chain(init, c)
    ensures Chain(rules, c)
  {
    forall i | 0 <= i < |c| ensures Occurs(rules, c[i]) {
      assert Occurs(init, c[i]);
      var k :| 0 <= k < |init| && c[i] in init[k];
      assert c[i] in rules[k];
    }
    hide Follows, Occurs;
  }

  predicate AllIn(xs: seq<Occurrence>, ys: seq<Occurrence>) {
    forall i :: 0 <= i < |xs| ==> xs[i] in ys
  }

  lemma {:induction false} ExtendAllKeepsRealised(rules: seq<seq<Occurrence>>, states: seq<State>, from: State,
                                                  occs: seq<Occurrence>)
    requires RulesFit(rules) && rules != [] && AllIn(occs, rules[|rules| - 1])
    requires AllRealised(rules, states) && Realised(rules[..|rules| - 1], from)
    ensures AllRealised(rules, ExtendAll(states, from, occs))
  {
    hide AllRealised, Realised, RulesFit, Follows;
    if occs != [] {
      var o := occs[|occs| - 1];
      ExtendAllKeepsRealised(rules, states, from, occs[..|occs| - 1]);
      if from.last.None? || Follows(from.last.value, o) {
        ExtendedIsRealised(rules, from, o);
        OfferKeepsRealised(rules, ExtendAll(states, from, occs[..|occs| - 1]), Extended(from, o));
      }
    }
  }

  lemma {:induction false} ApplyRuleKeepsRealised(rules: seq<seq<Occurrence>>, states: seq<State>, froms: seq<State>)
    requires RulesFit(rules) && rules != []
    requires AllRealised(rules, states) && AllRealised(rules[..|rules| - 1], froms)
    ensures AllRealised(rules, ApplyRule(states, froms, rules[|rules| - 1]))
  {
    if froms != [] {
      var k := |froms| - 1;
      assert froms[k] in froms && forall t :: t in froms[..k] ==> t in froms;
      ApplyRuleKeepsRealised(rules, states, froms[..k]);
      ExtendAllKeepsRealised(rules, ApplyRule(states, froms[..k], rules[|rules| - 1]), froms[k], rules[|rules| - 1]);
    }
    hide Realised;
  }

  /** Whatever the search holds is a real chain of the rules' occurrences. */
  lemma {:induction false} SearchIsSound(rules: seq<seq<Occurrence>>)
    requires RulesFit(rules)
    ensures AllRealised(rules, Search(rules))
  {
    if rules == [] {
      assert Realises(rules, [], EMPTY_STATE);
    } else {
      var init := rules[..|rules| - 1];
      SearchIsSound(init);
      forall s | s in Search(init) ensures Realised(rules, s) {
        var c :| Realises(init, c, s);
        ChainGrows(init, rules, c);
        assert Realises(rules, c, s);
      }
      ApplyRuleKeepsRealised(rules, Search(init), Search(init));
    }
  }

  // ---------------------------------------------------------------- the result

  /** A chain that may be reported: short, or beginning on three lines or more. */
  predicate EligibleChain(rules: seq<seq<Occurrence>>, c: seq<Occurrence>) {
    Chain(rules, c) && Eligible(IdsOf(c), AnchorLines(c))
  }

  lemma {:induction false} BestIsThere(states: seq<State>)
    ensures (exists s :: s in states && Eligible(s.ids, s.lines)) ==> Best(states).Some?
    ensures Best(states).Some? ==> exists s :: s in states && Eligible(s.ids, s.lines) && s.ids == Best(states).value
  {
    if states != [] {
      var k := |states| - 1;
      BestIsThere(states[..k]);
      assert states == states[..k] + [states[k]];
      if Best(states).Some? && Best(states) == Best(states[..k]) {
        var s :| s in states[..k] && Eligible(s.ids, s.lines) && s.ids == Best(states).value;
        assert s in states;
      } else if Best(states).Some? {
        assert states[k] in states;
      }
    }
  }

  lemma {:induction false} BestIsGreatest(states: seq<State>, s: State)
    requires s in states && Eligible(s.ids, s.lines)
    ensures Best(states).Some? && !LexLess(SignatureKey(Best(states).value), SignatureKey(s.ids))
  {
    var k := |states| - 1;
    LexTotal(SignatureKey(s.ids), SignatureKey(s.ids));
    if s != states[k] {
      assert s in states[..k];
      BestIsGreatest(states[..k], s);
      if Best(states) != Best(states[..k]) {
        var b, t := SignatureKey(Best(states[..k]).value), SignatureKey(states[k].ids);
        LexTotal(b, t);
        NotLessTransitive(SignatureKey(s.ids), b, t);
      }
    } else {
      BestIsThere(states);
      if Best(states) != Some(s.ids) {
        LexTotal(SignatureKey(Best(states).value), SignatureKey(s.ids));
      }
    }
  }

  /** The signature reported for a page. */
  function BodySignature(rules: seq<seq<Occurrence>>): seq<AnchorId> {
    var best := Best(Search(rules));
    if best.Some? then best.value else []
  }

  /** Some state under the same key ends no later; the state of nothing found is the empty one itself. */
  predicate Covered(states: seq<State>, s: State) {
    exists t :: t in states && KeyOf(t) == KeyOf(s) && NoLater(t, s)
  }

  predicate NoLater(t: State, s: State) {
    if s.last.None? then t == s else t.last.Some? && !LexLess(s.last.value.endKey, t.last.value.endKey)
  }

  predicate KeysFit(s: State) {
    && (s.last.None? ==> s == EMPTY_STATE)
    && (s.last.Some? ==> s.ids != [] && |s.last.value.endKey| == 4)
  }

  predicate AllKeysFit(states: seq<State>) {
    forall s :: s in states ==> KeysFit(s)
  }

  lemma OfferCovers(states: seq<State>, n: State, s: State)
    requires AllKeysFit(states) && KeysFit(n) && KeysFit(s) && n.last.Some? && Covered(states, s)
    ensures Covered(Offer(states, n), s) && AllKeysFit(Offer(states, n))
  {
    var t :| t in states && KeyOf(t) == KeyOf(s) && NoLater(t, s);
    var i :| 0 <= i < |states| && states[i] == t;
    var r, w := Offer(states, n), Where(states, KeyOf(n));
    if w == i && r != states {
      assert r[w] == n;
      if s.last.Some? {
        LexTotal(n.last.value.endKey, t.last.value.endKey);
        NotLessTransitive(n.last.value.endKey, t.last.value.endKey, s.last.value.endKey);
      }
    } else {
      assert r[i] == t;
    }
    OfferKeepsFit(states, n);
  }

  lemma OfferKeepsFit(states: seq<State>, n: State)
    requires AllKeysFit(states) && KeysFit(n) && n.last.Some?
    ensures AllKeysFit(Offer(states, n)) && Covered(Offer(states, n), n)
  {
    var r, w := Offer(states, n), Where(states, KeyOf(n));
    LexTotal(n.last.value.endKey, n.last.value.endKey);
    assert r[w] in r;
  }

  predicate OccsFit(occs: seq<Occurrence>) {
    forall o :: o in occs ==> |o.startKey| == |o.endKey| == 4
  }

  lemma {:induction false} ExtendAllCovers(states: seq<State>, from: State, occs: seq<Occurrence>, s: State)
    requires AllKeysFit(states) && OccsFit(occs) && KeysFit(s) && Covered(states, s)
    ensures AllKeysFit(ExtendAll(states, from, occs)) && Covered(ExtendAll(states, from, occs), s)
  {
    if occs != [] {
      var k := |occs| - 1;
      assert occs[k] in occs && forall o :: o in occs[..k] ==> o in occs;
      ExtendAllCovers(states, from, occs[..k], s);
      if from.last.None? || Follows(from.last.value, occs[k]) {
        OfferCovers(ExtendAll(states, from, occs[..k]), Extended(from, occs[k]), s);
      }
    }
    hide Covered;
  }

  /** An extension that was offered stays covered. */
  lemma {:induction false} ExtendAllOffers(states: seq<State>, from: State, occs: seq<Occurrence>, o: Occurrence)
    requires AllKeysFit(states) && states != [] && OccsFit(occs) && o in occs
    requires from.last.Some? ==> Follows(from.last.value, o)
    ensures Covered(ExtendAll(states, from, occs), Extended(from, o))
  {
    hide Covered, Offer, Follows;
    var k := |occs| - 1;
    assert occs[k] in occs && forall x :: x in occs[..k] ==> x in occs;
    var s := states[0];
    LastCovered(states, s);
    ExtendAllCovers(states, from, occs[..k], s);
    var before := ExtendAll(states, from, occs[..k]);
    if o == occs[k] {
      OfferKeepsFit(before, Extended(from, o));
    } else {
      assert o in occs[..k];
      ExtendAllOffers(states, from, occs[..k], o);
      if from.last.None? || Follows(from.last.value, occs[k]) {
        OfferCovers(before, Extended(from, occs[k]), Extended(from, o));
      }
    }
  }

  lemma LastCovered(states: seq<State>, s: State)
    requires s in states && KeysFit(s)
    ensures Covered(states, s)
  {
    if s.last.Some? { LexTotal(s.last.value.endKey, s.last.value.endKey); }
  }

  lemma {:induction false} ApplyRuleCovers(states: seq<State>, froms: seq<State>, occs: seq<Occurrence>, s: State)
    requires AllKeysFit(states) && OccsFit(occs) && KeysFit(s) && Covered(states, s)
    ensures AllKeysFit(ApplyRule(states, froms, occs)) && Covered(ApplyRule(states, froms, occs), s)
  {
    if froms != [] {
      ApplyRuleCovers(states, froms[..|froms| - 1], occs, s);
      ExtendAllCovers(ApplyRule(states, froms[..|froms| - 1], occs), froms[|froms| - 1], occs, s);
    }
    hide Covered;
  }

  lemma {:induction false} ApplyRuleOffers(states: seq<State>, froms: seq<State>, occs: seq<Occurrence>, from: State, o: Occurrence)
    requires AllKeysFit(states) && states != [] && OccsFit(occs) && from in froms && o in occs
    requires from.last.Some? ==> Follows(from.last.value, o)
    ensures Covered(ApplyRule(states, froms, occs), Extended(from, o))
  {
    var k := |froms| - 1;
    LastCovered(states, states[0]);
    ApplyRuleCovers(states, froms[..k], occs, states[0]);
    var before := ApplyRule(states, froms[..k], occs);
    if from == froms[k] {
      ExtendAllOffers(before, from, occs, o);
    } else {
      assert from in froms[..k];
      ApplyRuleOffers(states, froms[..k], occs, from, o);
      ExtendAllCovers(before, froms[k], occs, Extended(from, o));
    }
  }

  // ---------------------------------------------------------------- when the search finds every chain

  function StateOf(c: seq<Occurrence>): State {
    State(IdsOf(c), if c == [] then None else Some(c[|c| - 1]), AnchorLines(c))
  }

  /** Position keys begin with the line, and no occurrence ends on a line above the one it begins on. */
  predicate LinesFit(rules: seq<seq<Occurrence>>) {
    forall k, o :: 0 <= k < |rules| && o in rules[k] ==>
      && o.startKey != [] && o.endKey != []
      && o.startKey[0] == o.line as real && o.startKey[0] <= o.endKey[0]
  }

  /** Kept in the place of p, on whose line it begins, q costs the chain that goes on from p to o. */
  predicate Loses(q: Occurrence, p: Occurrence, o: Occurrence) {
    q.line == p.line && !LexLess(p.endKey, q.endKey) && Follows(p, o) && !Compatible(q, o)
  }

  /** No occurrence costs another of its rule and line a continuation. */
  predicate LineExchange(rules: seq<seq<Occurrence>>) {
    forall i, j, p, q, o :: 0 <= i < j < |rules| && p in rules[i] && q in rules[i] && o in rules[j] ==> !Loses(q, p, o)
  }

  /** The chain begins on three lines, if at all, with its last occurrence only: no shorter part of it is reportable. */
  predicate Early(c: seq<Occurrence>) {
    c == [] || |AnchorLines(c[..|c| - 1])| < MINIMUM_BODY_ANCHORS
  }

  lemma {:induction false} SearchFits(rules: seq<seq<Occurrence>>)
    requires RulesFit(rules)
    ensures AllKeysFit(Search(rules)) && EMPTY_STATE in Search(rules)
  {
    if rules != [] {
      var k := |rules| - 1;
      var before := Search(rules[..k]);
      SearchFits(rules[..k]);
      LastCovered(before, EMPTY_STATE);
      assert OccsFit(rules[k]);
      ApplyRuleCovers(before, before, rules[k], EMPTY_STATE);
    }
  }

  /** A chain either stops before the last rule or ends with an occurrence of it. */
  lemma ChainSplits(rules: seq<seq<Occurrence>>, c: seq<Occurrence>)
    requires RulesFit(rules) && rules != [] && Chain(rules, c)
    ensures var init := rules[..|rules| - 1];
            || Chain(init, c)
            || (c != [] && c[|c| - 1] in rules[|rules| - 1] && Chain(init, c[..|c| - 1]))
  {
    var k := |rules| - 1;
    var init := rules[..k];
    forall i | 0 <= i < |c| - 1 ensures Occurs(init, c[i]) {
      assert Occurs(rules, c[i]) && Occurs(rules, c[|c| - 1]);
      var x :| 0 <= x < |rules| && c[i] in rules[x];
      var y :| 0 <= y < |rules| && c[|c| - 1] in rules[y];
      assert Rank(c[i].anchor) < Rank(c[|c| - 1].anchor);
      assert x < y && c[i] in init[x];
    }
    if c != [] {
      assert Occurs(rules, c[|c| - 1]);
      var y :| 0 <= y < |rules| && c[|c| - 1] in rules[y];
      if y < k {
        assert c[|c| - 1] in init[y];
      }
    }
    hide Follows, Rank;
  }

  lemma CoversBoth(states: seq<State>, x: State, y: State)
    requires Covered(states, x) && KeyOf(x) == KeyOf(y) && x.last == y.last && x.last.Some?
    ensures Covered(states, y)
  {
    var t :| t in states && KeyOf(t) == KeyOf(x) && NoLater(t, x);
    assert KeyOf(t) == KeyOf(y) && NoLater(t, y);
  }

  /** Two states under one key extend to one key. */
  lemma KeysExtend(t: State, s: State, o: Occurrence)
    requires KeyOf(t) == KeyOf(s)
    ensures KeyOf(Extended(t, o)) == KeyOf(Extended(s, o))
  {
    LinesGrow(t.lines, o.line);
    LinesGrow(s.lines, o.line);
  }

  lemma LinesGrow(lines: set<nat>, line: nat)
    ensures |lines + {line}| >= |lines|
  {
    if line in lines {
      assert lines + {line} == lines;
    }
  }

  lemma FollowsFromEarlier(t: Occurrence, p: Occurrence, o: Occurrence)
    requires |t.endKey| == |p.endKey| == |o.startKey| == 4
    requires !LexLess(p.endKey, t.endKey) && LexLess(p.endKey, o.startKey) && Compatible(t, o)
    ensures Follows(t, o)
  {
    LexTotal(t.endKey, p.endKey);
    if t.endKey != p.endKey {
      LexTransitive(t.endKey, p.endKey, o.startKey);
    }
  }

  /** Lines rise along a chain. */
  lemma {:induction false} LinesRise(rules: seq<seq<Occurrence>>, c: seq<Occurrence>, i: nat)
    requires LinesFit(rules) && Chain(rules, c) && i < |c|
    ensures c[i].line <= c[|c| - 1].line
    decreases |c| - i
  {
    if i < |c| - 1 {
      assert Follows(c[i + 1 - 1], c[i + 1]);
      assert Occurs(rules, c[i]) && Occurs(rules, c[i + 1]);
      LinesRise(rules, c, i + 1);
    }
  }

  /** Chains over the same lines end on the same line. */
  lemma SameLastLine(rules: seq<seq<Occurrence>>, c: seq<Occurrence>, d: seq<Occurrence>)
    requires LinesFit(rules) && Chain(rules, c) && Chain(rules, d) && c != [] && d != [] && AnchorLines(c) == AnchorLines(d)
    ensures c[|c| - 1].line == d[|d| - 1].line
  {
    hide Chain, LinesFit;
    var x, y := c[|c| - 1], d[|d| - 1];
    assert x.line in AnchorLines(c) && y.line in AnchorLines(d);
    var i :| 0 <= i < |d| && d[i].line == x.line;
    var k :| 0 <= k < |c| && c[k].line == y.line;
    LinesRise(rules, d, i);
    LinesRise(rules, c, k);
  }

  lemma EarlyShortens(c: seq<Occurrence>)
    requires c != [] && Early(c)
    ensures Early(c[..|c| - 1])
  {
    if |c| > 1 {
      var init := c[..|c| - 1];
      LinesExtend(init[..|init| - 1], init[|init| - 1]);
      LinesGrow(AnchorLines(init[..|init| - 1]), init[|init| - 1].line);
      assert init == init[..|init| - 1] + [init[|init| - 1]];
    }
  }

  /** Every early chain has a state under its key that ends no later. */
  lemma {:induction false} SearchCovers(rules: seq<seq<Occurrence>>, c: seq<Occurrence>)
    requires RulesFit(rules) && LinesFit(rules) && LineExchange(rules) && Chain(rules, c) && Early(c)
    ensures Covered(Search(rules), StateOf(c))
    decreases |rules|, 2
  {
    SearchFits(rules);
    if c == [] {
      LastCovered(Search(rules), EMPTY_STATE);
      assert StateOf(c) == EMPTY_STATE;
    } else {
      var k := |rules| - 1;
      assert Occurs(rules, c[0]);
      hide Covered, Early, LineExchange, LinesFit;
      var init, before := rules[..k], Search(rules[..k]);
      RulesShorten(rules);
      SearchFits(init);
      ChainSplits(rules, c);
      hide RulesFit, Chain, OccsFit;
      if Chain(init, c) {
        SearchCovers(init, c);
        ChainKeysFit(rules, c);
        ApplyRuleCovers(before, before, rules[k], StateOf(c));
      } else {
        LastRuleCovered(rules, c);
      }
    }
  }

  lemma ChainKeysFit(rules: seq<seq<Occurrence>>, c: seq<Occurrence>)
    requires RulesFit(rules) && Chain(rules, c)
    ensures KeysFit(StateOf(c)) && forall i :: 0 <= i < |c| ==> |c[i].startKey| == |c[i].endKey| == 4
  {
    forall i | 0 <= i < |c| ensures |c[i].startKey| == |c[i].endKey| == 4 {
      assert Occurs(rules, c[i]);
    }
    hide Follows;
  }

  /** Two occurrences of one anchor belong to one rule. */
  lemma SameRule(rules: seq<seq<Occurrence>>, p: Occurrence, q: Occurrence) returns (i: nat)
    requires RulesFit(rules) && Occurs(rules, p) && Occurs(rules, q) && p.anchor == q.anchor
    ensures i < |rules| && p in rules[i] && q in rules[i]
  {
    i :| 0 <= i < |rules| && p in rules[i];
    var k :| 0 <= k < |rules| && q in rules[k];
    assert BODY_ANCHORS[i] == BODY_ANCHORS[k];
  }

  /** What a state under a chain's key ends with belongs to the rule the chain ends with. */
  lemma LastsOfOneRule(rules: seq<seq<Occurrence>>, c: seq<Occurrence>, d: seq<Occurrence>, t: State) returns (i: nat)
    requires RulesFit(rules) && Chain(rules, c) && Realises(rules, d, t) && c != [] && t.ids == IdsOf(c)
    ensures d != [] && t.last == Some(d[|d| - 1])
    ensures i < |rules| && c[|c| - 1] in rules[i] && d[|d| - 1] in rules[i]
  {
    assert |d| == |c| && d[|d| - 1].anchor == c[|c| - 1].anchor;
    assert Occurs(rules, c[|c| - 1]) && Occurs(rules, d[|d| - 1]);
    i := SameRule(rules, c[|c| - 1], d[|d| - 1]);
  }

  /** What follows a chain on less than three lines follows every real state under its key that ends no later. */
  lemma StateIsFollowed(rules: seq<seq<Occurrence>>, c: seq<Occurrence>, t: State)
    requires RulesFit(rules) && LinesFit(rules) && LineExchange(rules) && Chain(rules, c) && |c| >= 2 && rules != []
    requires Early(c) && c[|c| - 1] in rules[|rules| - 1] && Chain(rules[..|rules| - 1], c[..|c| - 1])
    requires Realised(rules[..|rules| - 1], t) && t.last.Some?
    requires KeyOf(t) == KeyOf(StateOf(c[..|c| - 1])) && NoLater(t, StateOf(c[..|c| - 1]))
    ensures Follows(t.last.value, c[|c| - 1])
  {
    var o, init, c' := c[|c| - 1], rules[..|rules| - 1], c[..|c| - 1];
    var d :| Realises(init, d, t);
    assert t.ids == IdsOf(c') && AnchorLines(d) == AnchorLines(c');
    ChainFollows(rules, c);
    RulesShorten(rules);
    hide RulesFit, LineExchange, LinesFit, Chain, Follows, AnchorLines, Early;
    var i := LastsOfOneRule(init, c', d, t);
    SameLastLine(init, c', d);
    ChainKeysFit(rules, c);
    ChainKeysFit(init, d);
    NotLost(rules, i, c[|c| - 2], t.last.value, o);
  }

  lemma NotLost(rules: seq<seq<Occurrence>>, i: nat, p: Occurrence, q: Occurrence, o: Occurrence)
    requires LineExchange(rules) && i < |rules| - 1 && p in rules[..|rules| - 1][i] && q in rules[..|rules| - 1][i]
    requires o in rules[|rules| - 1] && p.line == q.line && !LexLess(p.endKey, q.endKey) && Follows(p, o)
    requires |q.endKey| == |p.endKey| == |o.startKey| == 4
    ensures Follows(q, o)
  {
    assert p in rules[i] && q in rules[i] && !Loses(q, p, o);
    FollowsFromEarlier(q, p, o);
  }

  lemma ChainFollows(rules: seq<seq<Occurrence>>, c: seq<Occurrence>)
    requires Chain(rules, c)
    ensures |c| >= 2 ==> Follows(c[|c| - 2], c[|c| - 1])
  {
    hide Follows;
  }

  lemma RulesShorten(rules: seq<seq<Occurrence>>)
    requires RulesFit(rules) && rules != []
    ensures RulesFit(rules[..|rules| - 1]) && OccsFit(rules[|rules| - 1])
    ensures LinesFit(rules) ==> LinesFit(rules[..|rules| - 1])
    ensures LineExchange(rules) ==> LineExchange(rules[..|rules| - 1])
  {
    hide Loses;
  }

  /** A state under the key of the chain without its last occurrence, which that occurrence follows. */
  lemma {:induction false} CoveringState(rules: seq<seq<Occurrence>>, c: seq<Occurrence>) returns (t: State)
    requires RulesFit(rules) && LinesFit(rules) && LineExchange(rules) && Chain(rules, c) && Early(c)
    requires c != [] && rules != []
    requires c[|c| - 1] in rules[|rules| - 1] && Chain(rules[..|rules| - 1], c[..|c| - 1])
    ensures t in Search(rules[..|rules| - 1]) && KeyOf(t) == KeyOf(StateOf(c[..|c| - 1]))
    ensures t.last.Some? ==> Follows(t.last.value, c[|c| - 1])
    decreases |rules|, 0
  {
    var init, c' := rules[..|rules| - 1], c[..|c| - 1];
    RulesShorten(rules);
    EarlyShortens(c);
    hide RulesFit, LinesFit, LineExchange, Chain, Realised, AllKeysFit, Follows, AnchorLines, OccsFit, Early;
    SearchCovers(init, c');
    SearchIsSound(init);
    t :| t in Search(init) && KeyOf(t) == KeyOf(StateOf(c')) && NoLater(t, StateOf(c'));
    assert Realised(init, t);
    if t.last.Some? { StateIsFollowed(rules, c, t); }
  }

  lemma {:induction false} LastRuleCovered(rules: seq<seq<Occurrence>>, c: seq<Occurrence>)
    requires RulesFit(rules) && LinesFit(rules) && LineExchange(rules) && Chain(rules, c) && Early(c)
    requires c != [] && rules != []
    requires c[|c| - 1] in rules[|rules| - 1] && Chain(rules[..|rules| - 1], c[..|c| - 1])
    ensures Covered(Search(rules), StateOf(c))
    decreases |rules|, 1
  {
    hide RulesFit, LinesFit, LineExchange, Chain, AllKeysFit, Follows, AnchorLines, OccsFit, Covered, NoLater, Early;
    var k, o, c' := |rules| - 1, c[|c| - 1], c[..|c| - 1];
    var before := Search(rules[..k]);
    RulesShorten(rules);
    var t := CoveringState(rules, c);
    SearchFits(rules[..k]);
    ApplyRuleOffers(before, before, rules[k], t, o);
    KeysExtend(t, StateOf(c'), o);
    LinesExtend(c', o);
    assert c == c' + [o];
    hide KeyOf, IdsOf, ApplyRule;
    CoversBoth(Search(rules), Extended(t, o), StateOf(c));
  }

  /** The signature is that of a real eligible chain. */
  lemma SignatureIsReal(rules: seq<seq<Occurrence>>) returns (c: seq<Occurrence>)
    requires RulesFit(rules)
    ensures EligibleChain(rules, c) && IdsOf(c) == BodySignature(rules)
  {
    SearchFits(rules);
    SearchIsSound(rules);
    BestIsThere(Search(rules));
    assert Eligible(EMPTY_STATE.ids, EMPTY_STATE.lines);
    var s :| s in Search(rules) && Eligible(s.ids, s.lines) && s.ids == Best(Search(rules)).value;
    assert Realised(rules, s);
    c :| Realises(rules, c, s);
  }

  /** No chain's signature is greater than the reported one. */
  predicate NotBeaten(rules: seq<seq<Occurrence>>, c: seq<Occurrence>) {
    !LexLess(SignatureKey(BodySignature(rules)), SignatureKey(IdsOf(c)))
  }

  lemma EarlyIsNotBeaten(rules: seq<seq<Occurrence>>, c: seq<Occurrence>)
    requires RulesFit(rules) && LinesFit(rules) && LineExchange(rules) && EligibleChain(rules, c) && Early(c)
    ensures NotBeaten(rules, c)
  {
    SearchCovers(rules, c);
    var t :| t in Search(rules) && KeyOf(t) == KeyOf(StateOf(c)) && NoLater(t, StateOf(c));
    BestIsGreatest(Search(rules), t);
  }
}
