/** The compact text of a path of runs, every character traced to its source character and span. */
module MappedText {
  import opened Basics
  import opened Collections
  import opened Sorting
  import opened ReadingOrder
  import opened ReadingLoops

  /** Character normalisation and the whitespace class; the Unicode tables are not modelled. */
  const CanonicalAnchorCharacter: char -> char
  const IsUnicodeWhitespace: char -> bool

  datatype MappedCharacter = MappedCharacter(
    anchorCharacter: char, sourceCharacter: char, span: Span, lineIndex: nat, sourceOffset: nat)

  type Mapped = seq<MappedCharacter>

  /** The characters of a span's text up to an offset, without whitespace. */
  function SpanCharacters(g: Geometry, lineIndex: nat, upTo: nat): Mapped
    requires upTo <= |g.span.text|
  {
    if upTo == 0 then []
    else
      var c := g.span.text[upTo - 1];
      SpanCharacters(g, lineIndex, upTo - 1)
      + (if IsUnicodeWhitespace(c) then [] else [MappedCharacter(CanonicalAnchorCharacter(c), c, g.span, lineIndex, upTo - 1)])
  }

  function RunCharacters(lineIndex: nat, spans: seq<Geometry>): Mapped {
    if spans == [] then []
    else
      var g := spans[|spans| - 1];
      RunCharacters(lineIndex, spans[..|spans| - 1]) + SpanCharacters(g, lineIndex, |g.span.text|)
  }

  function PathCharacters(path: seq<Run>): Mapped {
    if path == [] then []
    else
      var run := path[|path| - 1];
      PathCharacters(path[..|path| - 1]) + RunCharacters(run.lineIndex, run.spans)
  }

  /** Append the characters of one run's spans. */
  method AppendRun(before: Mapped, run: Run) returns (mapped: Mapped)
    ensures mapped == before + RunCharacters(run.lineIndex, run.spans)
  {
    mapped := before;
    for k := 0 to |run.spans|
      invariant mapped == before + RunCharacters(run.lineIndex, run.spans[..k])
    {
      assert run.spans[..k + 1][..k] == run.spans[..k];
      var g := run.spans[k];
      ghost var beforeSpan := mapped;
      for offset := 0 to |g.span.text|
        invariant mapped == beforeSpan + SpanCharacters(g, run.lineIndex, offset)
      {
        var c := g.span.text[offset];
        if !IsUnicodeWhitespace(c) {
          mapped := mapped + [MappedCharacter(CanonicalAnchorCharacter(c), c, g.span, run.lineIndex, offset)];
        }
      }
    }
    assert run.spans[..|run.spans|] == run.spans;
  }

  method FromRuns(path: seq<Run>) returns (mapped: Mapped)
    ensures mapped == PathCharacters(path)
  {
    hide RunCharacters;
    mapped := [];
    for i := 0 to |path|
      invariant mapped == PathCharacters(path[..i])
    {
      assert path[..i + 1][..i] == path[..i];
      mapped := AppendRun(mapped, path[i]);
    }
    assert path[..|path|] == path;
  }

  /** The character stands at its offset in the text of a span of one of the runs. */
  predicate TracedTo(c: MappedCharacter, path: seq<Run>) {
    && c.sourceOffset < |c.span.text| && c.sourceCharacter == c.span.text[c.sourceOffset]
    && c.anchorCharacter == CanonicalAnchorCharacter(c.sourceCharacter) && !IsUnicodeWhitespace(c.sourceCharacter)
    && exists i, k :: 0 <= i < |path| && 0 <= k < |path[i].spans|
         && path[i].lineIndex == c.lineIndex && path[i].spans[k].span == c.span
  }

  predicate InSpan(c: MappedCharacter, g: Geometry, lineIndex: nat) {
    && c.span == g.span && c.lineIndex == lineIndex && c.sourceOffset < |g.span.text|
    && c.sourceCharacter == g.span.text[c.sourceOffset]
    && c.anchorCharacter == CanonicalAnchorCharacter(c.sourceCharacter) && !IsUnicodeWhitespace(c.sourceCharacter)
  }

  lemma {:induction false} SpanTrace(g: Geometry, lineIndex: nat, upTo: nat, c: MappedCharacter)
    requires upTo <= |g.span.text| && c in SpanCharacters(g, lineIndex, upTo)
    ensures InSpan(c, g, lineIndex)
  {
    if c in SpanCharacters(g, lineIndex, upTo - 1) {
      SpanTrace(g, lineIndex, upTo - 1, c);
    }
  }

  lemma {:induction false} RunTrace(lineIndex: nat, spans: seq<Geometry>, c: MappedCharacter) returns (k: nat)
    requires c in RunCharacters(lineIndex, spans)
    ensures k < |spans| && InSpan(c, spans[k], lineIndex)
  {
    if c in RunCharacters(lineIndex, spans[..|spans| - 1]) {
      k := RunTrace(lineIndex, spans[..|spans| - 1], c);
    } else {
      k := |spans| - 1;
      SpanTrace(spans[k], lineIndex, |spans[k].span.text|, c);
    }
  }

  /** Every mapped character is exactly a non-blank source character of the path. */
  lemma {:induction false} EveryCharacterIsTraced(path: seq<Run>, c: MappedCharacter)
    requires c in PathCharacters(path)
    ensures TracedTo(c, path)
  {
    var n := |path| - 1;
    if c in PathCharacters(path[..n]) {
      EveryCharacterIsTraced(path[..n], c);
      var i, k :| 0 <= i < n && 0 <= k < |path[..n][i].spans|
                  && path[..n][i].lineIndex == c.lineIndex && path[..n][i].spans[k].span == c.span;
      assert path[i].spans[k].span == c.span;
    } else {
      var k := RunTrace(path[n].lineIndex, path[n].spans, c);
      assert path[n].spans[k].span == c.span;
    }
  }

  /** Along a path that goes down the page the line of a character never goes back. */
  lemma {:induction false} CharactersDescend(path: seq<Run>, a: nat, b: nat)
    requires forall i, j :: 0 <= i < j < |path| ==> path[i].lineIndex <= path[j].lineIndex
    requires a <= b < |PathCharacters(path)|
    ensures PathCharacters(path)[a].lineIndex <= PathCharacters(path)[b].lineIndex
  {
    var n := |path| - 1;
    var before, last := PathCharacters(path[..n]), RunCharacters(path[n].lineIndex, path[n].spans);
    assert PathCharacters(path) == before + last;
    hide PathCharacters, RunCharacters;
    if b < |before| {
      CharactersDescend(path[..n], a, b);
    } else {
      assert (before + last)[b] == last[b - |before|];
      var k := RunTrace(path[n].lineIndex, path[n].spans, last[b - |before|]);
      if a < |before| {
        EveryCharacterIsTraced(path[..n], before[a]);
        var i :| 0 <= i < n && path[..n][i].lineIndex == before[a].lineIndex;
        assert path[i].lineIndex <= path[n].lineIndex;
      } else {
        assert (before + last)[a] == last[a - |before|];
        var m := RunTrace(path[n].lineIndex, path[n].spans, last[a - |before|]);
      }
    }
  }

  // ---------------------------------------------------------------- occurrences of an anchor text

  function TextOf(mapped: Mapped): (text: string)
    ensures |text| == |mapped| && forall i :: 0 <= i < |mapped| ==> text[i] == mapped[i].anchorCharacter
  {
    if mapped == [] then [] else TextOf(mapped[..|mapped| - 1]) + [mapped[|mapped| - 1].anchorCharacter]
  }

  predicate OccursAt(text: string, anchor: string, at: int) {
    0 <= at && at + |anchor| <= |text| && text[at..at + |anchor|] == anchor
  }

  /** The first occurrence at or after an offset, or -1. */
  method Find(text: string, anchor: string, offset: nat) returns (position: int)
    ensures position == -1 || (position >= offset && OccursAt(text, anchor, position))
    ensures forall q :: offset <= q && (position == -1 || q < position) ==> !OccursAt(text, anchor, q)
  {
    position := offset;
    while position + |anchor| <= |text|
      invariant position >= offset
      invariant forall q :: offset <= q < position ==> !OccursAt(text, anchor, q)
    {
      if text[position..position + |anchor|] == anchor {
        return;
      }
      position := position + 1;
    }
    position := -1;
  }

  /** The positions below a bound at which a text begins, rising. */
  function StartsBelow(text: string, anchor: string, bound: nat): (starts: seq<nat>)
    ensures forall i :: 0 <= i < |starts| ==> starts[i] < bound && OccursAt(text, anchor, starts[i])
    ensures forall p: nat :: p < bound && OccursAt(text, anchor, p) ==> p in starts
    ensures forall i, j :: 0 <= i < j < |starts| ==> starts[i] < starts[j]
  {
    if bound == 0 then []
    else StartsBelow(text, anchor, bound - 1) + (if OccursAt(text, anchor, bound - 1) then [bound - 1] else [])
  }

  /** All occurrences of a non-empty text, overlapping ones included. */
  function Starts(text: string, anchor: string): (starts: seq<nat>)
    ensures forall i :: 0 <= i < |starts| ==> OccursAt(text, anchor, starts[i])
    ensures anchor != "" ==> forall p: nat :: OccursAt(text, anchor, p) ==> p in starts
    ensures forall i, j :: 0 <= i < j < |starts| ==> starts[i] < starts[j]
  {
    if anchor == "" then [] else StartsBelow(text, anchor, |text|)
  }

  lemma {:induction false} NothingBetween(text: string, anchor: string, a: nat, b: nat)
    requires a <= b && forall q :: a <= q < b ==> !OccursAt(text, anchor, q)
    ensures StartsBelow(text, anchor, b) == StartsBelow(text, anchor, a)
    decreases b
  {
    if a < b {
      NothingBetween(text, anchor, a, b - 1);
    }
  }

  lemma NextStart(text: string, anchor: string, a: nat, at: nat)
    requires a <= at && OccursAt(text, anchor, at) && forall q :: a <= q < at ==> !OccursAt(text, anchor, q)
    ensures StartsBelow(text, anchor, at + 1) == StartsBelow(text, anchor, a) + [at]
  {
    NothingBetween(text, anchor, a, at);
    hide OccursAt;
  }

  lemma OccursWithin(text: string, anchor: string, at: nat)
    requires OccursAt(text, anchor, at)
    ensures at + |anchor| <= |text|
  {
  }

  method Occurrences(text: string, anchor: string) returns (starts: seq<nat>)
    ensures starts == Starts(text, anchor)
  {
    hide OccursAt, StartsBelow;
    starts := [];
    assert StartsBelow(text, anchor, 0) == [] by { NoStartBelow(text, anchor); }
    if anchor == "" {
      return;
    }
    var offset := 0;
    while true
      invariant offset <= |text| && starts == StartsBelow(text, anchor, offset)
      decreases |text| - offset
    {
      var position := Find(text, anchor, offset);
      if position < 0 {
        NothingBetween(text, anchor, offset, |text|);
        return;
      }
      NextStart(text, anchor, offset, position);
      OccursWithin(text, anchor, position);
      starts := starts + [position];
      offset := position + 1;
    }
  }

  lemma NoStartBelow(text: string, anchor: string)
    ensures StartsBelow(text, anchor, 0) == []
  {
  }

  // ---------------------------------------------------------------- the spans behind a stretch of text

  function IdKey(s: Span): seq<real> {
    [s.id as real]
  }

  function IdOf(s: Span): nat {
    s.id
  }

  function IdsOfSpans(spans: seq<Span>): (ids: seq<nat>)
    ensures |ids| == |spans| && forall i :: 0 <= i < |ids| ==> ids[i] == spans[i].id
  {
    seq(|spans|, i requires 0 <= i < |spans| => spans[i].id)
  }

  /** One span for each ID, by rising ID. */
  function SortedSpans(spans: seq<Span>): seq<Span> {
    Sort(Latest(spans, IdOf), IdKey)
  }

  function SpansOf(mapped: Mapped): (spans: seq<Span>)
    ensures |spans| == |mapped| && forall i :: 0 <= i < |spans| ==> spans[i] == mapped[i].span
  {
    seq(|mapped|, i requires 0 <= i < |mapped| => mapped[i].span)
  }

  /** The different spans of some characters, by rising ID. */
  function SourceSpans(mapped: Mapped): seq<Span> {
    SortedSpans(SpansOf(mapped))
  }

  predicate RisingIds(spans: seq<Span>) {
    forall i, j :: 0 <= i < j < |spans| ==> spans[i].id < spans[j].id
  }

  /** Sorted spans are exactly spans of the given ones, one for each ID, by rising ID. */
  lemma SortedSpansAre(spans: seq<Span>)
    ensures RisingIds(SortedSpans(spans))
    ensures forall t :: t in SortedSpans(spans) ==> t in spans
    ensures forall t :: t in spans ==> HasKey(SortedSpans(spans), IdOf, t.id)
  {
    var ds := Latest(spans, IdOf);
    LatestAre(spans, IdOf);
    forall i, j | 0 <= i < j < |ds| ensures ds[i].id != ds[j].id {
      assert IdOf(ds[i]) != IdOf(ds[j]);
    }
    SortedById(ds);
    forall t | t in spans ensures HasKey(SortedSpans(spans), IdOf, t.id) {
      assert HasKey(ds, IdOf, IdOf(t));
      var i :| 0 <= i < |ds| && IdOf(ds[i]) == IdOf(t);
      assert ds[i] in SortedSpans(spans);
    }
  }

  /** Sorting spans with distinct IDs puts them in strictly rising order and keeps them all. */
  lemma SortedById(ds: seq<Span>)
    requires DistinctIds(ds)
    ensures RisingIds(Sort(ds, IdKey)) && (forall t :: t in Sort(ds, IdKey) <==> t in ds) && |Sort(ds, IdKey)| == |ds|
  {
    SortSorts(ds, IdKey, 1);
    SortMultiset(ds, IdKey);
    var sorted := Sort(ds, IdKey);
    forall t | true ensures t in sorted <==> t in ds {
      assert t in multiset(sorted) <==> t in multiset(ds);
    }
    assert |sorted| == |multiset(sorted)| == |multiset(ds)| == |ds|;
    forall i, j | 0 <= i < j < |sorted| ensures sorted[i].id < sorted[j].id {
      assert !LexLess(IdKey(sorted[j]), IdKey(sorted[i]));
      SortKeepsDistinct(ds, i, j);
    }
  }

  lemma SortKeepsDistinct(ds: seq<Span>, i: nat, j: nat)
    requires DistinctIds(ds) && i < j < |Sort(ds, IdKey)|
    ensures Sort(ds, IdKey)[i].id != Sort(ds, IdKey)[j].id
  {
    var sorted := Sort(ds, IdKey);
    SortMultiset(ds, IdKey);
    assert sorted[i] in multiset(ds) && sorted[j] in multiset(ds);
    SameIdSameSpan(ds, sorted[i], sorted[j]);
    AtMostOnce(ds, sorted[i]);
    TwiceCounts(sorted, i, j);
  }

  lemma SameIdSameSpan(ds: seq<Span>, x: Span, y: Span)
    requires DistinctIds(ds) && x in ds && y in ds
    ensures x.id == y.id ==> x == y
  {
  }

  lemma TwiceCounts<T>(s: seq<T>, i: nat, j: nat)
    requires i < j < |s|
    ensures s[i] == s[j] ==> multiset(s)[s[i]] >= 2
  {
    assert s == s[..i] + [s[i]] + s[i + 1..j] + [s[j]] + s[j + 1..];
  }

  lemma {:induction false} AtMostOnce(ds: seq<Span>, x: Span)
    requires DistinctIds(ds)
    ensures multiset(ds)[x] <= 1
  {
    if ds != [] {
      var init, last := ds[..|ds| - 1], ds[|ds| - 1];
      assert ds == init + [last];
      AtMostOnce(init, x);
      assert forall k :: 0 <= k < |init| ==> init[k].id != last.id;
      assert last !in init;
    }
  }
}
