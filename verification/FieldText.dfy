/** The stretches of text that fields are read from, in terms of where texts occur, and what their values keep. */
module FieldText {
  import opened Basics
  import opened Collections
  import opened ReadingOrder
  import opened MappedText
  import opened TemplateMatch
  import opened FieldCandidates

  /** A digit or a letter of the basic Latin block, by its code point. */
  predicate LatinOrDigit(c: char) {
    var code := c as int;
    48 <= code <= 57 || 65 <= code <= 90 || 97 <= code <= 122
  }

  /** The text without white space, but with one space where white space stands between Latin letters or digits. */
  function Squeezed(text: string): string {
    if text == "" then ""
    else
      var k := |text| - 1;
      var before, c := Squeezed(text[..k]), text[k];
      if IsUnicodeWhitespace(c) then before
      else if before != "" && LatinOrDigit(before[|before| - 1]) && LatinOrDigit(c)
              && IsUnicodeWhitespace(text[k - 1]) then before + " " + [c]
      else before + [c]
  }

  lemma {:induction false} LastIsKept(mapped: Mapped)
    requires mapped != []
    ensures var value := SourceValue(mapped); value != "" && value[|value| - 1] == mapped[|mapped| - 1].sourceCharacter
  {
  }

  lemma AlphanumericIs(c: char)
    ensures AsciiAlphanumeric(c) <==> LatinOrDigit(c)
  {
  }

  lemma OneMoreCharacter(before: Mapped, m: MappedCharacter)
    ensures SourceValue(before + [m])
            == SourceValue(before)
               + (if before != [] && SpaceBefore(m) && LatinOrDigit(before[|before| - 1].sourceCharacter)
                     && LatinOrDigit(m.sourceCharacter) then " " else "") + [m.sourceCharacter]
  {
    AlphanumericIs(m.sourceCharacter);
    if before != [] { AlphanumericIs(before[|before| - 1].sourceCharacter); }
    hide SpaceBefore, AsciiAlphanumeric, LatinOrDigit;
    var all := before + [m];
    assert all[..|before|] == before && all[|before|] == m;
    assert before != [] ==> all[|before| - 1] == before[|before| - 1];
  }

  lemma {:induction false} SqueezedUpTo(g: Geometry, line: nat, upTo: nat)
    requires upTo <= |g.span.text|
    ensures SourceValue(SpanCharacters(g, line, upTo)) == Squeezed(g.span.text[..upTo])
  {
    hide SourceValue, LatinOrDigit;
    var text := g.span.text[..upTo];
    if upTo == 0 {
      assert SourceValue([]) == "" by { EmptyValue(); }
    } else {
      SqueezedUpTo(g, line, upTo - 1);
      assert text[..upTo - 1] == g.span.text[..upTo - 1];
      var before, c := SpanCharacters(g, line, upTo - 1), text[upTo - 1];
      var value := SourceValue(before);
      if IsUnicodeWhitespace(c) {
        assert before + [] == before;
      } else {
        var m := MappedCharacter(CanonicalAnchorCharacter(c), c, g.span, line, upTo - 1);
        OneMoreCharacter(before, m);
        if before == [] { EmptyValue(); } else { LastIsKept(before); }
        assert value + "" == value;
      }
    }
  }

  lemma EmptyValue()
    ensures SourceValue([]) == ""
  {
  }

  /** The value read from a whole span is its text squeezed. */
  lemma SpanReadsAsSqueezed(g: Geometry, line: nat)
    ensures SourceValue(SpanCharacters(g, line, |g.span.text|)) == Squeezed(g.span.text)
  {
    SqueezedUpTo(g, line, |g.span.text|);
    assert g.span.text[..|g.span.text|] == g.span.text;
  }

  /** The first occurrence of a text at or behind a position. */
  predicate FirstAt(text: string, anchor: string, from: nat, at: nat) {
    from <= at && OccursAt(text, anchor, at) && forall q :: from <= q < at ==> !OccursAt(text, anchor, q)
  }

  /** A search finds nothing before what it finds, and nothing at all if it finds nothing. */
  lemma {:induction false} NothingBefore(text: string, anchor: string, from: nat)
    ensures var at := FirstFrom(text, anchor, from);
            forall q :: from <= q && (at.Some? ==> q < at.value) ==> !OccursAt(text, anchor, q)
    decreases |text| - from
  {
    if from + |anchor| <= |text| && !OccursAt(text, anchor, from) && from < |text| {
      NothingBefore(text, anchor, from + 1);
    }
  }

  lemma FirstIs(text: string, anchor: string, from: nat, at: nat)
    ensures FirstFrom(text, anchor, from) == Some(at) <==> FirstAt(text, anchor, from, at)
  {
    NothingBefore(text, anchor, from);
    hide FirstFrom, OccursAt;
  }

  // ---------------------------------------------------------------- where a college ends

  /** Nothing but punctuation from one position to another. */
  predicate Punctuation(text: string, a: int, b: int) {
    0 <= a <= b <= |text| && forall i :: a <= i < b ==> text[i] in STRUCTURAL_CHARACTERS
  }

  /** The name of an academic unit ends there; its last part does not begin the stretch. */
  predicate UnitEndsAt(text: string, start: nat, stop: nat, e: nat) {
    exists k, p :: 0 <= k < |ACADEMIC_UNIT_SUFFIXES| && start < p <= e && e <= stop && UnitAt(text, k, p, e)
  }

  predicate UnitAt(text: string, k: int, p: int, e: nat) {
    0 <= k < |ACADEMIC_UNIT_SUFFIXES| && OccursAt(text, ACADEMIC_UNIT_SUFFIXES[k], p) && p + |ACADEMIC_UNIT_SUFFIXES[k]| == e
  }

  /** The stretch stops at the first mention of a study, or else at its end. */
  predicate StopsAt(text: string, start: nat, end: nat, stop: nat) {
    && start <= stop <= end <= |text|
    && (stop == end || (OccursAt(text, MAJOR_STUDY_TEXT, stop) && stop + |MAJOR_STUDY_TEXT| <= end))
    && forall q :: start <= q < stop && q + |MAJOR_STUDY_TEXT| <= end ==> !OccursAt(text, MAJOR_STUDY_TEXT, q)
  }

  lemma SliceOccurs(text: string, anchor: string, start: nat, end: nat, q: nat)
    requires start <= end <= |text|
    ensures OccursAt(text[start..end], anchor, q) <==> start + q + |anchor| <= end && OccursAt(text, anchor, start + q)
  {
    if start + q + |anchor| <= end {
      var a, b := text[start..end][q..q + |anchor|], text[start + q..start + q + |anchor|];
      assert forall i :: 0 <= i < |anchor| ==> a[i] == b[i];
      assert a == b;
    }
  }

  /** There is one place to stop. */
  lemma StopExists(text: string, start: nat, end: nat) returns (stop: nat)
    requires start <= end <= |text|
    ensures StopsAt(text, start, end, stop)
    ensures var major := FirstFrom(text[start..end], MAJOR_STUDY_TEXT, 0);
            stop == if major.Some? then start + major.value else end
  {
    hide FirstFrom, OccursAt, MAJOR_STUDY_TEXT;
    var value := text[start..end];
    var major := FirstFrom(value, MAJOR_STUDY_TEXT, 0);
    FirstIsWithin(value, MAJOR_STUDY_TEXT, 0);
    NothingBefore(value, MAJOR_STUDY_TEXT, 0);
    stop := if major.Some? then start + major.value else end;
    if major.Some? { SliceOccurs(text, MAJOR_STUDY_TEXT, start, end, major.value); }
    forall q | start <= q < stop && q + |MAJOR_STUDY_TEXT| <= end ensures !OccursAt(text, MAJOR_STUDY_TEXT, q) {
      SliceOccurs(text, MAJOR_STUDY_TEXT, start, end, q - start);
    }
  }

  lemma StopIsOne(text: string, start: nat, end: nat, stop: nat, other: nat)
    requires StopsAt(text, start, end, stop) && StopsAt(text, start, end, other)
    ensures stop == other
  {
    hide OccursAt, MAJOR_STUDY_TEXT;
  }

  /** The ends collected from a stretch are exactly those of units in it. */
  lemma EndsAreUnits(text: string, start: nat, stop: nat, e: nat)
    requires start <= stop <= |text|
    ensures e in Collect(ACADEMIC_UNIT_SUFFIXES, SuffixEnds(text[start..stop])) <==> UnitEndsAt(text, start, stop, start + e)
  {
    hide Collect, Starts, OccursAt, ACADEMIC_UNIT_SUFFIXES;
    var bounded := text[start..stop];
    if e in Collect(ACADEMIC_UNIT_SUFFIXES, SuffixEnds(bounded)) {
      var suffix := Contributor(ACADEMIC_UNIT_SUFFIXES, SuffixEnds(bounded), e);
      var k :| 0 <= k < |ACADEMIC_UNIT_SUFFIXES| && ACADEMIC_UNIT_SUFFIXES[k] == suffix;
      var p := Contributor(Starts(bounded, suffix), SuffixEnd(suffix), e);
      var i :| 0 <= i < |Starts(bounded, suffix)| && Starts(bounded, suffix)[i] == p;
      assert OccursAt(bounded, suffix, p);
      SliceOccurs(text, suffix, start, stop, p);
      assert UnitAt(text, k, start + p, start + e);
    }
    if UnitEndsAt(text, start, stop, start + e) {
      var k, p :| 0 <= k < |ACADEMIC_UNIT_SUFFIXES| && start < p <= start + e && start + e <= stop && UnitAt(text, k, p, start + e);
      var suffix := ACADEMIC_UNIT_SUFFIXES[k];
      var q: nat := p - start;
      SliceOccurs(text, suffix, start, stop, q);
      assert suffix != "" by { UnitsAreNamed(k); }
      assert q in Starts(bounded, suffix) && SuffixEnd(suffix)(q) == [e];
      CollectMember<nat, nat>(Starts(bounded, suffix), SuffixEnd(suffix), q, e);
      assert e in SuffixEnds(bounded)(suffix);
      CollectMember(ACADEMIC_UNIT_SUFFIXES, SuffixEnds(bounded), suffix, e);
    }
  }

  lemma UnitsAreNamed(k: int)
    requires 0 <= k < |ACADEMIC_UNIT_SUFFIXES|
    ensures ACADEMIC_UNIT_SUFFIXES[k] != ""
  {
  }

  lemma LeastIs(ends: seq<nat>, text: string, start: nat, stop: nat, e: nat)
    requires forall x: nat :: x in ends <==> UnitEndsAt(text, start, stop, start + x)
    ensures (ends != [] && start + MinOf(ends) == e)
            <==> UnitEndsAt(text, start, stop, e) && forall x: nat :: start <= x < e ==> !UnitEndsAt(text, start, stop, x)
  {
    if UnitEndsAt(text, start, stop, e) { UnitIsBehind(text, start, stop, e); }
    hide UnitEndsAt;
    assert e >= start ==> (e - start in ends <==> UnitEndsAt(text, start, stop, e));
    if ends != [] {
      var m := MinOf(ends);
      assert m in ends && UnitEndsAt(text, start, stop, start + m);
      forall x: nat | start <= x < start + m ensures !UnitEndsAt(text, start, stop, x) {
        assert x - start !in ends;
      }
    }
  }

  /** Where a college ends, over the stretch up to where it stops. */
  lemma CollegeEndOver(text: string, start: nat, end: nat, stop: nat)
    requires StopsAt(text, start, end, stop)
    ensures var ends := Collect(ACADEMIC_UNIT_SUFFIXES, SuffixEnds(text[start..stop]));
            CollegeEnd(text, start, end) == if ends == [] then None else Some(start + MinOf(ends))
  {
    hide Collect, FirstFrom, OccursAt, MAJOR_STUDY_TEXT, ACADEMIC_UNIT_SUFFIXES, MinOf;
    var s := StopExists(text, start, end);
    StopIsOne(text, start, end, stop, s);
    hide StopsAt;
    var value := text[start..end];
    var major := FirstFrom(value, MAJOR_STUDY_TEXT, 0);
    var bounded := if major.Some? then value[..major.value] else value;
    assert bounded == text[start..stop];
  }

  /** A college ends with the first unit that ends before the stretch stops, if there is any. */
  lemma CollegeEndIs(text: string, start: nat, end: nat, stop: nat, e: nat)
    requires StopsAt(text, start, end, stop)
    ensures CollegeEnd(text, start, end) == Some(e)
            <==> UnitEndsAt(text, start, stop, e) && forall x: nat :: start <= x < e ==> !UnitEndsAt(text, start, stop, x)
  {
    hide Collect, OccursAt, UnitEndsAt, CollegeEnd, MinOf, ACADEMIC_UNIT_SUFFIXES, MAJOR_STUDY_TEXT;
    CollegeEndOver(text, start, end, stop);
    hide StopsAt;
    var ends := Collect(ACADEMIC_UNIT_SUFFIXES, SuffixEnds(text[start..stop]));
    forall x: nat | true ensures x in ends <==> UnitEndsAt(text, start, stop, start + x) {
      EndsAreUnits(text, start, stop, x);
    }
    LeastIs(ends, text, start, stop, e);
  }

  lemma UnitIsBehind(text: string, start: nat, stop: nat, e: nat)
    requires UnitEndsAt(text, start, stop, e)
    ensures start < e <= stop
  {
  }

  // ---------------------------------------------------------------- where an admission opens its sentence

  /** Only punctuation stands before it, or an approval and punctuation. */
  predicate OpensAt(text: string, at: nat) {
    || Punctuation(text, 0, at)
    || exists p :: 0 <= p <= at && OccursAt(text, APPROVAL_TEXT, p) && Punctuation(text, p + |APPROVAL_TEXT|, at)
  }

  /** What stripping leaves is what stands between the punctuation at either end. */
  lemma {:induction false} StrippedIs(text: string) returns (a: nat, b: nat)
    ensures a <= b <= |text| && StripStructural(text) == text[a..b] && Punctuation(text, 0, a) && Punctuation(text, b, |text|)
    ensures a < b ==> text[a] !in STRUCTURAL_CHARACTERS && text[b - 1] !in STRUCTURAL_CHARACTERS
    ensures a == b ==> Punctuation(text, 0, |text|)
    decreases |text|
  {
    hide STRUCTURAL_CHARACTERS;
    if text != "" && text[0] in STRUCTURAL_CHARACTERS {
      var x, y := StrippedIs(text[1..]);
      a, b := x + 1, y + 1;
      assert text[1..][x..y] == text[a..b];
      assert forall i :: 0 < i <= x ==> text[i] == text[1..][i - 1];
      assert forall i :: b <= i < |text| ==> text[i] == text[1..][i - 1];
      if x == y { assert forall i :: 0 < i < |text| ==> text[i] == text[1..][i - 1]; }
    } else if text != "" && text[|text| - 1] in STRUCTURAL_CHARACTERS {
      var k := |text| - 1;
      a, b := StrippedIs(text[..k]);
      assert text[..k][a..b] == text[a..b];
      assert forall i :: 0 <= i < k ==> text[i] == text[..k][i];
    } else {
      a, b := 0, |text|;
      assert text[0..|text|] == text;
    }
  }

  lemma ApprovalIsPlain()
    ensures |APPROVAL_TEXT| == 2
    ensures forall i :: 0 <= i < |APPROVAL_TEXT| ==> APPROVAL_TEXT[i] !in STRUCTURAL_CHARACTERS
  {
  }

  lemma OpensSentenceIs(text: string, at: nat)
    requires at <= |text|
    ensures OpensSentence(text[..at]) <==> OpensAt(text, at)
  {
    hide STRUCTURAL_CHARACTERS, APPROVAL_TEXT, StripStructural;
    ApprovalIsPlain();
    var prefix := text[..at];
    var a, b := StrippedIs(prefix);
    assert forall i :: 0 <= i < at ==> prefix[i] == text[i];
    if a < b && OpensSentence(prefix) {
      assert OccursAt(text, APPROVAL_TEXT, b - 2) && Punctuation(text, b, at) by {
        assert prefix[a..b][b - a - 2..] == text[b - 2..b];
      }
    }
    if OpensAt(text, at) && !Punctuation(text, 0, at) {
      var p :| 0 <= p <= at && OccursAt(text, APPROVAL_TEXT, p) && Punctuation(text, p + |APPROVAL_TEXT|, at);
      LastPlain(text, at, p, a, b);
      assert prefix[a..b][b - a - 2..] == text[p..p + 2];
    }
  }

  lemma LastPlain(text: string, at: nat, p: int, a: nat, b: nat)
    requires at <= |text| && 0 <= p && OccursAt(text, APPROVAL_TEXT, p) && Punctuation(text, p + 2, at)
    requires a <= b <= at && Punctuation(text[..at], 0, a) && Punctuation(text[..at], b, at)
    requires a < b ==> text[..at][b - 1] !in STRUCTURAL_CHARACTERS
    requires a == b ==> Punctuation(text[..at], 0, at)
    ensures a <= p && b == p + 2
  {
    ApprovalIsPlain();
    hide STRUCTURAL_CHARACTERS, APPROVAL_TEXT;
    assert text[p..p + 2][0] == text[p] && text[p..p + 2][1] == text[p + 1];
    assert forall i :: 0 <= i < at ==> text[..at][i] == text[i];
  }

  // ---------------------------------------------------------------- where a major begins

  /** The last admission that ends before a position. */
  predicate LastAdmission(text: string, end: nat, at: nat) {
    && end <= |text| && at + |ADMISSION_TEXT| <= end && OccursAt(text, ADMISSION_TEXT, at)
    && forall q :: at < q && q + |ADMISSION_TEXT| <= end ==> !OccursAt(text, ADMISSION_TEXT, q)
  }

  lemma AdmissionsAre(text: string, end: nat)
    requires end <= |text|
    ensures forall q: nat :: q in Starts(text[..end], ADMISSION_TEXT) <==>
              q + |ADMISSION_TEXT| <= end && OccursAt(text, ADMISSION_TEXT, q)
  {
    assert ADMISSION_TEXT != "";
    hide OccursAt, Starts, ADMISSION_TEXT;
    forall q: nat | true
      ensures q in Starts(text[..end], ADMISSION_TEXT) <==> q + |ADMISSION_TEXT| <= end && OccursAt(text, ADMISSION_TEXT, q)
    {
      PrefixOccurs(text, ADMISSION_TEXT, end, q);
      StartsAre(text[..end], ADMISSION_TEXT, q);
    }
  }

  /** A major begins with its line if no admission stands before it. */
  lemma MajorStartAlone(text: string, end: nat)
    requires end <= |text| && forall q: nat :: q + |ADMISSION_TEXT| <= end ==> !OccursAt(text, ADMISSION_TEXT, q)
    ensures MajorStart(text, end) == 0
  {
    hide CollegeEnd, OccursAt, ADMISSION_TEXT;
    var anchors := Starts(text[..end], ADMISSION_TEXT);
    assert anchors != [] ==> anchors[0] in anchors;
    AdmissionsAre(text, end);
  }

  /** A major begins behind the college of the last admission before it, or else with its line. */
  lemma MajorStartIs(text: string, end: nat, at: nat)
    requires LastAdmission(text, end, at)
    ensures var college := CollegeEnd(text, at + |ADMISSION_TEXT|, end);
            MajorStart(text, end) == if college.Some? then college.value else 0
  {
    hide CollegeEnd, OccursAt, ADMISSION_TEXT;
    AdmissionsAre(text, end);
    var anchors := Starts(text[..end], ADMISSION_TEXT);
    assert at in anchors;
    var i :| 0 <= i < |anchors| && anchors[i] == at;
    var last := anchors[|anchors| - 1];
    assert last in anchors;
    hide Starts;
    assert last == at;
  }

  lemma PrefixOccurs(text: string, anchor: string, end: nat, q: nat)
    requires end <= |text|
    ensures OccursAt(text[..end], anchor, q) <==> q + |anchor| <= end && OccursAt(text, anchor, q)
  {
    SliceOccurs(text, anchor, 0, end, q);
    assert text[0..end] == text[..end];
  }

  lemma StartsAre(text: string, anchor: string, q: nat)
    requires anchor != ""
    ensures q in Starts(text, anchor) <==> OccursAt(text, anchor, q)
  {
    hide OccursAt;
    var starts := Starts(text, anchor);
    if q in starts {
      var i :| 0 <= i < |starts| && starts[i] == q;
    }
  }
}
