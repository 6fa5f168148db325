/**
 The JSON depth scanner run before every JSON decoder, three times in the source with different bounds:
 exactly what it accepts, and what that means for JSON texts.
 */
module JsonDepth {
  import opened Basics

  const MAX_OCR_JSON_NESTING_DEPTH: nat := 12
  const MAX_ADMISSION_NOTICE_JSON_NESTING_DEPTH: nat := 10

  const QUOTE: Byte := 0x22
  const BACKSLASH: Byte := 0x5C
  const COMMA: Byte := 0x2C
  const COLON: Byte := 0x3A

  predicate IsOpen(b: Byte) {
    b == 0x5B || b == 0x7B
  }

  predicate IsClose(b: Byte) {
    b == 0x5D || b == 0x7D
  }

  /** Bytes that mean nothing to the scanner outside a string. */
  predicate IsPlain(b: Byte) {
    b != QUOTE && !IsOpen(b) && !IsClose(b)
  }

  // ---------------------------------------------------------------- the scanner, byte by byte

  datatype Scan = Scan(depth: nat, inString: bool, escaped: bool) | Rejected

  const START := Scan(0, false, false)

  function Feed(s: Scan, b: Byte, bound: nat): Scan {
    if s.Rejected? then s
    else if s.inString then
      if s.escaped then s.(escaped := false)
      else if b == BACKSLASH then s.(escaped := true)
      else if b == QUOTE then s.(inString := false)
      else s
    else if b == QUOTE then s.(inString := true)
    else if IsOpen(b) then if s.depth + 1 > bound then Rejected else s.(depth := s.depth + 1)
    else if IsClose(b) then if s.depth == 0 then Rejected else s.(depth := s.depth - 1)
    else s
  }

  function FeedAll(s: Scan, bytes: Bytes, bound: nat): Scan
    decreases bytes
  {
    if bytes == [] then s else FeedAll(Feed(s, bytes[0], bound), bytes[1..], bound)
  }

  predicate Accepts(payload: Bytes, bound: nat) {
    FeedAll(START, payload, bound) == START
  }

  /** The loop: leave on the first violation, then require that everything is closed. */
  method RequireBoundedJsonDepth(payload: Bytes, bound: nat) returns (ok: bool)
    ensures ok == Accepts(payload, bound)
  {
    var depth, inString, escaped := 0, false, false;
    for i := 0 to |payload|
      invariant depth >= 0
      invariant FeedAll(START, payload, bound) == FeedAll(Scan(depth, inString, escaped), payload[i..], bound)
      invariant escaped ==> inString
    {
      var byte := payload[i];
      assert payload[i..][1..] == payload[i + 1..];
      if inString {
        if escaped {
          escaped := false;
        } else if byte == BACKSLASH {
          escaped := true;
        } else if byte == QUOTE {
          inString := false;
        }
        continue;
      }
      if byte == QUOTE {
        inString := true;
      } else if IsOpen(byte) {
        depth := depth + 1;
        if depth > bound {
          RejectedStays(payload[i + 1..], bound);
          return false;
        }
      } else if IsClose(byte) {
        if depth == 0 {
          RejectedStays(payload[i + 1..], bound);
          return false;
        }
        depth := depth - 1;
      }
    }
    return depth == 0 && !inString && !escaped;
  }

  lemma {:induction false} RejectedStays(bytes: Bytes, bound: nat)
    ensures FeedAll(Rejected, bytes, bound) == Rejected
  {
    if bytes != [] {
      RejectedStays(bytes[1..], bound);
    }
  }

  lemma {:induction false} FeedConcat(s: Scan, a: Bytes, b: Bytes, bound: nat)
    ensures FeedAll(s, a + b, bound) == FeedAll(FeedAll(s, a, bound), b, bound)
    decreases a
  {
    if a == [] {
      assert a + b == b;
    } else {
      FeedConcat(Feed(s, a[0], bound), a[1..], b, bound);
      assert (a + b)[1..] == a[1..] + b;
    }
  }

  // ---------------------------------------------------------------- what the scanner can accept

  /** A string's content: a byte that is neither quote nor backslash, or a backslash and any byte. */
  datatype StringUnit = Raw(value: Byte) | Escaped(value: Byte)

  predicate ValidUnit(u: StringUnit) {
    u.Raw? ==> u.value != QUOTE && u.value != BACKSLASH
  }

  /** Plain bytes, strings and bracketed groups, one after another; a group's brackets need not match in kind. */
  datatype Forest =
    | Empty
    | Plain(value: Byte, rest: Forest)
    | Text(units: seq<StringUnit>, rest: Forest)
    | Group(left: Byte, inner: Forest, right: Byte, rest: Forest)

  predicate ValidForest(f: Forest) {
    match f
    case Empty => true
    case Plain(value, rest) => IsPlain(value) && ValidForest(rest)
    case Text(units, rest) => (forall k :: 0 <= k < |units| ==> ValidUnit(units[k])) && ValidForest(rest)
    case Group(left, inner, right, rest) => IsOpen(left) && IsClose(right) && ValidForest(inner) && ValidForest(rest)
  }

  function UnitsBytes(us: seq<StringUnit>): Bytes {
    if us == [] then []
    else (if us[0].Raw? then [us[0].value] else [BACKSLASH, us[0].value]) + UnitsBytes(us[1..])
  }

  function TextBytes(us: seq<StringUnit>): Bytes {
    [QUOTE] + UnitsBytes(us) + [QUOTE]
  }

  function ForestBytes(f: Forest): Bytes {
    match f
    case Empty => []
    case Plain(value, rest) => [value] + ForestBytes(rest)
    case Text(units, rest) => TextBytes(units) + ForestBytes(rest)
    case Group(left, inner, right, rest) => [left] + ForestBytes(inner) + [right] + ForestBytes(rest)
  }

  function Max(a: nat, b: nat): nat {
    if a >= b then a else b
  }

  function Depth(f: Forest): nat {
    match f
    case Empty => 0
    case Plain(_, rest) => Depth(rest)
    case Text(_, rest) => Depth(rest)
    case Group(_, inner, _, rest) => Max(1 + Depth(inner), Depth(rest))
  }

  lemma {:induction false} FeedUnits(d: nat, us: seq<StringUnit>, bound: nat)
    requires forall k :: 0 <= k < |us| ==> ValidUnit(us[k])
    ensures FeedAll(Scan(d, true, false), UnitsBytes(us), bound) == Scan(d, true, false)
  {
    if us != [] {
      FeedUnits(d, us[1..], bound);
      var head := if us[0].Raw? then [us[0].value] else [BACKSLASH, us[0].value];
      FeedConcat(Scan(d, true, false), head, UnitsBytes(us[1..]), bound);
      FeedOne(Scan(d, true, false), head, bound);
    }
  }

  lemma FeedNothing(s: Scan, bound: nat)
    ensures FeedAll(s, [], bound) == s
  {
  }

  /** The scan of one or two bytes, unfolded. */
  lemma {:induction false} FeedOne(s: Scan, bytes: Bytes, bound: nat)
    requires 1 <= |bytes| <= 2
    ensures FeedAll(s, bytes, bound) ==
              if |bytes| == 1 then Feed(s, bytes[0], bound) else Feed(Feed(s, bytes[0], bound), bytes[1], bound)
    decreases bytes
  {
    if |bytes| == 2 {
      FeedOne(Feed(s, bytes[0], bound), bytes[1..], bound);
    } else {
      assert bytes[1..] == [];
    }
  }

  lemma FeedText(d: nat, us: seq<StringUnit>, bound: nat)
    requires forall k :: 0 <= k < |us| ==> ValidUnit(us[k])
    ensures FeedAll(Scan(d, false, false), TextBytes(us), bound) == Scan(d, false, false)
  {
    var s := Scan(d, false, false);
    FeedConcat(s, [QUOTE] + UnitsBytes(us), [QUOTE], bound);
    FeedConcat(s, [QUOTE], UnitsBytes(us), bound);
    FeedUnits(d, us, bound);
    FeedOne(s, [QUOTE], bound);
    FeedOne(Scan(d, true, false), [QUOTE], bound);
    hide FeedAll, UnitsBytes;
  }

  /** Over a whole forest the scanner returns to where it was, unless the nesting goes beyond the bound. */
  lemma {:induction false} FeedForest(d: nat, f: Forest, bound: nat)
    requires ValidForest(f) && d <= bound
    ensures FeedAll(Scan(d, false, false), ForestBytes(f), bound) ==
              if d + Depth(f) <= bound then Scan(d, false, false) else Rejected
    decreases f
  {
    hide FeedAll, TextBytes, UnitsBytes;
    var s := Scan(d, false, false);
    match f
    case Empty => FeedNothing(s, bound);
    case Plain(value, rest) =>
      FeedConcat(s, [value], ForestBytes(rest), bound);
      FeedOne(s, [value], bound);
      FeedForest(d, rest, bound);
    case Text(units, rest) =>
      FeedConcat(s, TextBytes(units), ForestBytes(rest), bound);
      FeedText(d, units, bound);
      FeedForest(d, rest, bound);
    case Group(left, inner, right, rest) =>
      var tail := [right] + ForestBytes(rest);
      assert ForestBytes(f) == [left] + (ForestBytes(inner) + tail);
      FeedConcat(s, [left], ForestBytes(inner) + tail, bound);
      FeedOne(s, [left], bound);
      if d + 1 > bound {
        RejectedStays(ForestBytes(inner) + tail, bound);
      } else {
        var inside := Scan(d + 1, false, false);
        FeedConcat(inside, ForestBytes(inner), tail, bound);
        FeedForest(d + 1, inner, bound);
        RejectedStays(tail, bound);
        FeedConcat(inside, [right], ForestBytes(rest), bound);
        FeedOne(inside, [right], bound);
        FeedForest(d, rest, bound);
      }
  }

  /** Take a string's content apart, up to its closing quote. */
  lemma {:induction false} ParseUnits(s: Bytes, d: nat, bound: nat) returns (us: seq<StringUnit>, rest: Bytes)
    requires FeedAll(Scan(d, true, false), s, bound) == START
    ensures forall k :: 0 <= k < |us| ==> ValidUnit(us[k])
    ensures s == UnitsBytes(us) + [QUOTE] + rest && |rest| < |s|
    ensures FeedAll(Scan(d, false, false), rest, bound) == START
  {
    if s[0] == QUOTE {
      us, rest := [], s[1..];
      assert s == [QUOTE] + rest;
    } else {
      var unit, used := Raw(s[0]), 1;
      if s[0] == BACKSLASH {
        assert s[1..] != [];
        unit, used := Escaped(s[1]), 2;
        assert s[1..][1..] == s[2..];
      }
      var more;
      more, rest := ParseUnits(s[used..], d, bound);
      us := [unit] + more;
      assert us[1..] == more;
      assert s == s[..used] + s[used..] && s[..used] == if unit.Raw? then [unit.value] else [BACKSLASH, unit.value];
    }
  }

  /** The first byte of accepted bytes, and what is accepted after it. */
  lemma FirstByte(s: Bytes, d: nat, bound: nat)
    requires FeedAll(Scan(d, false, false), s, bound) == START && s != []
    ensures s[0] == QUOTE ==> FeedAll(Scan(d, true, false), s[1..], bound) == START
    ensures IsOpen(s[0]) ==> d + 1 <= bound && FeedAll(Scan(d + 1, false, false), s[1..], bound) == START
    ensures IsClose(s[0]) ==> d > 0 && FeedAll(Scan(d - 1, false, false), s[1..], bound) == START
    ensures IsPlain(s[0]) ==> FeedAll(Scan(d, false, false), s[1..], bound) == START
  {
    RejectedStays(s[1..], bound);
  }

  /** Accepted bytes up to the bracket that closes the current group, or to the end outside all groups. */
  predicate TakenApart(s: Bytes, d: nat, bound: nat, f: Forest, right: Byte, rest: Bytes) {
    && ValidForest(f)
    && (d == 0 ==> s == ForestBytes(f))
    && (d > 0 ==>
          && IsClose(right) && s == ForestBytes(f) + [right] + rest
          && FeedAll(Scan(d - 1, false, false), rest, bound) == START)
  }

  /** What stands before a part taken apart joins its forest. */
  lemma Prepend(head: Bytes, s: Bytes, d: nat, bound: nat, tail: Forest, right: Byte, rest: Bytes, f: Forest)
    requires TakenApart(s, d, bound, tail, right, rest) && ValidForest(f) && ForestBytes(f) == head + ForestBytes(tail)
    ensures TakenApart(head + s, d, bound, f, right, rest)
  {
    assert d > 0 ==> head + s == head + ForestBytes(tail) + [right] + rest;
    hide ForestBytes, FeedAll;
  }

  lemma {:induction false} ParseForest(s: Bytes, d: nat, bound: nat) returns (f: Forest, right: Byte, rest: Bytes)
    requires FeedAll(Scan(d, false, false), s, bound) == START
    ensures TakenApart(s, d, bound, f, right, rest)
    decreases |s|
  {
    hide Feed, UnitsBytes, Depth;
    f, right, rest := Empty, 0x5D, [];
    if s == [] {
      assert d == 0;
    } else {
      var b, after := s[0], s[1..];
      assert s == [b] + after;
      FirstByte(s, d, bound);
      hide FeedAll;
      if b == QUOTE {
        var us, behind := ParseUnits(after, d, bound);
        f, right, rest := ParseForest(behind, d, bound);
        assert s == TextBytes(us) + behind;
        Prepend(TextBytes(us), behind, d, bound, f, right, rest, Text(us, f));
        f := Text(us, f);
      } else if IsOpen(b) {
        var inner, close, behind := ParseForest(after, d + 1, bound);
        f, right, rest := ParseForest(behind, d, bound);
        var head := [b] + ForestBytes(inner) + [close];
        assert s == head + behind;
        Prepend(head, behind, d, bound, f, right, rest, Group(b, inner, close, f));
        f := Group(b, inner, close, f);
      } else if IsClose(b) {
        right, rest := b, after;
        assert s == ForestBytes(Empty) + [right] + rest;
      } else {
        f, right, rest := ParseForest(after, d, bound);
        Prepend([b], after, d, bound, f, right, rest, Plain(b, f));
        f := Plain(b, f);
      }
    }
  }

  /** The scanner accepts exactly the forests nested no deeper than the bound. */
  lemma AcceptsExactlyBoundedForests(payload: Bytes, bound: nat)
    ensures Accepts(payload, bound) <==> exists f :: ValidForest(f) && Depth(f) <= bound && ForestBytes(f) == payload
  {
    if Accepts(payload, bound) {
      var f, right, rest := ParseForest(payload, 0, bound);
      FeedForest(0, f, bound);
    }
    if f :| ValidForest(f) && Depth(f) <= bound && ForestBytes(f) == payload {
      FeedForest(0, f, bound);
    }
  }

  /** Bracket kinds are not compared: an array closed as an object passes. */
  lemma MismatchedBracketsPass(bound: nat)
    ensures Accepts([0x5B, 0x7D], bound) <==> bound >= 1
  {
    var f := Group(0x5B, Empty, 0x7D, Empty);
    FeedForest(0, f, bound);
    assert ForestBytes(f) == [0x5B, 0x7D];
  }

  // ---------------------------------------------------------------- JSON texts

  /**
   A JSON text as in RFC 8259: literals and numbers are their bytes, and white space may stand around every
   element and member part.
   */
  datatype Json =
    | Literal(bytes: Bytes)
    | String(units: seq<StringUnit>)
    | Array(gap: Bytes, elements: Elements)
    | Object(gap: Bytes, members: Members)

  datatype Elements = NoElements | Element(before: Bytes, value: Json, after: Bytes, others: Elements)

  datatype Members =
    | NoMembers
    | Member(before: Bytes, key: seq<StringUnit>, middle: Bytes, inner: Bytes, value: Json, after: Bytes, others: Members)

  predicate IsSpace(b: Byte) {
    b == 0x20 || b == 0x09 || b == 0x0A || b == 0x0D
  }

  predicate AllSpace(bs: Bytes) {
    forall k :: 0 <= k < |bs| ==> IsSpace(bs[k])
  }

  predicate ValidString(us: seq<StringUnit>) {
    forall k :: 0 <= k < |us| ==> ValidUnit(us[k])
  }

  predicate ValidJson(j: Json) {
    match j
    case Literal(bytes) => forall k :: 0 <= k < |bytes| ==> IsPlain(bytes[k])
    case String(units) => ValidString(units)
    case Array(gap, elements) => AllSpace(gap) && ValidElements(elements)
    case Object(gap, members) => AllSpace(gap) && ValidMembers(members)
  }

  predicate ValidElements(e: Elements) {
    e.Element? ==> AllSpace(e.before) && ValidJson(e.value) && AllSpace(e.after) && ValidElements(e.others)
  }

  predicate ValidMembers(m: Members) {
    m.Member? ==>
      AllSpace(m.before) && ValidString(m.key) && AllSpace(m.middle) && AllSpace(m.inner) && ValidJson(m.value)
      && AllSpace(m.after) && ValidMembers(m.others)
  }

  function JsonBytes(j: Json): Bytes {
    match j
    case Literal(bytes) => bytes
    case String(units) => TextBytes(units)
    case Array(gap, elements) => [0x5B] + gap + ElementsBytes(elements) + [0x5D]
    case Object(gap, members) => [0x7B] + gap + MembersBytes(members) + [0x7D]
  }

  function ElementsBytes(e: Elements): Bytes {
    match e
    case NoElements => []
    case Element(before, value, after, others) =>
      before + JsonBytes(value) + after + (if others.NoElements? then [] else [COMMA]) + ElementsBytes(others)
  }

  function MembersBytes(m: Members): Bytes {
    match m
    case NoMembers => []
    case Member(before, key, middle, inner, value, after, others) =>
      before + TextBytes(key) + middle + [COLON] + inner + JsonBytes(value) + after
      + (if others.NoMembers? then [] else [COMMA]) + MembersBytes(others)
  }

  /** How many containers nest inside each other. */
  function JsonDepth(j: Json): nat {
    match j
    case Literal(_) => 0
    case String(_) => 0
    case Array(_, elements) => 1 + ElementsDepth(elements)
    case Object(_, members) => 1 + MembersDepth(members)
  }

  function ElementsDepth(e: Elements): nat {
    match e
    case NoElements => 0
    case Element(_, value, _, others) => Max(JsonDepth(value), ElementsDepth(others))
  }

  function MembersDepth(m: Members): nat {
    match m
    case NoMembers => 0
    case Member(_, _, _, _, value, _, others) => Max(JsonDepth(value), MembersDepth(others))
  }

  /** What a part of a text does to the scanner: pass unchanged, or be rejected for its depth. */
  predicate Passes(bytes: Bytes, d: nat, depth: nat, bound: nat) {
    FeedAll(Scan(d, false, false), bytes, bound) == if d + depth <= bound then Scan(d, false, false) else Rejected
  }

  lemma {:induction false} PlainPasses(bytes: Bytes, d: nat, bound: nat)
    requires d <= bound && forall k :: 0 <= k < |bytes| ==> IsPlain(bytes[k])
    ensures Passes(bytes, d, 0, bound)
  {
    if bytes != [] {
      PlainPasses(bytes[1..], d, bound);
    }
  }

  lemma ConcatPasses(a: Bytes, depthA: nat, b: Bytes, depthB: nat, d: nat, bound: nat)
    requires Passes(a, d, depthA, bound) && Passes(b, d, depthB, bound)
    ensures Passes(a + b, d, Max(depthA, depthB), bound)
  {
    FeedConcat(Scan(d, false, false), a, b, bound);
    RejectedStays(b, bound);
    hide FeedAll;
  }

  lemma TextPasses(us: seq<StringUnit>, d: nat, bound: nat)
    requires d <= bound && ValidString(us)
    ensures Passes(TextBytes(us), d, 0, bound)
  {
    FeedText(d, us, bound);
  }

  /** A bracketed part passes when its content does one level further in. */
  lemma GroupPasses(left: Byte, content: Bytes, depth: nat, right: Byte, d: nat, bound: nat)
    requires d <= bound && IsOpen(left) && IsClose(right)
    requires d + 1 <= bound ==> Passes(content, d + 1, depth, bound)
    ensures Passes([left] + content + [right], d, 1 + depth, bound)
  {
    var s := Scan(d, false, false);
    assert [left] + content + [right] == [left] + (content + [right]);
    FeedConcat(s, [left], content + [right], bound);
    FeedOne(s, [left], bound);
    if d + 1 > bound {
      RejectedStays(content + [right], bound);
    } else {
      FeedConcat(Scan(d + 1, false, false), content, [right], bound);
      FeedOne(Scan(d + 1, false, false), [right], bound);
      RejectedStays([right], bound);
    }
    hide FeedAll;
  }

  lemma {:induction false} JsonPasses(j: Json, d: nat, bound: nat)
    requires ValidJson(j) && d <= bound
    ensures Passes(JsonBytes(j), d, JsonDepth(j), bound)
  {
    hide Passes;
    match j
    case Literal(bytes) => PlainPasses(bytes, d, bound);
    case String(units) => TextPasses(units, d, bound);
    case Array(gap, elements) =>
      if d + 1 <= bound {
        ElementsPass(elements, d + 1, bound);
        PlainPasses(gap, d + 1, bound);
        ConcatPasses(gap, 0, ElementsBytes(elements), ElementsDepth(elements), d + 1, bound);
      }
      GroupPasses(0x5B, gap + ElementsBytes(elements), ElementsDepth(elements), 0x5D, d, bound);
      assert [0x5B] + (gap + ElementsBytes(elements)) + [0x5D] == JsonBytes(j);
    case Object(gap, members) =>
      if d + 1 <= bound {
        MembersPass(members, d + 1, bound);
        PlainPasses(gap, d + 1, bound);
        ConcatPasses(gap, 0, MembersBytes(members), MembersDepth(members), d + 1, bound);
      }
      GroupPasses(0x7B, gap + MembersBytes(members), MembersDepth(members), 0x7D, d, bound);
      assert [0x7B] + (gap + MembersBytes(members)) + [0x7D] == JsonBytes(j);
  }

  lemma {:induction false} ElementsPass(e: Elements, d: nat, bound: nat)
    requires ValidElements(e) && d <= bound
    ensures Passes(ElementsBytes(e), d, ElementsDepth(e), bound)
  {
    hide Passes;
    match e
    case NoElements => PlainPasses([], d, bound);
    case Element(before, value, after, others) =>
      var comma: Bytes := if others.NoElements? then [] else [COMMA];
      PlainPasses(before, d, bound);
      JsonPasses(value, d, bound);
      PlainPasses(after, d, bound);
      PlainPasses(comma, d, bound);
      ElementsPass(others, d, bound);
      ConcatPasses(before, 0, JsonBytes(value), JsonDepth(value), d, bound);
      ConcatPasses(before + JsonBytes(value), JsonDepth(value), after, 0, d, bound);
      ConcatPasses(before + JsonBytes(value) + after, JsonDepth(value), comma, 0, d, bound);
      ConcatPasses(before + JsonBytes(value) + after + comma, JsonDepth(value), ElementsBytes(others),
                   ElementsDepth(others), d, bound);
  }

  lemma {:induction false} MembersPass(m: Members, d: nat, bound: nat)
    requires ValidMembers(m) && d <= bound
    ensures Passes(MembersBytes(m), d, MembersDepth(m), bound)
  {
    hide Passes;
    match m
    case NoMembers => PlainPasses([], d, bound);
    case Member(before, key, middle, inner, value, after, others) =>
      var comma: Bytes := if others.NoMembers? then [] else [COMMA];
      var head := before + TextBytes(key) + middle + [COLON] + inner;
      PlainPasses(before, d, bound);
      TextPasses(key, d, bound);
      PlainPasses(middle, d, bound);
      PlainPasses([COLON], d, bound);
      PlainPasses(inner, d, bound);
      ConcatPasses(before, 0, TextBytes(key), 0, d, bound);
      ConcatPasses(before + TextBytes(key), 0, middle, 0, d, bound);
      ConcatPasses(before + TextBytes(key) + middle, 0, [COLON], 0, d, bound);
      ConcatPasses(before + TextBytes(key) + middle + [COLON], 0, inner, 0, d, bound);
      JsonPasses(value, d, bound);
      PlainPasses(after, d, bound);
      PlainPasses(comma, d, bound);
      MembersPass(others, d, bound);
      ConcatPasses(head, 0, JsonBytes(value), JsonDepth(value), d, bound);
      ConcatPasses(head + JsonBytes(value), JsonDepth(value), after, 0, d, bound);
      ConcatPasses(head + JsonBytes(value) + after, JsonDepth(value), comma, 0, d, bound);
      ConcatPasses(head + JsonBytes(value) + after + comma, JsonDepth(value), MembersBytes(others),
                   MembersDepth(others), d, bound);
  }

  /** A JSON text, with white space around it, is let through exactly when its containers nest within the bound. */
  lemma JsonAcceptedIffShallow(before: Bytes, j: Json, after: Bytes, bound: nat)
    requires ValidJson(j) && AllSpace(before) && AllSpace(after)
    ensures Accepts(before + JsonBytes(j) + after, bound) <==> JsonDepth(j) <= bound
  {
    PlainPasses(before, 0, bound);
    JsonPasses(j, 0, bound);
    PlainPasses(after, 0, bound);
    ConcatPasses(before, 0, JsonBytes(j), JsonDepth(j), 0, bound);
    ConcatPasses(before + JsonBytes(j), JsonDepth(j), after, 0, 0, bound);
    hide FeedAll, JsonBytes;
  }

  /** The extraction parser's bound is the tighter one: what it lets through, the OCR parser's scanner does too. */
  lemma TighterBoundIsStricter(payload: Bytes)
    requires Accepts(payload, MAX_ADMISSION_NOTICE_JSON_NESTING_DEPTH)
    ensures Accepts(payload, MAX_OCR_JSON_NESTING_DEPTH)
  {
    AcceptsExactlyBoundedForests(payload, MAX_ADMISSION_NOTICE_JSON_NESTING_DEPTH);
    AcceptsExactlyBoundedForests(payload, MAX_OCR_JSON_NESTING_DEPTH);
    hide FeedAll, Accepts, ForestBytes;
  }
}
