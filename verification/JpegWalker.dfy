/** The strict container check of an uploaded JPEG, against a declarative marker grammar. */
module JpegWalker {
  import opened Basics

  const FF: Byte := 0xFF
  const STUFFED: Byte := 0x00
  const TEM: Byte := 0x01
  const SOI: Byte := 0xD8
  const EOI: Byte := 0xD9
  const SOS: Byte := 0xDA

  predicate IsRestart(m: Byte) {
    0xD0 <= m <= 0xD7
  }

  // ---------------------------------------------------------------- the grammar

  /** One unit of entropy-coded data; `fill` counts the optional fill bytes before a marker's own 0xFF. */
  datatype Unit = Coded(value: Byte) | StuffedZero(fill: nat) | RestartIn(fill: nat, marker: Byte)

  /** A marker with what belongs to it; a scan header carries its entropy-coded data. */
  datatype Item =
    | Standalone(fill: nat, marker: Byte)
    | Segment(fill: nat, marker: Byte, body: Bytes)
    | Scan(fill: nat, body: Bytes, units: seq<Unit>)

  /** Start of image, items, end of image. */
  datatype Jpeg = Jpeg(items: seq<Item>, fill: nat)

  predicate ValidUnit(u: Unit) {
    match u
    case Coded(value) => value != FF
    case StuffedZero(_) => true
    case RestartIn(_, marker) => IsRestart(marker)
  }

  /** A marker segment's length field counts itself and the body. */
  predicate ValidBody(body: Bytes) {
    |body| + 2 < 0x10000
  }

  predicate TakesSegment(m: Byte) {
    m != FF && m != STUFFED && m != TEM && m != SOI && m != EOI && m != SOS && !IsRestart(m)
  }

  predicate ValidItem(i: Item) {
    match i
    case Standalone(_, marker) => marker == TEM || IsRestart(marker)
    case Segment(_, marker, body) => TakesSegment(marker) && ValidBody(body)
    case Scan(_, body, units) => ValidBody(body) && forall k :: 0 <= k < |units| ==> ValidUnit(units[k])
  }

  predicate HasScan(items: seq<Item>) {
    exists k :: 0 <= k < |items| && items[k].Scan?
  }

  predicate ValidJpeg(j: Jpeg) {
    (forall k :: 0 <= k < |j.items| ==> ValidItem(j.items[k])) && HasScan(j.items)
  }

  /** A marker: fill bytes, 0xFF and the marker code. */
  function Marker(fill: nat, m: Byte): Bytes {
    if fill == 0 then [FF, m] else [FF] + Marker(fill - 1, m)
  }

  function UnitBytes(u: Unit): Bytes {
    match u
    case Coded(value) => [value]
    case StuffedZero(fill) => Marker(fill, STUFFED)
    case RestartIn(fill, marker) => Marker(fill, marker)
  }

  function UnitsBytes(us: seq<Unit>): Bytes {
    if us == [] then [] else UnitBytes(us[0]) + UnitsBytes(us[1..])
  }

  function BodyBytes(body: Bytes): Bytes
    requires ValidBody(body)
  {
    [(|body| + 2) / 256, (|body| + 2) % 256] + body
  }

  function MarkerOf(i: Item): Byte {
    if i.Scan? then SOS else i.marker
  }

  /** What follows an item's marker. */
  function ContentBytes(i: Item): Bytes
    requires ValidItem(i)
  {
    match i
    case Standalone(_, _) => []
    case Segment(_, _, body) => BodyBytes(body)
    case Scan(_, body, units) => BodyBytes(body) + UnitsBytes(units)
  }

  function ItemBytes(i: Item): Bytes
    requires ValidItem(i)
  {
    Marker(i.fill, MarkerOf(i)) + ContentBytes(i)
  }

  /** The bytes of items followed by the end-of-image marker. */
  function TailBytes(items: seq<Item>, fill: nat): Bytes
    requires forall k :: 0 <= k < |items| ==> ValidItem(items[k])
  {
    if items == [] then Marker(fill, EOI) else ItemBytes(items[0]) + TailBytes(items[1..], fill)
  }

  function JpegBytes(j: Jpeg): Bytes
    requires ValidJpeg(j)
  {
    [FF, SOI] + TailBytes(j.items, j.fill)
  }

  /** Which markers stand alone, which take a segment and which are in neither class, one by one. */
  lemma MarkerClasses(m: Byte)
    ensures IsRestart(m) <==> m in {0xD0, 0xD1, 0xD2, 0xD3, 0xD4, 0xD5, 0xD6, 0xD7}
    ensures TakesSegment(m) <==>
              m !in {0x00, 0x01, 0xD0, 0xD1, 0xD2, 0xD3, 0xD4, 0xD5, 0xD6, 0xD7, 0xD8, 0xD9, 0xDA, 0xFF}
    ensures InScan(m) <==> m in {0x00, 0xD0, 0xD1, 0xD2, 0xD3, 0xD4, 0xD5, 0xD6, 0xD7}
  {
    var restarts := {0xD0, 0xD1, 0xD2, 0xD3, 0xD4, 0xD5, 0xD6, 0xD7};
    assert m in restarts <==> 0xD0 <= m as int <= 0xD7;
  }

  // ---------------------------------------------------------------- the walk on the rest of the data

  /** How many 0xFF the data begins with. */
  function FillRun(s: Bytes): (n: nat)
    ensures n <= |s|
    ensures n < |s| ==> s[n] != FF
    ensures forall k :: 0 <= k < n ==> s[k] == FF
  {
    if s == [] || s[0] != FF then 0 else 1 + FillRun(s[1..])
  }

  function SegmentLength(s: Bytes): nat
    requires |s| >= 2
  {
    256 * (s[0] as nat) + s[1]
  }

  /** Outside a scan: a marker must come next. */
  predicate HeaderWalk(rest: Bytes, sawScan: bool)
    decreases |rest|, 0
  {
    var n := FillRun(rest);
    0 < n < |rest| && AfterMarker(rest[n], rest[n + 1..], sawScan)
  }

  predicate AfterMarker(m: Byte, after: Bytes, sawScan: bool)
    decreases |after|, 2
  {
    if m == EOI then sawScan && after == []
    else if m == STUFFED || m == SOI then false
    else if m == TEM || IsRestart(m) then HeaderWalk(after, sawScan)
    else if |after| < 2 || SegmentLength(after) < 2 || SegmentLength(after) > |after| then false
    else if m == SOS then ScanWalk(after[SegmentLength(after)..])
    else HeaderWalk(after[SegmentLength(after)..], sawScan)
  }

  /** Inside a scan: skip entropy-coded data up to a marker that is not part of it. */
  predicate ScanWalk(rest: Bytes)
    decreases |rest|, 1
  {
    if rest == [] then false
    else if rest[0] != FF then ScanWalk(rest[1..])
    else
      var n := FillRun(rest);
      if n == |rest| then false
      else if InScan(rest[n]) then ScanWalk(rest[n + 1..])
      else HeaderWalk(rest, true)
  }

  /** Markers that belong to entropy-coded data. */
  predicate InScan(m: Byte) {
    m == STUFFED || IsRestart(m)
  }

  predicate Accepts(data: Bytes) {
    |data| >= 4 && data[..2] == [FF, SOI] && HeaderWalk(data[2..], false)
  }

  // ---------------------------------------------------------------- everything accepted is in the grammar

  lemma {:induction false} MarkerOfRun(s: Bytes)
    requires 0 < FillRun(s) < |s|
    ensures s == Marker(FillRun(s) - 1, s[FillRun(s)]) + s[FillRun(s) + 1..]
  {
    if FillRun(s) > 1 {
      MarkerOfRun(s[1..]);
      assert s == [s[0]] + s[1..];
    }
  }

  lemma BodyOfSegment(s: Bytes)
    requires |s| >= 2 && 2 <= SegmentLength(s) <= |s|
    ensures ValidBody(s[2..SegmentLength(s)])
    ensures s == BodyBytes(s[2..SegmentLength(s)]) + s[SegmentLength(s)..]
  {
    var body := s[2..SegmentLength(s)];
    assert s == [s[0], s[1]] + body + s[SegmentLength(s)..];
  }

  /** Prepending an item to the bytes of a tail, taken apart at its marker. */
  lemma ItemSplit(i: Item, tail: Bytes)
    requires ValidItem(i)
    ensures ItemBytes(i) + tail == Marker(i.fill, MarkerOf(i)) + (ContentBytes(i) + tail)
    ensures i.Scan? ==> ContentBytes(i) + tail == BodyBytes(i.body) + (UnitsBytes(i.units) + tail)
    ensures i.Standalone? ==> ContentBytes(i) + tail == tail
  {
    hide Marker, BodyBytes, UnitsBytes;
  }

  lemma ItemPrepended(item: Item, items: seq<Item>, fill: nat)
    requires ValidItem(item) && forall k :: 0 <= k < |items| ==> ValidItem(items[k])
    ensures forall k :: 0 <= k < |[item] + items| ==> ValidItem(([item] + items)[k])
    ensures TailBytes([item] + items, fill) == ItemBytes(item) + TailBytes(items, fill)
    ensures item.Scan? || HasScan(items) ==> HasScan([item] + items)
  {
    var all := [item] + items;
    assert all[1..] == items && all[0] == item;
    if !item.Scan? && HasScan(items) {
      var k :| 0 <= k < |items| && items[k].Scan?;
      assert all[k + 1].Scan?;
    }
    hide ItemBytes;
  }

  lemma {:induction false} HeaderSound(rest: Bytes, sawScan: bool) returns (items: seq<Item>, fill: nat)
    requires HeaderWalk(rest, sawScan)
    ensures forall k :: 0 <= k < |items| ==> ValidItem(items[k])
    ensures rest == TailBytes(items, fill) && (sawScan || HasScan(items))
    decreases |rest|, 0
  {
    hide Marker, TailBytes, HasScan, ValidItem, FillRun, AfterMarker;
    var n := FillRun(rest);
    MarkerOfRun(rest);
    items, fill := AfterMarkerSound(n - 1, rest[n], rest[n + 1..], sawScan);
  }

  lemma {:induction false} AfterMarkerSound(run: nat, m: Byte, after: Bytes, sawScan: bool)
    returns (items: seq<Item>, fill: nat)
    requires m != FF && AfterMarker(m, after, sawScan)
    ensures forall k :: 0 <= k < |items| ==> ValidItem(items[k])
    ensures Marker(run, m) + after == TailBytes(items, fill) && (sawScan || HasScan(items))
    decreases |after|, 2
  {
    hide Marker, BodyBytes, UnitsBytes, ItemBytes, ContentBytes, HeaderWalk, ScanWalk, FillRun, HasScan;
    if m == EOI {
      items, fill := [], run;
      assert Marker(run, m) + after == Marker(run, m);
    } else {
      var item: Item, tail: Bytes;
      if m == TEM || IsRestart(m) {
        item, tail := Standalone(run, m), after;
        items, fill := HeaderSound(tail, sawScan);
      } else {
        var length := SegmentLength(after);
        BodyOfSegment(after);
        if m == SOS {
          var units;
          units, items, fill := ScanSound(after[length..]);
          item, tail := Scan(run, after[2..length], units), TailBytes(items, fill);
        } else {
          item, tail := Segment(run, m, after[2..length]), after[length..];
          items, fill := HeaderSound(tail, sawScan);
        }
      }
      ItemSplit(item, tail);
      ContentOf(item);
      ItemPrepended(item, items, fill);
      items := [item] + items;
    }
  }

  lemma ContentOf(i: Item)
    requires ValidItem(i)
    ensures i.Segment? ==> ContentBytes(i) == BodyBytes(i.body)
  {
  }

  /** The first unit of entropy-coded data, and what follows it. */
  lemma FirstUnit(rest: Bytes) returns (unit: Unit, after: Bytes)
    requires ScanWalk(rest) && (FillRun(rest) == 0 || InScan(rest[FillRun(rest)]))
    ensures ValidUnit(unit) && rest == UnitBytes(unit) + after && ScanWalk(after) && |after| < |rest|
  {
    var n := FillRun(rest);
    after := rest[n + 1..];
    unit := if n == 0 then Coded(rest[0]) else if rest[n] == STUFFED then StuffedZero(n - 1) else RestartIn(n - 1, rest[n]);
    if n > 0 { MarkerOfRun(rest); }
    hide HeaderWalk;
  }

  lemma Regroup(a: Bytes, b: Bytes, c: Bytes)
    ensures a + (b + c) == a + b + c
  {
  }

  lemma UnitsPrepend(unit: Unit, us: seq<Unit>)
    ensures UnitsBytes([unit] + us) == UnitBytes(unit) + UnitsBytes(us)
  {
    assert ([unit] + us)[1..] == us;
  }

  lemma {:induction false} ScanSound(rest: Bytes) returns (units: seq<Unit>, items: seq<Item>, fill: nat)
    requires ScanWalk(rest)
    ensures forall k :: 0 <= k < |units| ==> ValidUnit(units[k])
    ensures forall k :: 0 <= k < |items| ==> ValidItem(items[k])
    ensures rest == UnitsBytes(units) + TailBytes(items, fill)
    decreases |rest|, 1
  {
    var n := FillRun(rest);
    if n == 0 || InScan(rest[n]) {
      var unit, after := FirstUnit(rest);
      hide *;
      var us;
      us, items, fill := ScanSound(after);
      units := [unit] + us;
      UnitsPrepend(unit, us);
      Regroup(UnitBytes(unit), UnitsBytes(us), TailBytes(items, fill));
    } else {
      units := [];
      items, fill := HeaderSound(rest, true);
    }
  }

  // ---------------------------------------------------------------- everything in the grammar is accepted

  lemma {:induction false} RunOfMarker(fill: nat, m: Byte, rest: Bytes)
    requires m != FF
    ensures var s := Marker(fill, m) + rest;
            FillRun(s) == fill + 1 < |s| && s[fill + 1] == m && s[fill + 2..] == rest && |s| == fill + 2 + |rest|
  {
    if fill > 0 {
      RunOfMarker(fill - 1, m, rest);
      var s, t := Marker(fill, m) + rest, Marker(fill - 1, m) + rest;
      assert s == [FF] + t;
      assert s[1..] == t && s[fill + 2..] == t[fill + 1..];
    } else {
      assert ([FF, m] + rest)[1..][0] == m;
    }
  }

  lemma WalkMarker(fill: nat, m: Byte, after: Bytes, sawScan: bool)
    requires m != FF
    ensures HeaderWalk(Marker(fill, m) + after, sawScan) == AfterMarker(m, after, sawScan)
  {
    RunOfMarker(fill, m, after);
    hide FillRun, Marker, AfterMarker;
  }

  lemma WalkBody(m: Byte, body: Bytes, after: Bytes, sawScan: bool)
    requires ValidBody(body) && (TakesSegment(m) || m == SOS)
    ensures AfterMarker(m, BodyBytes(body) + after, sawScan) == if m == SOS then ScanWalk(after) else HeaderWalk(after, sawScan)
  {
    var s := BodyBytes(body) + after;
    assert |s| >= 2 && SegmentLength(s) == |body| + 2 <= |s| && s[|body| + 2..] == after;
    hide HeaderWalk, ScanWalk, BodyBytes;
  }

  lemma {:induction false} HeaderComplete(items: seq<Item>, fill: nat, sawScan: bool)
    requires forall k :: 0 <= k < |items| ==> ValidItem(items[k])
    requires sawScan || HasScan(items)
    ensures HeaderWalk(TailBytes(items, fill), sawScan)
    decreases |items|, 0
  {
    hide Marker, BodyBytes, UnitsBytes, FillRun, ItemBytes, HeaderWalk, ScanWalk;
    if items == [] {
      WalkMarker(fill, EOI, [], sawScan);
      assert Marker(fill, EOI) + [] == Marker(fill, EOI);
    } else {
      var i, tail := items[0], TailBytes(items[1..], fill);
      ItemSplit(i, tail);
      WalkMarker(i.fill, MarkerOf(i), ContentBytes(i) + tail, sawScan);
      match i
      case Standalone(f, m) => HeaderComplete(items[1..], fill, sawScan);
      case Segment(f, m, body) =>
        WalkBody(m, body, tail, sawScan);
        HeaderComplete(items[1..], fill, sawScan);
      case Scan(f, body, units) =>
        WalkBody(SOS, body, UnitsBytes(units) + tail, sawScan);
        ScanComplete(units, items[1..], fill);
    }
  }

  lemma LastMarker(fill: nat)
    ensures var s := TailBytes([], fill);
            FillRun(s) == fill + 1 < |s| && s[fill + 1] == EOI && s[fill + 2..] == []
  {
    RunOfMarker(fill, EOI, []);
    assert Marker(fill, EOI) + [] == Marker(fill, EOI);
  }

  lemma ScanUnit(u: Unit, rest: Bytes)
    requires ValidUnit(u)
    ensures ScanWalk(UnitBytes(u) + rest) == ScanWalk(rest)
  {
    if !u.Coded? {
      RunOfMarker(u.fill, if u.StuffedZero? then STUFFED else u.marker, rest);
      hide FillRun, HeaderWalk, Marker;
    }
  }

  lemma ScanMarker(rest: Bytes)
    requires 0 < FillRun(rest) < |rest|
    ensures ScanWalk(rest) ==
              if InScan(rest[FillRun(rest)]) then ScanWalk(rest[FillRun(rest) + 1..]) else HeaderWalk(rest, true)
  {
  }

  lemma {:induction false} ScanComplete(units: seq<Unit>, items: seq<Item>, fill: nat)
    requires forall k :: 0 <= k < |units| ==> ValidUnit(units[k])
    requires forall k :: 0 <= k < |items| ==> ValidItem(items[k])
    ensures ScanWalk(UnitsBytes(units) + TailBytes(items, fill))
    decreases |items|, 1 + |units|
  {
    hide HeaderWalk, ScanWalk, FillRun, ItemBytes;
    var tail := TailBytes(items, fill);
    if units != [] {
      ScanComplete(units[1..], items, fill);
      var rest := UnitsBytes(units[1..]) + tail;
      assert UnitsBytes(units) + tail == UnitBytes(units[0]) + rest;
      ScanUnit(units[0], rest);
    } else {
      assert UnitsBytes(units) + tail == tail;
      HeaderComplete(items, fill, true);
      if items == [] {
        LastMarker(fill);
        ScanMarker(tail);
      } else {
        FirstMarker(items, fill);
        ScanMarker(tail);
        if items[0].Standalone? && IsRestart(items[0].marker) {
          ScanComplete([], items[1..], fill);
          assert UnitsBytes([]) + TailBytes(items[1..], fill) == TailBytes(items[1..], fill);
        }
      }
    }
  }

  lemma FirstMarker(items: seq<Item>, fill: nat)
    requires items != [] && forall k :: 0 <= k < |items| ==> ValidItem(items[k])
    ensures var s := TailBytes(items, fill);
            && 0 < FillRun(s) < |s| && s[FillRun(s)] == MarkerOf(items[0])
            && (items[0].Standalone? ==> s[FillRun(s) + 1..] == TailBytes(items[1..], fill))
  {
    var tail := TailBytes(items[1..], fill);
    ItemSplit(items[0], tail);
    RunOfMarker(items[0].fill, MarkerOf(items[0]), ContentBytes(items[0]) + tail);
    hide ItemBytes, ContentBytes;
  }

  /** The walker accepts exactly the byte strings of the grammar. */
  lemma AcceptsExactlyTheGrammar(data: Bytes)
    ensures Accepts(data) <==> exists j :: ValidJpeg(j) && JpegBytes(j) == data
  {
    if Accepts(data) {
      var items, fill := HeaderSound(data[2..], false);
      assert data == data[..2] + data[2..];
      assert ValidJpeg(Jpeg(items, fill)) && JpegBytes(Jpeg(items, fill)) == data;
    }
    if j :| ValidJpeg(j) && JpegBytes(j) == data {
      HeaderComplete(j.items, j.fill, false);
      assert data[2..] == TailBytes(j.items, j.fill);
      TailLength(j.items, j.fill);
    }
  }

  lemma TailLength(items: seq<Item>, fill: nat)
    requires forall k :: 0 <= k < |items| ==> ValidItem(items[k])
    ensures |TailBytes(items, fill)| >= 2
  {
    if items == [] {
      LastMarker(fill);
    } else {
      FirstMarker(items, fill);
    }
  }

  // ---------------------------------------------------------------- prefix-freedom

  lemma {:induction false} RunExtends(s: Bytes, t: Bytes)
    requires FillRun(s) < |s|
    ensures FillRun(s + t) == FillRun(s)
  {
    if s[0] == FF {
      RunExtends(s[1..], t);
      assert (s + t)[1..] == s[1..] + t;
    }
  }

  lemma {:induction false} HeaderNotExtended(s: Bytes, t: Bytes, sawScan: bool)
    requires HeaderWalk(s, sawScan) && t != []
    ensures !HeaderWalk(s + t, sawScan)
    decreases |s|, 0
  {
    hide AfterMarker;
    var n := FillRun(s);
    RunExtends(s, t);
    hide FillRun;
    assert (s + t)[n] == s[n] && (s + t)[n + 1..] == s[n + 1..] + t;
    AfterMarkerNotExtended(s[n], s[n + 1..], t, sawScan);
  }

  lemma {:induction false} AfterMarkerNotExtended(m: Byte, after: Bytes, t: Bytes, sawScan: bool)
    requires AfterMarker(m, after, sawScan) && t != []
    ensures !AfterMarker(m, after + t, sawScan)
    decreases |after|, 2
  {
    hide HeaderWalk, ScanWalk;
    if m == TEM || IsRestart(m) {
      HeaderNotExtended(after, t, sawScan);
    } else if m != EOI {
      var length := SegmentLength(after);
      assert SegmentLength(after + t) == length && (after + t)[length..] == after[length..] + t;
      if m == SOS { ScanNotExtended(after[length..], t); } else { HeaderNotExtended(after[length..], t, sawScan); }
    }
  }

  lemma {:induction false} ScanNotExtended(s: Bytes, t: Bytes)
    requires ScanWalk(s) && t != []
    ensures !ScanWalk(s + t)
    decreases |s|, 1
  {
    if s[0] != FF {
      assert (s + t)[1..] == s[1..] + t;
      ScanNotExtended(s[1..], t);
    } else {
      RunExtends(s, t);
      var n := FillRun(s);
      assert (s + t)[n + 1..] == s[n + 1..] + t;
      if InScan(s[n]) { ScanNotExtended(s[n + 1..], t); } else { HeaderNotExtended(s, t, true); }
    }
  }

  /** No accepted file is a proper prefix of another: a truncation or any trailing byte is rejected. */
  lemma AcceptedSetIsPrefixFree(a: Bytes, b: Bytes)
    requires Accepts(a) && Accepts(b) && a <= b
    ensures a == b
  {
    if a != b {
      var t := b[|a|..];
      assert b == a + t && b[2..] == a[2..] + t;
      HeaderNotExtended(a[2..], t, false);
    }
  }

  // ---------------------------------------------------------------- the loops

  lemma {:induction false} RunIs(s: Bytes, n: nat)
    requires n <= |s| && (n < |s| ==> s[n] != FF) && forall k :: 0 <= k < n ==> s[k] == FF
    ensures FillRun(s) == n
  {
  }

  /** Step over fill bytes. */
  method SkipFill(data: Bytes, start: nat) returns (offset: nat)
    requires start <= |data|
    ensures offset == start + FillRun(data[start..]) <= |data|
  {
    offset := start;
    while offset < |data| && data[offset] == FF
      invariant start <= offset <= |data|
      invariant forall k :: start <= k < offset ==> data[k] == FF
    {
      offset := offset + 1;
    }
    RunIs(data[start..], offset - start);
  }

  /** Walk entropy-coded data up to the marker that ends it; fails if there is none. */
  method WalkScan(data: Bytes, start: nat) returns (ok: bool, offset: nat)
    requires start <= |data|
    ensures start <= offset <= |data|
    ensures ScanWalk(data[start..]) == (ok && HeaderWalk(data[offset..], true))
  {
    offset := start;
    while offset < |data|
      invariant start <= offset <= |data|
      invariant ScanWalk(data[start..]) == ScanWalk(data[offset..])
    {
      if data[offset] != FF {
        assert data[offset..][1..] == data[offset + 1..];
        offset := offset + 1;
        continue;
      }
      var markerStart := offset;
      offset := SkipFill(data, offset);
      if offset >= |data| {
        return false, offset;
      }
      var marker := data[offset];
      assert data[markerStart..][offset - markerStart + 1..] == data[offset + 1..];
      if marker == STUFFED {
        offset := offset + 1;
        continue;
      }
      if IsRestart(marker) {
        offset := offset + 1;
        continue;
      }
      return true, markerStart;
    }
    return false, offset;
  }

  /** One step of the walk, in terms of offsets into the whole data. */
  lemma MarkerAt(data: Bytes, start: nat, offset: nat, sawScan: bool)
    requires start < |data| && data[start] == FF && offset == start + FillRun(data[start..]) <= |data|
    ensures HeaderWalk(data[start..], sawScan)
            == (offset < |data| && AfterMarker(data[offset], data[offset + 1..], sawScan))
  {
    if offset < |data| {
      assert data[start..][offset - start + 1..] == data[offset + 1..];
    }
    hide AfterMarker;
  }

  lemma SegmentAt(data: Bytes, offset: nat, m: Byte, sawScan: bool)
    requires offset + 2 <= |data| && m != EOI && m != STUFFED && m != SOI && m != TEM && !IsRestart(m)
    ensures var length := 256 * (data[offset] as nat) + data[offset + 1];
            AfterMarker(m, data[offset..], sawScan)
            == (2 <= length && offset + length <= |data|
                && if m == SOS then ScanWalk(data[offset + length..]) else HeaderWalk(data[offset + length..], sawScan))
  {
    var length := SegmentLength(data[offset..]);
    if offset + length <= |data| {
      assert data[offset..][length..] == data[offset + length..];
    }
    hide HeaderWalk, ScanWalk;
  }

  method StrictJpegContainer(data: Bytes) returns (ok: bool)
    ensures ok == Accepts(data)
  {
    hide HeaderWalk, ScanWalk, FillRun;
    var size := |data|;
    if size < 4 || data[..2] != [FF, SOI] {
      return false;
    }
    var offset, sawScan, inScan := 2, false, false;
    while offset < size
      invariant 2 <= offset <= size && (inScan ==> sawScan)
      invariant Accepts(data) == (if inScan then ScanWalk(data[offset..]) else HeaderWalk(data[offset..], sawScan))
      decreases size - offset, inScan
    {
      if inScan {
        var found;
        found, offset := WalkScan(data, offset);
        if !found {
          return false;
        }
        inScan := false;
      }
      if offset >= size || data[offset] != FF {
        NoMarkerAt(data, offset, sawScan);
        return false;
      }
      ghost var start := offset;
      offset := SkipFill(data, offset);
      MarkerAt(data, start, offset, sawScan);
      if offset >= size {
        return false;
      }
      var marker := data[offset];
      offset := offset + 1;
      if marker == EOI {
        return sawScan && offset == size;
      }
      if marker == STUFFED || marker == SOI {
        return false;
      }
      if marker == TEM || IsRestart(marker) {
        continue;
      }
      if offset + 2 > size {
        return false;
      }
      SegmentAt(data, offset, marker, sawScan);
      var segmentLength := 256 * (data[offset] as nat) + data[offset + 1];
      if segmentLength < 2 {
        return false;
      }
      var segmentEnd := offset + segmentLength;
      if segmentEnd > size {
        return false;
      }
      if marker == SOS {
        sawScan := true;
        inScan := true;
      }
      offset := segmentEnd;
    }
    NoMarkerAt(data, offset, sawScan);
    return false;
  }

  lemma NoMarkerAt(data: Bytes, offset: nat, sawScan: bool)
    requires offset <= |data| && (offset < |data| ==> data[offset] != FF)
    ensures !HeaderWalk(data[offset..], sawScan) && (offset == |data| ==> !ScanWalk(data[offset..]))
  {
  }
}
