/** The streaming slicer: fixed-size slices of a stream that arrives in chunks of any size. */
module Slicer {
  import opened Basics

  // ---------------------------------------------------------------- what slicing a stream means

  /** All whole slices of size n, in order. */
  function Slices<T>(s: seq<T>, n: nat): seq<seq<T>>
    requires n > 0
    decreases |s|
  {
    if |s| < n then [] else [s[..n]] + Slices(s[n..], n)
  }

  /** What is left after them. */
  function Rest<T>(s: seq<T>, n: nat): (rest: seq<T>)
    requires n > 0
    ensures |rest| < n
    decreases |s|
  {
    if |s| < n then s else Rest(s[n..], n)
  }

  function Flatten<T>(ss: seq<seq<T>>): seq<T> {
    if ss == [] then [] else ss[0] + Flatten(ss[1..])
  }

  /** The slices all have size n, and with the remainder they are the stream again. */
  lemma {:induction false} SlicesAndRest<T>(s: seq<T>, n: nat)
    requires n > 0
    ensures Flatten(Slices(s, n)) + Rest(s, n) == s
    ensures forall i :: 0 <= i < |Slices(s, n)| ==> |Slices(s, n)[i]| == n
    decreases |s|
  {
    if |s| >= n {
      SlicesAndRest(s[n..], n);
      assert Slices(s, n)[1..] == Slices(s[n..], n);
      assert s == s[..n] + s[n..];
    }
  }

  /** Nothing else has that shape, so the slicing of a stream is determined. */
  lemma {:induction false} SlicingIsUnique<T>(s: seq<T>, n: nat, slices: seq<seq<T>>, rest: seq<T>)
    requires n > 0 && |rest| < n && Flatten(slices) + rest == s
    requires forall i :: 0 <= i < |slices| ==> |slices[i]| == n
    ensures slices == Slices(s, n) && rest == Rest(s, n)
    decreases |slices|
  {
    if slices != [] {
      assert s == slices[0] + (Flatten(slices[1..]) + rest);
      assert s[n..] == Flatten(slices[1..]) + rest && s[..n] == slices[0];
      SlicingIsUnique(s[n..], n, slices[1..], rest);
    }
  }

  /** Cutting a stream and carrying the remainder over is cutting the longer stream. */
  lemma {:induction false} SlicesContinue<T>(s: seq<T>, more: seq<T>, n: nat)
    requires n > 0
    ensures Slices(s + more, n) == Slices(s, n) + Slices(Rest(s, n) + more, n)
    ensures Rest(s + more, n) == Rest(Rest(s, n) + more, n)
    decreases |s|
  {
    if |s| >= n {
      SlicesContinue(s[n..], more, n);
      assert (s + more)[n..] == s[n..] + more && (s + more)[..n] == s[..n];
    }
  }

  /** The slices emitted and the remainder kept over a whole list of chunks. */
  function Feed<T>(chunks: seq<seq<T>>, n: nat): (seq<seq<T>>, seq<T>)
    requires n > 0
  {
    if chunks == [] then ([], [])
    else
      var (slices, rest) := Feed(chunks[..|chunks| - 1], n);
      var last := rest + chunks[|chunks| - 1];
      (slices + Slices(last, n), Rest(last, n))
  }

  lemma {:induction false} FlattenConcat<T>(a: seq<seq<T>>, b: seq<seq<T>>)
    ensures Flatten(a + b) == Flatten(a) + Flatten(b)
  {
    if a == [] {
      assert a + b == b;
    } else {
      FlattenConcat(a[1..], b);
      assert (a + b)[1..] == a[1..] + b;
    }
  }

  /** What is emitted depends on the stream alone, not on how it was cut into chunks. */
  lemma {:induction false} OutputIgnoresChunking<T>(chunks: seq<seq<T>>, n: nat)
    requires n > 0
    ensures Feed(chunks, n) == (Slices(Flatten(chunks), n), Rest(Flatten(chunks), n))
    decreases |chunks|
  {
    if chunks != [] {
      var init, last := chunks[..|chunks| - 1], chunks[|chunks| - 1];
      OutputIgnoresChunking(init, n);
      assert chunks == init + [last];
      FlattenConcat(init, [last]);
      assert Flatten([last]) == last + Flatten<T>([]) == last;
      SlicesContinue(Flatten(init), last, n);
    }
  }

  // ---------------------------------------------------------------- the context and the loop

  class SliceContext<T> {
    const sliceSize: nat
    var lastRemainder: Option<seq<T>>
    var slicedSampleNum: nat
    var nextSliceStartId: int
    var lastSliceSize: nat

    /** What is carried over to the next chunk. */
    function Carried(): seq<T>
      reads this
    {
      if lastRemainder.Some? then lastRemainder.value else []
    }

    constructor (sliceSize: nat)
      requires sliceSize > 0
      ensures this.sliceSize == sliceSize && lastRemainder == None && slicedSampleNum == 0 && nextSliceStartId == 0
      ensures lastSliceSize == 0
    {
      this.sliceSize := sliceSize;
      lastRemainder, slicedSampleNum, nextSliceStartId, lastSliceSize := None, 0, 0, 0;
    }

    method Flush() returns (remainder: Option<seq<T>>)
      modifies this
      ensures remainder == old(lastRemainder)
      ensures lastRemainder == None && slicedSampleNum == 0 && nextSliceStartId == 0 && lastSliceSize == 0
    {
      remainder := lastRemainder;
      lastRemainder, slicedSampleNum, nextSliceStartId, lastSliceSize := None, 0, 0, 0;
    }

    method UpdateStartId(dataStartId: int, forceUpdate: bool)
      modifies this
      ensures nextSliceStartId == if old(slicedSampleNum) == 0 || forceUpdate then dataStartId else old(nextSliceStartId)
      ensures lastRemainder == old(lastRemainder) && slicedSampleNum == old(slicedSampleNum)
      ensures lastSliceSize == old(lastSliceSize)
    {
      if slicedSampleNum == 0 || forceUpdate {
        nextSliceStartId := dataStartId;
      }
    }

    /** Where the slice emitted last began. */
    function LastSliceStart(): int
      reads this
    {
      nextSliceStartId - lastSliceSize
    }

    /** Note one slice about to be emitted. */
    method Advance(size: nat)
      modifies `lastSliceSize, `nextSliceStartId
      ensures nextSliceStartId == old(nextSliceStartId) + size && LastSliceStart() == old(nextSliceStartId)
    {
      lastSliceSize := size;
      nextSliceStartId := nextSliceStartId + size;
    }

    /**
     Feed one chunk and drain the generator. `starts` is what the context says, at each slice, about where
     that slice began; it is where the slice stands in the stream.
     */
    method SliceData(data: seq<T>) returns (slices: seq<seq<T>>, starts: seq<int>)
      requires sliceSize > 0
      modifies this
      ensures slices == Slices(old(Carried()) + data, sliceSize)
      ensures Carried() == Rest(old(Carried()) + data, sliceSize)
      ensures lastRemainder.Some? ==> lastRemainder.value != []
      ensures slicedSampleNum == old(slicedSampleNum) + |data|
      ensures nextSliceStartId == old(nextSliceStartId) + |old(Carried()) + data| - |Carried()|
      ensures Located(old(Carried()) + data, old(nextSliceStartId), sliceSize, slices, starts, nextSliceStartId)
    {
      hide Located, Slices, Rest, Cut, LastSliceStart;
      ghost var stream, start := Carried() + data, nextSliceStartId;
      var remainder := Carried();
      var remainderSize := |remainder|;
      lastRemainder := None;
      var inputSize := |data|;
      slicedSampleNum := slicedSampleNum + inputSize;
      var sliceStart: int := -remainderSize;
      slices, starts := [], [];
      CutNothing(stream, start, sliceSize);
      while sliceStart + sliceSize <= inputSize
        invariant -remainderSize <= sliceStart <= inputSize
        invariant lastRemainder == None && slicedSampleNum == old(slicedSampleNum) + inputSize
        invariant nextSliceStartId == start + remainderSize + sliceStart
        invariant Cut(stream, start, sliceSize, slices, starts, remainderSize + sliceStart)
      {
        var result := CutOne(remainder, data, sliceStart, sliceSize);
        CutNext(stream, start, sliceSize, slices, starts, remainderSize + sliceStart);
        slices := slices + [result];
        Advance(|result|);
        starts := starts + [LastSliceStart()];
        sliceStart := sliceStart + sliceSize;
      }
      CutAll(stream, start, sliceSize, slices, starts, remainderSize + sliceStart);
      assert |stream[remainderSize + sliceStart..]| == inputSize - sliceStart;
      lastRemainder := KeepRest(remainder, data, sliceStart);
    }
  }

  lemma SliceStep<T>(s: seq<T>, n: nat)
    requires 0 < n <= |s|
    ensures Slices(s, n) == [s[..n]] + Slices(s[n..], n) && Rest(s, n) == Rest(s[n..], n)
  {
  }

  lemma SliceEnd<T>(s: seq<T>, n: nat)
    requires |s| < n
    ensures Slices(s, n) == [] && Rest(s, n) == s
  {
  }

  /** What is left from `from` on, if anything. */
  method KeepRest<T>(remainder: seq<T>, data: seq<T>, from: int) returns (kept: Option<seq<T>>)
    requires -|remainder| <= from <= |data|
    ensures kept == if from == |data| && from >= 0 then None else Some((remainder + data)[|remainder| + from..])
  {
    kept := None;
    if from < 0 {
      var head := remainder[|remainder| + from..|remainder|];
      kept := Some(if |data| > 0 then head + data else head);
      assert kept.value == (remainder + data)[|remainder| + from..];
    } else if from < |data| {
      kept := Some(data[from..|data|]);
      assert kept.value == (remainder + data)[|remainder| + from..];
    }
  }

  /** A slice is the stretch of the stream that begins at the given offset. */
  predicate StandsAt<T(==)>(stream: seq<T>, offset: int, n: nat, slice: seq<T>) {
    0 <= offset <= offset + n <= |stream| && slice == stream[offset..offset + n]
  }

  /** The slices stand in the stream at the places said, one behind the other, up to `next`. */
  predicate Located<T(==)>(stream: seq<T>, start: int, n: nat, slices: seq<seq<T>>, starts: seq<int>, next: int) {
    && |starts| == |slices|
    && (forall i :: 0 <= i < |starts| ==> StandsAt(stream, starts[i] - start, n, slices[i]))
    && (forall i :: 0 <= i < |starts| ==> starts[i] == if i == 0 then start else starts[i - 1] + n)
    && next == if starts == [] then start else starts[|starts| - 1] + n
  }

  /** The stream is cut up to `at`; the rest of its slicing is that of what follows. */
  predicate Cut<T(==)>(stream: seq<T>, start: int, n: nat, slices: seq<seq<T>>, starts: seq<int>, at: nat)
    requires n > 0
  {
    && at <= |stream|
    && Slices(stream, n) == slices + Slices(stream[at..], n) && Rest(stream, n) == Rest(stream[at..], n)
    && Located(stream, start, n, slices, starts, start + at)
  }

  lemma CutNothing<T>(stream: seq<T>, start: int, n: nat)
    requires n > 0
    ensures Cut(stream, start, n, [], [], 0)
  {
    assert stream[0..] == stream;
  }

  lemma CutNext<T>(stream: seq<T>, start: int, n: nat, slices: seq<seq<T>>, starts: seq<int>, at: nat)
    requires n > 0 && Cut(stream, start, n, slices, starts, at) && at + n <= |stream|
    ensures Cut(stream, start, n, slices + [stream[at..at + n]], starts + [start + at], at + n)
  {
    var slice := stream[at..at + n];
    assert stream[at..][..n] == slice && stream[at..][n..] == stream[at + n..];
    SliceStep(stream[at..], n);
    LocatedNext(stream, start, n, slices, starts, start + at, slice);
    hide Located, Slices, Rest;
    assert slices + ([slice] + Slices(stream[at + n..], n)) == slices + [slice] + Slices(stream[at + n..], n);
  }

  lemma CutAll<T>(stream: seq<T>, start: int, n: nat, slices: seq<seq<T>>, starts: seq<int>, at: nat)
    requires n > 0 && Cut(stream, start, n, slices, starts, at) && at + n > |stream|
    ensures slices == Slices(stream, n) && stream[at..] == Rest(stream, n)
    ensures Located(stream, start, n, slices, starts, start + at)
  {
    SliceEnd(stream[at..], n);
  }

  lemma LocatedNext<T>(stream: seq<T>, start: int, n: nat, slices: seq<seq<T>>, starts: seq<int>, next: int, slice: seq<T>)
    requires Located(stream, start, n, slices, starts, next) && StandsAt(stream, next - start, n, slice)
    ensures Located(stream, start, n, slices + [slice], starts + [next], next + n)
  {
    var (slices', starts') := (slices + [slice], starts + [next]);
    assert forall i :: 0 <= i < |starts| ==> slices'[i] == slices[i] && starts'[i] == starts[i];
    assert slices'[|starts|] == slice && starts'[|starts|] == next;
  }

  /** Cut one slice that begins `from` items after the start of the data, in the remainder if negative. */
  method CutOne<T>(remainder: seq<T>, data: seq<T>, from: int, n: nat) returns (result: seq<T>)
    requires -|remainder| <= from && from + n <= |data|
    ensures result == (remainder + data)[|remainder| + from..|remainder| + from + n]
  {
    var end := from + n;
    if from < 0 {
      if end < 0 {
        result := remainder[|remainder| + from..|remainder| + end];
      } else {
        result := remainder[|remainder| + from..|remainder|];
        if end > 0 {
          result := result + data[0..end];
        }
      }
    } else {
      result := data[from..end];
    }
  }
}
