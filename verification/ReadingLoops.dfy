/** The loops that build the reading order, and the bounded search for forward paths of related runs. */
module ReadingLoops {
  import opened Basics
  import opened Collections
  import opened Sorting
  import opened ReadingOrder

  // ---------------------------------------------------------------- building lines and runs

  /** Collect the line groups a geometry fits, and pick the nearest. */
  method SelectLine(groups: seq<seq<Geometry>>, g: Geometry) returns (selected: Option<nat>)
    requires ProperGroups(groups) && HasExtent(g)
    ensures selected == SelectGroup(groups, g)
  {
    selected := None;
    for index := 0 to |groups|
      invariant selected == SelectGroup(groups[..index], g)
    {
      assert groups[..index + 1][..index] == groups[..index];
      if SameVisualLine(g, groups[index]) {
        var distance := Abs(MeanCenter(groups[index]) - CenterY(g.box));
        if selected.None? || distance < Abs(MeanCenter(groups[selected.value]) - CenterY(g.box)) {
          selected := Some(index);
        }
      }
    }
    assert groups[..|groups|] == groups;
  }

  /** Begin a new run behind each gap that is too wide. */
  method CutRuns(ordered: seq<Geometry>) returns (groups: seq<seq<Geometry>>)
    ensures groups == RunGroups(ordered)
  {
    hide Splits;
    groups := [];
    for i := 0 to |ordered|
      invariant groups == RunGroups(ordered[..i])
    {
      assert ordered[..i + 1][..i] == ordered[..i];
      var g := ordered[i];
      if groups == [] {
        groups := [[g]];
      } else {
        var k := |groups| - 1;
        if Splits(groups[k][|groups[k]| - 1], g) {
          groups := groups + [[g]];
        } else {
          groups := groups[k := groups[k] + [g]];
        }
      }
    }
    assert ordered[..|ordered|] == ordered;
  }

  method RunsOfLine(lineIndex: nat, gs: seq<Geometry>) returns (runs: seq<Run>)
    ensures runs == RunsForLine(lineIndex, gs)
  {
    hide Sort, RunGroups, BoxOfAll;
    var ordered := Sort(gs, RunKey);
    var groups := CutRuns(ordered);
    runs := [];
    for i := 0 to |groups|
      invariant |runs| == i
      invariant forall k :: 0 <= k < i ==> runs[k] == Run(lineIndex, groups[k], BoxOfAll(groups[k]))
    {
      runs := runs + [Run(lineIndex, groups[i], BoxOfAll(groups[i]))];
    }
  }

  method GroupIntoLines(ordered: seq<Geometry>) returns (groups: seq<seq<Geometry>>)
    requires AllExtended(ordered)
    ensures groups == LineGroups(ordered)
  {
    groups := [];
    for i := 0 to |ordered|
      invariant groups == LineGroups(ordered[..i])
    {
      assert ordered[..i + 1][..i] == ordered[..i];
      var selected := SelectLine(groups, ordered[i]);
      if selected.None? {
        groups := groups + [[ordered[i]]];
      } else {
        groups := groups[selected.value := groups[selected.value] + [ordered[i]]];
      }
    }
    assert ordered[..|ordered|] == ordered;
  }

  method ReconstructReadingOrder(spans: seq<Span>) returns (reading: Reading)
    ensures reading == Reconstruct(spans)
  {
    var geometries := CollectGeometries(spans);
    GeometriesExtend(spans);
    SortExtends(geometries, PageKey);
    var groups := GroupIntoLines(Sort(geometries, PageKey));
    SortProper(groups, GroupKey);
    var sorted := Sort(groups, GroupKey);
    hide Sort, LineGroups, RunsForLine, LinesOf;
    var lines: seq<Line> := [];
    assert LinesOf(sorted[..0]) == [];
    for index := 0 to |sorted|
      invariant lines == LinesOf(sorted[..index])
    {
      LinesNext(sorted, index);
      var runs := RunsOfLine(index, sorted[index]);
      lines := lines + [Line(index, runs, BoxOfAll(sorted[index]))];
    }
    assert sorted[..|sorted|] == sorted;
    reading := Reading(lines);
  }

  lemma LinesNext(groups: seq<seq<Geometry>>, index: nat)
    requires ProperGroups(groups) && index < |groups|
    ensures LinesOf(groups[..index + 1]) == LinesOf(groups[..index]) + [LineOf(index, groups[index])]
  {
    hide LineOf;
  }

  method CollectGeometries(spans: seq<Span>) returns (gs: seq<Geometry>)
    ensures gs == Geometries(spans)
  {
    gs := [];
    for i := 0 to |spans|
      invariant gs == Geometries(spans[..i])
    {
      assert spans[..i + 1][..i] == spans[..i];
      var g := GeometryOf(spans[i]);
      if g.Some? {
        gs := gs + [g.value];
      }
    }
    assert spans[..|spans|] == spans;
  }

  // ---------------------------------------------------------------- related runs

  predicate Adjacent(reading: Reading, first: nat, second: nat) {
    && second == first + 1 && second < |reading.lines|
    && var (a, b) := (reading.lines[first].box, reading.lines[second].box);
       Max(0.0, b.minY - a.maxY) <= Max(MAX_ADJACENT_LINE_GAP, 1.5 * Max(Height(a), Height(b)))
  }

  /** Two runs overlap horizontally or begin near each other. */
  predicate NearRuns(source: Run, run: Run) {
    || Min(source.box.maxX, run.box.maxX) - Max(source.box.minX, run.box.minX) > 0.0
    || Abs(source.box.minX - run.box.minX) <= MAX_ADJACENT_LEFT_OFFSET
  }

  function NearOf(source: Run, runs: seq<Run>): seq<Run> {
    if runs == [] then []
    else NearOf(source, runs[..|runs| - 1]) + (if NearRuns(source, runs[|runs| - 1]) then [runs[|runs| - 1]] else [])
  }

  function RelatedKey(source: Run): Run -> seq<real> {
    (run: Run) => [Abs(source.box.minX - run.box.minX), run.box.minX, run.box.maxX]
  }

  /** The runs of a neighbouring line that belong with a run, nearest first. */
  function RelatedRuns(reading: Reading, source: Run, target: int): seq<Run> {
    if target < 0 || !(target == source.lineIndex + 1 || target == source.lineIndex - 1) then []
    else if !Adjacent(reading, if target < source.lineIndex then target else source.lineIndex,
                      if target < source.lineIndex then source.lineIndex else target) then []
    else Sort(NearOf(source, reading.lines[target].runs), RelatedKey(source))
  }

  lemma {:induction false} NearOfIs(source: Run, runs: seq<Run>, r: Run)
    ensures r in NearOf(source, runs) <==> r in runs && NearRuns(source, r)
  {
    if runs != [] {
      NearOfIs(source, runs[..|runs| - 1], r);
      assert runs == runs[..|runs| - 1] + [runs[|runs| - 1]];
    }
  }

  /** Exactly the near runs of an adjacent neighbouring line are related. */
  lemma RelatedExactly(reading: Reading, source: Run, target: nat, r: Run)
    ensures r in RelatedRuns(reading, source, target) <==>
              && (target == source.lineIndex + 1 || target + 1 == source.lineIndex)
              && Adjacent(reading, if target < source.lineIndex then target else source.lineIndex,
                          if target < source.lineIndex then source.lineIndex else target)
              && r in reading.lines[target].runs && NearRuns(source, r)
  {
    if (target == source.lineIndex + 1 || target + 1 == source.lineIndex)
       && Adjacent(reading, if target < source.lineIndex then target else source.lineIndex,
                   if target < source.lineIndex then source.lineIndex else target) {
      var near := NearOf(source, reading.lines[target].runs);
      SortMultiset(near, RelatedKey(source));
      NearOfIs(source, reading.lines[target].runs, r);
      assert r in multiset(Sort(near, RelatedKey(source))) <==> r in multiset(near);
    }
  }

  // ---------------------------------------------------------------- forward paths

  /** A path from `start` along related runs of consecutive lines. */
  predicate IsChain(reading: Reading, start: Run, path: seq<Run>, maximumLines: nat) {
    && 1 <= |path| <= maximumLines && path[0] == start
    && forall i :: 0 <= i < |path| - 1 ==> path[i + 1] in RelatedRuns(reading, path[i], path[i].lineIndex + 1)
  }

  /** Every extension of a path by one related run is among the paths, unless the path is as long as allowed. */
  predicate Expanded(reading: Reading, paths: seq<seq<Run>>, path: seq<Run>, maximumLines: nat)
    requires path != []
  {
    |path| < maximumLines ==>
      forall r :: r in RelatedRuns(reading, path[|path| - 1], path[|path| - 1].lineIndex + 1) ==> path + [r] in paths
  }

  predicate AllChains(reading: Reading, start: Run, paths: seq<seq<Run>>, maximumLines: nat) {
    forall i :: 0 <= i < |paths| ==> IsChain(reading, start, paths[i], maximumLines)
  }

  lemma ExtendChain(reading: Reading, start: Run, path: seq<Run>, r: Run, maximumLines: nat)
    requires IsChain(reading, start, path, maximumLines) && |path| < maximumLines
    requires r in RelatedRuns(reading, path[|path| - 1], path[|path| - 1].lineIndex + 1)
    ensures IsChain(reading, start, path + [r], maximumLines)
  {
    hide RelatedRuns;
  }

  function Extensions(path: seq<Run>, related: seq<Run>): (paths: seq<seq<Run>>)
    ensures |paths| == |related| && forall i :: 0 <= i < |paths| ==> paths[i] == path + [related[i]]
  {
    if related == [] then []
    else Extensions(path, related[..|related| - 1]) + [path + [related[|related| - 1]]]
  }

  predicate NoEmptyPath(paths: seq<seq<Run>>) {
    forall i :: 0 <= i < |paths| ==> paths[i] != []
  }

  /** Take the first path of the frontier, add its extensions as far as there is room, go on. */
  function PathSearch(reading: Reading, paths: seq<seq<Run>>, frontier: seq<seq<Run>>, maximumLines: nat): (r: seq<seq<Run>>)
    requires |paths| <= MAX_FORWARD_RUN_PATHS && NoEmptyPath(frontier)
    ensures |paths| <= |r| <= MAX_FORWARD_RUN_PATHS && (paths != [] ==> r[0] == paths[0])
    decreases MAX_FORWARD_RUN_PATHS - |paths|, |frontier|
  {
    if frontier == [] || |paths| == MAX_FORWARD_RUN_PATHS then paths
    else if |frontier[0]| >= maximumLines then PathSearch(reading, paths, frontier[1..], maximumLines)
    else
      var added := NewPaths(reading, frontier[0], MAX_FORWARD_RUN_PATHS - |paths|);
      PathSearch(reading, paths + added, frontier[1..] + added, maximumLines)
  }

  /** The first extensions of a path by one related run of the next line. */
  function NewPaths(reading: Reading, path: seq<Run>, room: nat): (added: seq<seq<Run>>)
    requires path != []
    ensures |added| <= room && NoEmptyPath(added)
  {
    var last := path[|path| - 1];
    Extensions(path, FirstOf(RelatedRuns(reading, last, last.lineIndex + 1), room))
  }

  /** The forward paths from a run, at most sixteen. */
  function ForwardPaths(reading: Reading, start: Run, maximumLines: nat): (paths: seq<seq<Run>>)
    ensures 1 <= |paths| <= MAX_FORWARD_RUN_PATHS && paths[0] == [start]
  {
    PathSearch(reading, [[start]], [[start]], maximumLines)
  }

  /** Append a path's extensions to the paths and to the frontier, as far as there is room. */
  method ExtendPath(paths: seq<seq<Run>>, frontier: seq<seq<Run>>, path: seq<Run>, related: seq<Run>)
    returns (morePaths: seq<seq<Run>>, moreFrontier: seq<seq<Run>>)
    requires |paths| < MAX_FORWARD_RUN_PATHS
    ensures var added := Extensions(path, FirstOf(related, MAX_FORWARD_RUN_PATHS - |paths|));
            morePaths == paths + added && moreFrontier == frontier + added
  {
    morePaths, moreFrontier := paths, frontier;
    ghost var room := MAX_FORWARD_RUN_PATHS - |paths|;
    for i := 0 to |related|
      invariant i <= room
      invariant morePaths == paths + Extensions(path, related[..i]) && moreFrontier == frontier + Extensions(path, related[..i])
    {
      if |morePaths| >= MAX_FORWARD_RUN_PATHS {
        assert related[..i] == FirstOf(related, room);
        return;
      }
      assert related[..i + 1][..i] == related[..i];
      var extended := path + [related[i]];
      morePaths, moreFrontier := morePaths + [extended], moreFrontier + [extended];
    }
    assert related[..|related|] == related;
  }

  /** The breadth-first search terminates: each turn adds a path or shortens the frontier. */
  method ForwardRunPaths(reading: Reading, start: Run, maximumLines: nat) returns (paths: seq<seq<Run>>)
    requires 1 <= maximumLines <= 3
    ensures paths == ForwardPaths(reading, start, maximumLines)
  {
    hide RelatedRuns, FirstOf;
    paths := [[start]];
    var frontier := [[start]];
    while frontier != [] && |paths| < MAX_FORWARD_RUN_PATHS
      invariant |paths| <= MAX_FORWARD_RUN_PATHS && NoEmptyPath(frontier)
      invariant PathSearch(reading, paths, frontier, maximumLines) == ForwardPaths(reading, start, maximumLines)
      decreases MAX_FORWARD_RUN_PATHS - |paths|, |frontier|
    {
      var path := frontier[0];
      if |path| >= maximumLines {
        frontier := frontier[1..];
      } else {
        var last := path[|path| - 1];
        paths, frontier := ExtendPath(paths, frontier[1..], path, RelatedRuns(reading, last, last.lineIndex + 1));
      }
    }
  }

  /** Every path found is a chain. */
  lemma {:induction false} PathSearchIsSound(
      reading: Reading, start: Run, paths: seq<seq<Run>>, frontier: seq<seq<Run>>, maximumLines: nat)
    requires |paths| <= MAX_FORWARD_RUN_PATHS && NoEmptyPath(frontier)
    requires AllChains(reading, start, paths, maximumLines) && AllChains(reading, start, frontier, maximumLines)
    ensures AllChains(reading, start, PathSearch(reading, paths, frontier, maximumLines), maximumLines)
    decreases MAX_FORWARD_RUN_PATHS - |paths|, |frontier|
  {
    hide RelatedRuns;
    if frontier != [] && |paths| < MAX_FORWARD_RUN_PATHS {
      if |frontier[0]| >= maximumLines {
        PathSearchIsSound(reading, start, paths, frontier[1..], maximumLines);
      } else {
        var added := NewPaths(reading, frontier[0], MAX_FORWARD_RUN_PATHS - |paths|);
        NewPathsAreChains(reading, start, frontier[0], MAX_FORWARD_RUN_PATHS - |paths|, maximumLines);
        hide NewPaths, IsChain;
        PathSearchIsSound(reading, start, paths + added, frontier[1..] + added, maximumLines);
      }
    }
  }

  lemma NewPathsAreChains(reading: Reading, start: Run, path: seq<Run>, room: nat, maximumLines: nat)
    requires IsChain(reading, start, path, maximumLines) && |path| < maximumLines
    ensures AllChains(reading, start, NewPaths(reading, path, room), maximumLines)
  {
    hide RelatedRuns;
    var last := path[|path| - 1];
    var related := FirstOf(RelatedRuns(reading, last, last.lineIndex + 1), room);
    forall i | 0 <= i < |related| ensures IsChain(reading, start, path + [related[i]], maximumLines) {
      ExtendChain(reading, start, path, related[i], maximumLines);
    }
  }

  /** Every path is still to be extended, or has been. */
  predicate AllExpanded(reading: Reading, paths: seq<seq<Run>>, frontier: seq<seq<Run>>, maximumLines: nat) {
    forall p :: p in paths ==> p in frontier || (p != [] && Expanded(reading, paths, p, maximumLines))
  }

  lemma {:induction false} PathSearchExpands(
      reading: Reading, paths: seq<seq<Run>>, frontier: seq<seq<Run>>, maximumLines: nat)
    requires |paths| <= MAX_FORWARD_RUN_PATHS && NoEmptyPath(frontier)
    requires AllExpanded(reading, paths, frontier, maximumLines)
    ensures var r := PathSearch(reading, paths, frontier, maximumLines);
            |r| < MAX_FORWARD_RUN_PATHS ==> AllExpanded(reading, r, [], maximumLines)
    decreases MAX_FORWARD_RUN_PATHS - |paths|, |frontier|
  {
    hide RelatedRuns;
    if frontier != [] && |paths| < MAX_FORWARD_RUN_PATHS {
      assert frontier == [frontier[0]] + frontier[1..];
      if |frontier[0]| >= maximumLines {
        PathSearchExpands(reading, paths, frontier[1..], maximumLines);
      } else {
        var room := MAX_FORWARD_RUN_PATHS - |paths|;
        var added := NewPaths(reading, frontier[0], room);
        if |added| < room {
          PathIsExpanded(reading, paths, frontier, maximumLines);
          hide NewPaths, AllExpanded;
          PathSearchExpands(reading, paths + added, frontier[1..] + added, maximumLines);
        }
      }
    }
  }

  /** With room for all of its extensions a path is expanded. */
  lemma AddedExpands(reading: Reading, paths: seq<seq<Run>>, p: seq<Run>, maximumLines: nat)
    requires |paths| < MAX_FORWARD_RUN_PATHS && p != []
    requires |NewPaths(reading, p, MAX_FORWARD_RUN_PATHS - |paths|)| < MAX_FORWARD_RUN_PATHS - |paths|
    ensures Expanded(reading, paths + NewPaths(reading, p, MAX_FORWARD_RUN_PATHS - |paths|), p, maximumLines)
  {
    hide RelatedRuns;
    var added := NewPaths(reading, p, MAX_FORWARD_RUN_PATHS - |paths|);
    var related := RelatedRuns(reading, p[|p| - 1], p[|p| - 1].lineIndex + 1);
    forall r | r in related ensures p + [r] in paths + added {
      var i :| 0 <= i < |related| && related[i] == r;
      assert added[i] == p + [r];
    }
  }

  lemma PathIsExpanded(reading: Reading, paths: seq<seq<Run>>, frontier: seq<seq<Run>>, maximumLines: nat)
    requires |paths| < MAX_FORWARD_RUN_PATHS && NoEmptyPath(frontier) && frontier != []
    requires AllExpanded(reading, paths, frontier, maximumLines)
    requires |NewPaths(reading, frontier[0], MAX_FORWARD_RUN_PATHS - |paths|)| < MAX_FORWARD_RUN_PATHS - |paths|
    ensures var added := NewPaths(reading, frontier[0], MAX_FORWARD_RUN_PATHS - |paths|);
            AllExpanded(reading, paths + added, frontier[1..] + added, maximumLines)
  {
    hide RelatedRuns;
    var added := NewPaths(reading, frontier[0], MAX_FORWARD_RUN_PATHS - |paths|);
    var all := paths + added;
    assert frontier == [frontier[0]] + frontier[1..];
    AddedExpands(reading, paths, frontier[0], maximumLines);
    hide NewPaths, Expanded;
    forall p: seq<Run> | p in all && p !in frontier[1..] + added ensures p != [] && Expanded(reading, all, p, maximumLines) {
      if p != frontier[0] {
        assert p in paths && p !in frontier;
        ExpandedGrows(reading, paths, all, p, maximumLines);
      }
    }
  }

  /** Exactly chains are found, and unless the bound was reached, all of them. */
  lemma ForwardPathsAre(reading: Reading, start: Run, maximumLines: nat)
    requires maximumLines >= 1
    ensures AllChains(reading, start, ForwardPaths(reading, start, maximumLines), maximumLines)
    ensures |ForwardPaths(reading, start, maximumLines)| < MAX_FORWARD_RUN_PATHS ==>
              forall c :: IsChain(reading, start, c, maximumLines) ==> c in ForwardPaths(reading, start, maximumLines)
  {
    hide RelatedRuns, PathSearch;
    PathSearchIsSound(reading, start, [[start]], [[start]], maximumLines);
    PathSearchExpands(reading, [[start]], [[start]], maximumLines);
    var paths := ForwardPaths(reading, start, maximumLines);
    if |paths| < MAX_FORWARD_RUN_PATHS {
      assert paths[0] in paths;
      forall c | IsChain(reading, start, c, maximumLines) ensures c in paths {
        ChainsAreFound(reading, start, paths, c, maximumLines);
      }
    }
  }

  lemma ExpandedGrows(reading: Reading, before: seq<seq<Run>>, paths: seq<seq<Run>>, p: seq<Run>, maximumLines: nat)
    requires p != [] && Expanded(reading, before, p, maximumLines) && |before| <= |paths| && before == paths[..|before|]
    ensures Expanded(reading, paths, p, maximumLines)
  {
    hide RelatedRuns;
  }

  lemma ChainBasics(reading: Reading, start: Run, c: seq<Run>, maximumLines: nat)
    requires IsChain(reading, start, c, maximumLines)
    ensures 1 <= |c| <= maximumLines && c[0] == start
  {
  }

  lemma ChainShortens(reading: Reading, start: Run, c: seq<Run>, maximumLines: nat)
    requires IsChain(reading, start, c, maximumLines) && |c| > 1
    ensures var init := c[..|c| - 1];
            && IsChain(reading, start, init, maximumLines)
            && c[|c| - 1] in RelatedRuns(reading, init[|init| - 1], init[|init| - 1].lineIndex + 1)
  {
    hide RelatedRuns;
    var init := c[..|c| - 1];
    forall i | 0 <= i < |init| - 1 ensures init[i + 1] in RelatedRuns(reading, init[i], init[i].lineIndex + 1) {
      assert c[i + 1] in RelatedRuns(reading, c[i], c[i].lineIndex + 1);
    }
    var k := |c| - 2;
    assert c[k + 1] in RelatedRuns(reading, c[k], c[k].lineIndex + 1);
  }

  lemma {:induction false} ChainsAreFound(reading: Reading, start: Run, paths: seq<seq<Run>>, c: seq<Run>, maximumLines: nat)
    requires [start] in paths && IsChain(reading, start, c, maximumLines)
    requires forall p :: p in paths ==> p != [] && Expanded(reading, paths, p, maximumLines)
    ensures c in paths
    decreases |c|
  {
    hide RelatedRuns, IsChain;
    assert |c| >= 1 && c[0] == start && |c| <= maximumLines by { ChainBasics(reading, start, c, maximumLines); }
    if |c| == 1 {
      assert c == [start];
    } else {
      var init := c[..|c| - 1];
      ChainShortens(reading, start, c, maximumLines);
      ChainsAreFound(reading, start, paths, init, maximumLines);
      assert Expanded(reading, paths, init, maximumLines);
      assert c == init + [c[|c| - 1]];
    }
  }

  /** Every run carries the index of the line it stands in. */
  predicate WellIndexed(reading: Reading) {
    forall i, k :: 0 <= i < |reading.lines| && 0 <= k < |reading.lines[i].runs| ==> reading.lines[i].runs[k].lineIndex == i
  }

  lemma ReconstructedIsIndexed(spans: seq<Span>)
    ensures WellIndexed(Reconstruct(spans))
  {
    hide Sort, LineGroups;
  }

  /** A forward path climbs one line at a time. */
  lemma {:induction false} ChainClimbs(reading: Reading, start: Run, path: seq<Run>, maximumLines: nat, i: nat)
    requires WellIndexed(reading) && IsChain(reading, start, path, maximumLines) && i < |path|
    ensures path[i].lineIndex == start.lineIndex + i
    ensures i > 0 ==> path[i].lineIndex < |reading.lines| && path[i] in reading.lines[path[i].lineIndex].runs
  {
    if i > 0 {
      ChainClimbs(reading, start, path, maximumLines, i - 1);
      assert path[i - 1 + 1] in RelatedRuns(reading, path[i - 1], path[i - 1].lineIndex + 1);
      RelatedExactly(reading, path[i - 1], path[i - 1].lineIndex + 1, path[i]);
    }
  }
}
