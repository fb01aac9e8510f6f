/** Section structure and table blocks of extracted manuscripts. */
module Extractors {

  datatype Heading = Heading(level: nat, title: string)

  // ---- The heading stack -------------------------------------------------------------

  /** Heading j is still open after heading i: every later one up to i is deeper. */
  predicate IsOpen(hs: seq<Heading>, j: nat, i: nat)
    requires j <= i < |hs|
  {
    forall k :: j < k <= i ==> hs[j].level < hs[k].level
  }

  function OpenAt(hs: seq<Heading>, i: nat): set<nat>
    requires i < |hs|
  {
    set j: nat | j <= i && IsOpen(hs, j, i)
  }

  /** The stack lists the headings at the given indices, in order of appearance and of strictly growing level. */
  ghost predicate StackHolds(stack: seq<Heading>, at: seq<nat>, hs: seq<Heading>) {
    && |at| == |stack|
    && (forall k :: 0 <= k < |at| ==> at[k] < |hs| && stack[k] == hs[at[k]])
    && (forall k, l :: 0 <= k < l < |at| ==> at[k] < at[l] && stack[k].level < stack[l].level)
  }

  lemma OpenStep(hs: seq<Heading>, i: nat)
    requires 0 < i < |hs|
    ensures OpenAt(hs, i) == (set j | j in OpenAt(hs, i - 1) && hs[j].level < hs[i].level) + {i}
  {
  }

  lemma {:induction false} DistinctCount(at: seq<nat>)
    requires forall k, l :: 0 <= k < l < |at| ==> at[k] < at[l]
    ensures |IndexSet(at)| == |at|
  {
    if at != [] {
      DistinctCount(at[1..]);
      assert at == [at[0]] + at[1..];
      assert IndexSet(at) == {at[0]} + IndexSet(at[1..]);
      assert at[0] !in at[1..];
    }
  }

  function IndexSet(at: seq<nat>): set<nat> {
    set j | j in at
  }

  /** What is left of the stack are the headings above the level. */
  lemma KeptAre(stack: seq<Heading>, at: seq<nat>, rest: seq<Heading>, kept: seq<nat>, level: nat, hs: seq<Heading>)
    requires StackHolds(stack, at, hs) && StackHolds(rest, kept, hs) && rest <= stack && kept <= at
    requires rest != [] ==> rest[|rest| - 1].level < level
    requires forall k :: |rest| <= k < |stack| ==> stack[k].level >= level
    ensures forall j :: j in kept <==> j in at && hs[j].level < level
  {
  }

  /** Pop the headings that are not above the level; the open headings below it stay. */
  method PopTo(stack: seq<Heading>, level: nat, ghost at: seq<nat>, ghost hs: seq<Heading>)
    returns (rest: seq<Heading>, ghost kept: seq<nat>)
    requires StackHolds(stack, at, hs)
    ensures rest <= stack && kept <= at && StackHolds(rest, kept, hs)
    ensures rest != [] ==> rest[|rest| - 1].level < level
    ensures forall j :: j in kept <==> j in at && hs[j].level < level
  {
    rest, kept := stack, at;
    while rest != [] && rest[|rest| - 1].level >= level
      invariant rest <= stack && kept <= at && StackHolds(rest, kept, hs)
      invariant forall k :: |rest| <= k < |stack| ==> stack[k].level >= level
    {
      rest := rest[..|rest| - 1];
      kept := kept[..|kept| - 1];
    }
    KeptAre(stack, at, rest, kept, level, hs);
  }

  lemma PushHolds(stack: seq<Heading>, at: seq<nat>, hs: seq<Heading>, i: nat)
    requires StackHolds(stack, at, hs) && i < |hs|
    requires forall j :: j in at ==> j < i && hs[j].level < hs[i].level
    ensures StackHolds(stack + [hs[i]], at + [i], hs)
  {
    assert forall k :: 0 <= k < |at| ==> at[k] in at;
  }

  /** Keeping the indices below the new level and adding the new heading yields its open headings. */
  lemma StepSet(hs: seq<Heading>, i: nat, before: seq<nat>, kept: seq<nat>)
    requires i < |hs|
    requires IndexSet(before) == if i == 0 then {} else OpenAt(hs, i - 1)
    requires forall j :: j in before ==> j < |hs|
    requires forall j :: j in kept <==> j in before && hs[j].level < hs[i].level
    ensures IndexSet(kept + [i]) == OpenAt(hs, i)
    ensures forall j :: j in kept ==> j < i
  {
    assert forall j :: j in before <==> j in IndexSet(before);
    if i == 0 {
      assert OpenAt(hs, 0) == {0};
    } else {
      OpenStep(hs, i);
    }
  }

  /** The first loop over the headings: the depth recorded for each is the number of open headings. */
  method SectionDepths(hs: seq<Heading>) returns (depths: seq<nat>, stack: seq<Heading>, ghost at: seq<nat>)
    ensures |depths| == |hs|
    ensures forall i :: 0 <= i < |hs| ==> depths[i] == |OpenAt(hs, i)|
    ensures StackHolds(stack, at, hs)
    ensures IndexSet(at) == if hs == [] then {} else OpenAt(hs, |hs| - 1)
  {
    depths, stack, at := [], [], [];
    for i := 0 to |hs|
      invariant |depths| == i
      invariant forall k :: 0 <= k < i ==> depths[k] == |OpenAt(hs, k)|
      invariant StackHolds(stack, at, hs)
      invariant IndexSet(at) == if i == 0 then {} else OpenAt(hs, i - 1)
    {
      ghost var kept;
      ghost var before := at;
      stack, kept := PopTo(stack, hs[i].level, at, hs);
      StepSet(hs, i, before, kept);
      PushHolds(stack, kept, hs, i);
      stack := stack + [hs[i]];
      at := kept + [i];
      DistinctCount(at);
      depths := depths + [|stack|];
    }
  }

  /** Below the top of the stack lies the nearest earlier heading of a lower level. */
  lemma ParentIsNearest(hs: seq<Heading>, i: nat, j: nat)
    requires j < i < |hs|
    ensures (j in OpenAt(hs, i) && forall k :: k in OpenAt(hs, i) && k != i ==> k <= j)
      <==> (hs[j].level < hs[i].level && forall k :: j < k < i ==> hs[k].level >= hs[i].level)
  {
    if hs[j].level < hs[i].level && forall k :: j < k < i ==> hs[k].level >= hs[i].level {
      assert IsOpen(hs, j, i);
    }
    if j in OpenAt(hs, i) && forall k :: k in OpenAt(hs, i) && k != i ==> k <= j {
      forall k | j < k < i ensures hs[k].level >= hs[i].level {
        NearestBelow(hs, k, i);
      }
    }
  }

  /** A lower heading between k and i leaves some heading from k on open. */
  lemma {:induction false} NearestBelow(hs: seq<Heading>, k: nat, i: nat)
    requires k < i < |hs|
    ensures hs[k].level < hs[i].level ==> exists m :: k <= m < i && m in OpenAt(hs, i)
    decreases i - k
  {
    if hs[k].level < hs[i].level {
      if IsOpen(hs, k, i) {
        assert k in OpenAt(hs, i);
      } else {
        var m :| k < m <= i && hs[k].level >= hs[m].level;
        NearestBelow(hs, m, i);
      }
    }
  }

  // ---- Table blocks ------------------------------------------------------------------

  datatype Block = Block(start: nat, end: nat, lines: seq<string>)

  /** A run of row lines that cannot be extended on either side. */
  ghost predicate MaximalRun(lines: seq<string>, isRow: string -> bool, s: nat, e: nat) {
    && s < e <= |lines|
    && (forall k :: s <= k < e ==> isRow(lines[k]))
    && (s > 0 ==> !isRow(lines[s - 1]))
    && (e < |lines| ==> !isRow(lines[e]))
  }

  method MarkdownTableBlocks(lines: seq<string>, isRow: string -> bool) returns (blocks: seq<Block>)
    ensures forall b :: b in blocks <==> MaximalRun(lines, isRow, b.start, b.end) && b.lines == lines[b.start..b.end]
    ensures forall i, j :: 0 <= i < j < |blocks| ==> blocks[i].end < blocks[j].start
  {
    blocks := [];
    var start := -1;
    for idx := 0 to |lines|
      invariant -1 <= start < idx
      invariant start >= 0 ==> (start > 0 ==> !isRow(lines[start - 1])) && forall k :: start <= k < idx ==> isRow(lines[k])
      invariant start < 0 && idx > 0 ==> !isRow(lines[idx - 1])
      invariant forall b :: b in blocks <==>
        MaximalRun(lines, isRow, b.start, b.end) && b.lines == lines[b.start..b.end]
        && b.start < (if start >= 0 then start else idx)
      invariant forall b :: b in blocks ==> b.end < (if start >= 0 then start else idx)
      invariant forall i, j :: 0 <= i < j < |blocks| ==> blocks[i].end < blocks[j].start
    {
      if isRow(lines[idx]) && start < 0 {
        start := idx;
      } else if !isRow(lines[idx]) && start >= 0 {
        RunsMeet(lines, isRow, start, idx);
        blocks := blocks + [Block(start, idx, lines[start..idx])];
        start := -1;
      }
    }
    if start >= 0 {
      RunsMeet(lines, isRow, start, |lines|);
      ghost var closed := blocks;
      blocks := blocks + [Block(start, |lines|, lines[start..])];
      assert lines[start..] == lines[start..|lines|];
      forall b ensures b in blocks <==> MaximalRun(lines, isRow, b.start, b.end) && b.lines == lines[b.start..b.end] {
        assert b in blocks <==> b in closed || b == Block(start, |lines|, lines[start..]);
      }
    }
  }

  /** A maximal run that starts inside another one is that run. */
  lemma RunsMeet(lines: seq<string>, isRow: string -> bool, s: nat, e: nat)
    requires MaximalRun(lines, isRow, s, e)
    ensures forall s': nat, e': nat :: MaximalRun(lines, isRow, s', e') && s <= s' <= e ==> s' == s && e' == e
  {
    forall s': nat, e': nat | MaximalRun(lines, isRow, s', e') && s <= s' <= e ensures s' == s && e' == e {
    }
  }
}
