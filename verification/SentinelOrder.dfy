/** The marks come out in the order of the source lines. */
module SentinelOrder {
  import opened Options
  import opened PyText
  import opened StableSort
  import F = SentinelFinder
  import opened SentinelFinderMachine
  import opened SentinelScanner
  import opened SentinelInjector

  /** Both the offsets and the lines of the marks go up. */
  ghost predicate Ascending(marks: seq<Insertion>) {
    forall i, j :: 0 <= i < j < |marks| ==> marks[i].key <= marks[j].key && marks[i].value.line <= marks[j].value.line
  }

  /** All marks are in the flow, with offsets up to `end` and lines up to `line`. */
  ghost predicate UpTo(marks: seq<Insertion>, end: int, line: nat) {
    forall m <- marks :: m.value.inFlow && m.key <= end && m.value.line <= line
  }

  ghost predicate From(marks: seq<Insertion>, start: int, line: nat) {
    forall m <- marks :: start <= m.key && line <= m.value.line
  }

  lemma AscendingConcat(a: seq<Insertion>, b: seq<Insertion>, end: int, line: nat)
    requires Ascending(a) && Ascending(b) && UpTo(a, end, line) && From(b, end, line)
    ensures Ascending(a + b)
  {
    forall i, j | 0 <= i < j < |a + b|
      ensures (a + b)[i].key <= (a + b)[j].key && (a + b)[i].value.line <= (a + b)[j].value.line
    {
      if i < |a| <= j {
        assert a[i] in a && b[j - |a|] in b;
      }
    }
  }

  function LineAt(lines: seq<nat>, n: nat): nat
    requires lines != []
  {
    if n == 0 then lines[0] else if n <= |lines| then lines[n - 1] else lines[|lines| - 1]
  }

  /** The tag of an item lies between its offset and the next item. */
  lemma ItemLies(html: string, from: nat, offsets: seq<nat>, end: nat, n: nat)
    requires F.ItemsLieIn(html, from, offsets, end) && 0 < n <= |offsets|
    ensures var o := offsets[n - 1];
            from < o && F.TagEnd(html, o) + 1 <= if n < |offsets| then offsets[n] else end
  {
  }

  lemma LineLies(lines: seq<nat>, n: nat)
    requires lines != [] && Increasing(lines) && 0 < n <= |lines|
    ensures lines[0] <= LineAt(lines, n - 1) <= lines[n - 1] == LineAt(lines, n)
  {
  }

  lemma {:induction false} ItemMarksAscend(html: string, from: nat, offsets: seq<nat>, end: nat, lines: seq<nat>,
                                           n: nat)
    requires F.ItemsLieIn(html, from, offsets, end) && AreOffsets(html, offsets)
    requires lines != [] && Increasing(lines) && n <= |offsets| && n <= |lines|
    ensures var marks := ItemMarks(html, offsets, lines, n, true);
            && Ascending(marks) && From(marks, from, lines[0])
            && UpTo(marks, if n < |offsets| then offsets[n] else end, LineAt(lines, n))
  {
    if n > 0 {
      ItemMarksAscend(html, from, offsets, end, lines, n - 1);
      assert offsets[n - 1] in offsets;
      ItemLies(html, from, offsets, end, n);
      LineLies(lines, n);
      var o, line := offsets[n - 1], lines[n - 1];
      AscendingConcat(ItemMarks(html, offsets, lines, n - 1, true), MarkBehind(html, o, line, true), o,
                      LineAt(lines, n - 1));
    }
  }

  /** The marks of one block lie between its offset and the next block, and between its line and the next anchor. */
  lemma BlockMarksAscend(html: string, b: F.Block, end: nat, a: Anchor, n: nat)
    requires F.ItemsLieIn(html, b.offset, b.items, end) && HasOffsets(html, b)
    requires a.line < n && (a.items != [] ==> AreItems(a.line, a.items, n))
    ensures var marks := BlockMarks(html, b, a);
            Ascending(marks) && From(marks, b.offset, a.line) && UpTo(marks, end, n - 1)
  {
    if a.items != [] && F.IsListTag(b.tag) {
      LastItem(a.items, Least(|b.items|, |a.items|));
      ListMarksAscend(html, b, end, a, n);
    }
  }

  lemma LastItem(items: seq<nat>, n: nat)
    requires items != [] && Increasing(items) && n <= |items|
    ensures LineAt(items, n) <= items[|items| - 1]
  {
  }

  lemma ListMarksAscend(html: string, b: F.Block, end: nat, a: Anchor, n: nat)
    requires F.ItemsLieIn(html, b.offset, b.items, end) && HasOffsets(html, b)
    requires AreItems(a.line, a.items, n) && LineAt(a.items, Least(|b.items|, |a.items|)) <= n - 1
    ensures var marks := [Keyed(b.offset, Mark(a.line, true))]
                         + ItemMarks(html, b.items, a.items, Least(|b.items|, |a.items|), true);
            Ascending(marks) && From(marks, b.offset, a.line) && UpTo(marks, end, n - 1)
  {
    var count := Least(|b.items|, |a.items|);
    var first, rest := [Keyed(b.offset, Mark(a.line, true))], ItemMarks(html, b.items, a.items, count, true);
    ItemMarksAscend(html, b.offset, b.items, end, a.items, count);
    assert count < |b.items| ==> b.items[count] < end;
    AscendingConcat(first, rest, b.offset, a.line);
    forall m: Insertion | m in first + rest
      ensures b.offset <= m.key <= end && a.line <= m.value.line <= n - 1 && m.value.inFlow
    {
      assert m in first || m in rest;
    }
  }

  function OffsetAt(html: string, blocks: seq<F.Block>, k: nat): nat {
    if k < |blocks| then blocks[k].offset else |html|
  }

  function LineBound(anchors: seq<Anchor>, k: nat, n: nat): nat {
    if k < |anchors| then anchors[k].line else n
  }

  lemma {:induction false} FlowMarksAscend(html: string, blocks: seq<F.Block>, anchors: seq<Anchor>, n: nat, k: nat)
    requires F.AreLaidOut(html, blocks, |html|) && ArePlaced(anchors, n)
    requires k <= |blocks| && k <= |anchors| && forall b <- blocks :: HasOffsets(html, b)
    ensures var marks := FlowMarks(html, blocks, anchors, k);
            Ascending(marks) && UpTo(marks, OffsetAt(html, blocks, k), LineBound(anchors, k, n))
  {
    if k > 0 {
      FlowMarksAscend(html, blocks, anchors, n, k - 1);
      assert F.BlockLies(html, blocks, k - 1, |html|) && IsPlaced(anchors, k - 1, n) && blocks[k - 1] in blocks;
      var b, a := blocks[k - 1], anchors[k - 1];
      BlockMarksAscend(html, b, OffsetAt(html, blocks, k), a, LineBound(anchors, k, n));
      AscendingConcat(FlowMarks(html, blocks, anchors, k - 1), BlockMarks(html, b, a), b.offset, a.line);
    }
  }

  // ----- What sorting does to them

  function InFlow(): Insertion -> bool {
    (m: Insertion) => m.value.inFlow
  }

  lemma {:induction false} FilterAll(s: seq<Insertion>)
    requires forall m <- s :: m.value.inFlow
    ensures Filter(s, InFlow()) == s
  {
    if s != [] {
      FilterAll(s[..|s| - 1]);
    }
  }

  lemma {:induction false} FilterRest(s: seq<Insertion>, notes: seq<Insertion>)
    requires forall m <- notes :: !m.value.inFlow
    ensures Filter(s + notes, InFlow()) == Filter(s, InFlow())
  {
    if notes == [] {
      assert s + notes == s;
    } else {
      var front, last := notes[..|notes| - 1], notes[|notes| - 1];
      assert s + notes == (s + front) + [last];
      FilterRest(s, front);
      FilterSnoc(s + front, last, InFlow());
    }
  }

  lemma {:induction false} ItemMarksFlag(html: string, offsets: seq<nat>, lines: seq<nat>, n: nat, inFlow: bool)
    requires n <= |offsets| && n <= |lines| && AreOffsets(html, offsets)
    ensures forall m <- ItemMarks(html, offsets, lines, n, inFlow) :: m.value.inFlow == inFlow && 0 <= m.key <= |html|
  {
    if n > 0 {
      ItemMarksFlag(html, offsets, lines, n - 1, inFlow);
      assert offsets[n - 1] in offsets;
    }
  }

  /** Two elements that are kept stay in order. */
  lemma {:induction false} KeptInOrder(s: seq<Insertion>, i: nat, j: nat)
    requires i < j < |s| && s[i].value.inFlow && s[j].value.inFlow && Ascending(Filter(s, InFlow()))
    ensures s[i].value.line <= s[j].value.line
  {
    var front := s[..|s| - 1];
    if j < |s| - 1 {
      assert Filter(front, InFlow()) <= Filter(s, InFlow());
      KeptInOrder(front, i, j);
    } else {
      KeptIsThere(front, i);
      var k :| 0 <= k < |Filter(front, InFlow())| && Filter(front, InFlow())[k] == s[i];
      assert Filter(s, InFlow())[k] == s[i] && Filter(s, InFlow())[|Filter(front, InFlow())|] == s[j];
    }
  }

  lemma {:induction false} KeptIsThere(s: seq<Insertion>, i: nat)
    requires i < |s| && s[i].value.inFlow
    ensures s[i] in Filter(s, InFlow())
  {
    if i < |s| - 1 {
      KeptIsThere(s[..|s| - 1], i);
    }
  }

  lemma SortedFlow(flow: seq<Insertion>, notes: seq<Insertion>)
    requires Ascending(flow) && (forall m <- flow :: m.value.inFlow) && (forall m <- notes :: !m.value.inFlow)
    ensures Filter(Sort(flow + notes), InFlow()) == flow
  {
    SortIsStable(flow + notes, InFlow());
    FilterRest(flow, notes);
    FilterAll(flow);
    SortOfSorted(flow);
  }

  /** Where the blocks stand in order and the anchors are placed in order, the in-flow marks
      of the sorted insertions are in the order of their lines. */
  lemma FlowStaysOrdered(html: string, st: F.State, anchors: seq<Anchor>, n: nat, footnoteLines: seq<nat>, i: nat,
                         j: nat)
    requires FitsText(html, st) && F.AreLaidOut(html, st.blocks, |html|) && ArePlaced(anchors, n)
    requires var s := Sort(AllMarks(html, st, anchors, footnoteLines));
             i < j < |s| && s[i].value.inFlow && s[j].value.inFlow
    ensures var s := Sort(AllMarks(html, st, anchors, footnoteLines));
            s[i].value.line <= s[j].value.line
  {
    var count := Least(|st.blocks|, |anchors|);
    var flow, notes := FlowMarks(html, st.blocks, anchors, count), NoteMarks(html, st.section, footnoteLines);
    FlowMarksAscend(html, st.blocks, anchors, n, count);
    if st.section.Some? && footnoteLines != [] {
      ItemMarksFlag(html, st.section.value.items, footnoteLines, Least(|st.section.value.items|, |footnoteLines|),
                    false);
    }
    SortedFlow(flow, notes);
    KeptInOrder(Sort(flow + notes), i, j);
  }
}
