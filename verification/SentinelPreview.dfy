/** The preview: scanning a document and marking its rendered HTML. */
module SentinelPreview {
  import opened Options
  import opened PyText
  import opened Splitting
  import opened StableSort
  import opened SentinelFootnotes
  import F = SentinelFinder
  import opened SentinelFinderMachine
  import opened SentinelScanner
  import opened SentinelInjector
  import opened SentinelOrder
  import opened SentinelErase

  /** The blocks of a document, and the source lines of its footnotes. */
  method ScanDocument(markdown: string) returns (blocks: seq<Anchor>, footnoteLines: seq<nat>)
    ensures blocks == if IsBlank(markdown) then [] else Blocks(Split(markdown, '\n'))
    ensures ArePlaced(blocks, |Split(markdown, '\n')|)
    ensures footnoteLines == if IsBlank(markdown) then [] else FootnoteLines(Split(markdown, '\n'))
    ensures forall v <- footnoteLines :: v < |Split(markdown, '\n')|
  {
    if IsBlank(markdown) {
      return [], [];
    }
    var lines := Split(markdown, '\n');
    SplitPartsHaveNo(markdown, '\n');
    blocks := ScanLines(lines);
    footnoteLines := CollectFootnoteLines(lines);
  }

  // ----- Injection

  lemma StepFits(html: string, st: F.State, t: F.Tag)
    requires FitsText(html, st) && t.offset < |html|
    ensures FitsText(html, F.Step(st, t))
  {
    var after := F.Step(st, t);
    forall b | b in after.blocks ensures HasOffsets(html, b) {
      if b !in st.blocks && st.blocks != [] {
        assert st.blocks[|st.blocks| - 1] in st.blocks;
      }
    }
  }

  lemma {:induction false} RunFits(html: string, tags: seq<F.Tag>)
    requires forall t <- tags :: t.offset < |html|
    ensures FitsText(html, F.Run(tags))
  {
    if tags != [] {
      RunFits(html, tags[..|tags| - 1]);
      StepFits(html, F.Run(tags[..|tags| - 1]), tags[|tags| - 1]);
    }
  }

  lemma OffsetsInText(html: string, tags: seq<F.Tag>)
    requires F.StandIn(html, tags)
    ensures forall t <- tags :: t.offset < |html|
  {
    forall t | t in tags ensures t.offset < |html| {
      var i: nat :| i < |tags| && tags[i] == t;
      assert F.StandsIn(html, tags, i);
    }
  }

  /** The insertions for a list of item tags and the lines they are paired with. */
  method CollectItems(html: string, offsets: seq<nat>, lines: seq<nat>, inFlow: bool)
    returns (insertions: seq<Insertion>)
    requires AreOffsets(html, offsets)
    ensures insertions == ItemMarks(html, offsets, lines, Least(|offsets|, |lines|), inFlow)
  {
    insertions := [];
    for i := 0 to Least(|offsets|, |lines|)
      invariant insertions == ItemMarks(html, offsets, lines, i, inFlow)
    {
      assert offsets[i] in offsets;
      var tagEnd := F.TagEnd(html, offsets[i]);
      if tagEnd < |html| {
        insertions := insertions + [Keyed(tagEnd + 1, Mark(lines[i], inFlow))];
      }
    }
  }

  /** The insertions for one block and its anchor. */
  method CollectBlock(html: string, block: HtmlBlock, anchor: Anchor) returns (insertions: seq<Insertion>)
    requires HasOffsets(html, block.View())
    ensures insertions == BlockMarks(html, block.View(), anchor)
  {
    insertions := [Keyed(block.offset, Mark(anchor.line, true))];
    if anchor.items != [] && F.IsListTag(block.tag) {
      var items := CollectItems(html, block.liOffsets, anchor.items, true);
      insertions := insertions + items;
    }
  }

  /** The insertions for the blocks, paired with the anchors one by one. */
  method CollectFlow(html: string, blocks: seq<HtmlBlock>, anchors: seq<Anchor>, ghost views: seq<F.Block>)
      returns (insertions: seq<Insertion>)
    requires |views| == |blocks| && forall i :: 0 <= i < |blocks| ==> views[i] == blocks[i].View()
    requires forall b <- views :: HasOffsets(html, b)
    ensures insertions == FlowMarks(html, views, anchors, Least(|views|, |anchors|))
  {
    insertions := [];
    for i := 0 to Least(|blocks|, |anchors|)
      invariant insertions == FlowMarks(html, views, anchors, i)
    {
      assert views[i] in views;
      var marks := CollectBlock(html, blocks[i], anchors[i]);
      insertions := insertions + marks;
    }
  }

  method CollectNotes(html: string, finder: BlockTagFinder, footnoteLines: seq<nat>)
    returns (insertions: seq<Insertion>)
    requires finder.Valid() && FitsText(html, finder.state)
    ensures insertions == NoteMarks(html, finder.state.section, footnoteLines)
  {
    insertions := [];
    var section := finder.footnotesSection;
    if section != null && footnoteLines != [] {
      insertions := [Keyed(section.offset, Mark(footnoteLines[0], false))];
      var notes := CollectItems(html, section.liOffsets, footnoteLines, false);
      insertions := insertions + notes;
    }
  }

  lemma {:induction false} FlowMarksInText(html: string, blocks: seq<F.Block>, anchors: seq<Anchor>, n: nat)
    requires n <= |blocks| && n <= |anchors| && forall b <- blocks :: HasOffsets(html, b)
    ensures forall m <- FlowMarks(html, blocks, anchors, n) :: 0 <= m.key <= |html|
  {
    if n > 0 {
      FlowMarksInText(html, blocks, anchors, n - 1);
      var b, a := blocks[n - 1], anchors[n - 1];
      assert b in blocks;
      ItemMarksFlag(html, b.items, a.items, Least(|b.items|, |a.items|), true);
    }
  }

  /** The sorted insertions: what gets written into the text, and where. */
  ghost function Insertions(html: string, st: F.State, anchors: seq<Anchor>,
                            footnoteLines: seq<nat>): (r: seq<Insertion>)
    requires FitsText(html, st)
    ensures AreInsertions(html, r)
  {
    var all := AllMarks(html, st, anchors, footnoteLines);
    SortedInText(html, st, anchors, footnoteLines);
    Sort(all)
  }

  lemma SortedInText(html: string, st: F.State, anchors: seq<Anchor>, footnoteLines: seq<nat>)
    requires FitsText(html, st)
    ensures AreInsertions(html, Sort(AllMarks(html, st, anchors, footnoteLines)))
  {
    var all := AllMarks(html, st, anchors, footnoteLines);
    FlowMarksInText(html, st.blocks, anchors, Least(|st.blocks|, |anchors|));
    if st.section.Some? && footnoteLines != [] {
      ItemMarksFlag(html, st.section.value.items, footnoteLines, Least(|st.section.value.items|, |footnoteLines|),
                    false);
    }
    SortFacts(all);
    SameElements(html, all, Sort(all));
  }

  lemma SameElements(html: string, a: seq<Insertion>, b: seq<Insertion>)
    requires multiset(a) == multiset(b) && forall x <- a :: 0 <= x.key <= |html|
    ensures forall x <- b :: 0 <= x.key <= |html|
  {
    forall x | x in b ensures 0 <= x.key <= |html| {
      assert x in multiset(b);
    }
  }

  /** The insertions for everything the finder found, sorted by offset. */
  method CollectInsertions(html: string, finder: BlockTagFinder, anchors: seq<Anchor>, footnoteLines: seq<nat>)
      returns (insertions: seq<Insertion>)
    requires finder.Valid() && FitsText(html, finder.state)
    ensures AreInsertions(html, insertions) && insertions == Insertions(html, finder.state, anchors, footnoteLines)
  {
    insertions := CollectFlow(html, finder.blocks, anchors, finder.state.blocks);
    var notes := CollectNotes(html, finder, footnoteLines);
    insertions := Sort(insertions + notes);
    SortedInText(html, finder.state, anchors, footnoteLines);
  }

  /** Marks rendered HTML. Without HTML or anchors nothing is marked. */
  method InjectSentinels(html: string, tags: seq<F.Tag>, anchors: seq<Anchor>, footnoteLines: seq<nat>)
      returns (result: string)
    requires F.StandIn(html, tags)
    ensures FitsText(html, F.Run(tags))
    ensures result == if html == "" || anchors == [] then html
                      else WrittenAll(Parts(html, Insertions(html, F.Run(tags), anchors, footnoteLines)))
    ensures IsFree(html) ==> Erase(result) == html
  {
    OffsetsInText(html, tags);
    RunFits(html, tags);
    if html == "" || anchors == [] {
      EraseShrinks(html);
      return html;
    }
    var lineOffsets := F.BuildLineOffsets(html);
    var finder := new BlockTagFinder(html, lineOffsets);
    finder.Feed(tags);
    var insertions := CollectInsertions(html, finder, anchors, footnoteLines);
    result := Assemble(html, insertions);
    if IsFree(html) {
      ErasingRestores(html, insertions);
    }
  }

  /** The main result, for HTML whose tags stand in order and anchors from the scan of any document:
      deleting the marks from the output gives the HTML, and the marks in the flow of the document
      are in the order of their source lines. */
  lemma InjectionIsConservativeAndOrdered(html: string, tags: seq<F.Tag>, lines: seq<string>, footnoteLines: seq<nat>)
    requires F.StandIn(html, tags)
    ensures FitsText(html, F.Run(tags))
    ensures var parts := Parts(html, Insertions(html, F.Run(tags), Blocks(lines), footnoteLines));
            && OriginalText(parts) == html
            && forall i, j :: 0 <= i < j < |Marks(parts)| && Marks(parts)[i].inFlow && Marks(parts)[j].inFlow ==>
                 Marks(parts)[i].line <= Marks(parts)[j].line
  {
    OffsetsInText(html, tags);
    RunFits(html, tags);
    F.BlocksAreLaidOut(html, tags);
    BlocksArePlaced(lines);
    var st, anchors := F.Run(tags), Blocks(lines);
    var s := Insertions(html, st, anchors, footnoteLines);
    DeletingMarksRestores(html, s);
    MarksAreValues(s, |s|);
    forall i, j | 0 <= i < j < |s| && s[i].value.inFlow && s[j].value.inFlow
      ensures s[i].value.line <= s[j].value.line
    {
      FlowStaysOrdered(html, st, anchors, |lines|, footnoteLines, i, j);
    }
  }

  lemma {:induction false} MarksAreValues(s: seq<Insertion>, n: nat)
    requires n <= |s|
    ensures |MarksOf(s, n)| == n && forall i :: 0 <= i < n ==> MarksOf(s, n)[i] == s[i].value
  {
    if n > 0 {
      MarksAreValues(s, n - 1);
    }
  }
}
