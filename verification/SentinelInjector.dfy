/** Sentinel marks for source lines, put into rendered HTML. */
module SentinelInjector {
  import opened Options
  import opened PyText
  import opened StableSort
  import opened SentinelFinder
  import opened SentinelFinderMachine
  import opened SentinelScanner

  /** A mark for a source line. The marks of the trailing footnotes are not in the flow of the document. */
  datatype Mark = Mark(line: nat, inFlow: bool)

  /** The offset before which a mark is put. */
  type Insertion = Keyed<Mark>

  function Least(a: nat, b: nat): (r: nat)
    ensures r <= a && r <= b && (r == a || r == b)
  {
    if a < b then a else b
  }

  /** One mark behind the tag at `o`, if that tag ends. */
  function MarkBehind(html: string, o: nat, line: nat, inFlow: bool): seq<Insertion>
    requires o <= |html|
  {
    if TagEnd(html, o) < |html| then [Keyed(TagEnd(html, o) + 1, Mark(line, inFlow))] else []
  }

  ghost predicate AreOffsets(html: string, offsets: seq<nat>) {
    forall o <- offsets :: o < |html|
  }

  /** The marks of the first `n` items, each behind its start tag. */
  function ItemMarks(html: string, offsets: seq<nat>, lines: seq<nat>, n: nat, inFlow: bool): seq<Insertion>
    requires n <= |offsets| && n <= |lines| && AreOffsets(html, offsets)
  {
    if n == 0 then []
    else
      assert offsets[n - 1] in offsets;
      ItemMarks(html, offsets, lines, n - 1, inFlow) + MarkBehind(html, offsets[n - 1], lines[n - 1], inFlow)
  }

  ghost predicate HasOffsets(html: string, b: Block) {
    b.offset < |html| && AreOffsets(html, b.items)
  }

  /** The marks of one block: one before it and, for a list, one in each item. */
  function BlockMarks(html: string, b: Block, a: Anchor): seq<Insertion>
    requires HasOffsets(html, b)
  {
    [Keyed(b.offset, Mark(a.line, true))]
    + if a.items != [] && IsListTag(b.tag) then ItemMarks(html, b.items, a.items, Least(|b.items|, |a.items|), true)
        else []
  }

  /** The marks of the first `n` pairs of a block and an anchor. */
  function FlowMarks(html: string, blocks: seq<Block>, anchors: seq<Anchor>, n: nat): seq<Insertion>
    requires n <= |blocks| && n <= |anchors| && forall b <- blocks :: HasOffsets(html, b)
  {
    if n == 0 then []
    else
      assert blocks[n - 1] in blocks;
      FlowMarks(html, blocks, anchors, n - 1) + BlockMarks(html, blocks[n - 1], anchors[n - 1])
  }

  /** The marks of the footnotes section: one before it and one in each note. */
  function NoteMarks(html: string, section: Option<Block>, lines: seq<nat>): seq<Insertion>
    requires section.Some? ==> HasOffsets(html, section.value)
  {
    if section.None? || lines == [] then []
    else
      [Keyed(section.value.offset, Mark(lines[0], false))]
      + ItemMarks(html, section.value.items, lines, Least(|section.value.items|, |lines|), false)
  }

  ghost predicate FitsText(html: string, st: State) {
    (forall b <- st.blocks :: HasOffsets(html, b)) && (st.section.Some? ==> HasOffsets(html, st.section.value))
  }

  function AllMarks(html: string, st: State, anchors: seq<Anchor>, footnoteLines: seq<nat>): seq<Insertion>
    requires FitsText(html, st)
  {
    FlowMarks(html, st.blocks, anchors, Least(|st.blocks|, |anchors|)) + NoteMarks(html, st.section, footnoteLines)
  }

  // ----- The output

  function Fragment(line: nat): string {
    "<span id=\"agbpos-L" + Digits(line) + "\"></span>"
  }

  /** A stretch of the original text, or a mark. */
  datatype Part = Original(text: string) | Inserted(mark: Mark)

  function Written(p: Part): string {
    match p
    case Original(text) => text
    case Inserted(mark) => Fragment(mark.line)
  }

  function WrittenAll(parts: seq<Part>): string {
    if parts == [] then "" else WrittenAll(parts[..|parts| - 1]) + Written(parts[|parts| - 1])
  }

  /** The original text in the parts: what is left when the marks are deleted. */
  function OriginalText(parts: seq<Part>): string {
    if parts == [] then ""
    else
      var last := parts[|parts| - 1];
      OriginalText(parts[..|parts| - 1]) + if last.Original? then last.text else ""
  }

  /** The marks, in order. */
  function Marks(parts: seq<Part>): seq<Mark> {
    if parts == [] then []
    else
      var last := parts[|parts| - 1];
      Marks(parts[..|parts| - 1]) + if last.Inserted? then [last.mark] else []
  }

  ghost predicate AreInsertions(html: string, insertions: seq<Insertion>) {
    IsSorted(insertions) && forall x <- insertions :: 0 <= x.key <= |html|
  }

  /** The offset up to which the text has been copied after `n` insertions. */
  function CopiedTo(insertions: seq<Insertion>, n: nat): int
    requires n <= |insertions|
  {
    if n == 0 then 0 else insertions[n - 1].key
  }

  /** The parts up to the `n`th mark. */
  ghost function PartsBefore(html: string, insertions: seq<Insertion>, n: nat): seq<Part>
    requires n <= |insertions| && AreInsertions(html, insertions)
  {
    if n == 0 then []
    else
      assert insertions[n - 1] in insertions;
      assert n > 1 ==> insertions[n - 2] in insertions;
      var x := insertions[n - 1];
      PartsBefore(html, insertions, n - 1) + [Original(html[CopiedTo(insertions, n - 1)..x.key]), Inserted(x.value)]
  }

  ghost function Parts(html: string, insertions: seq<Insertion>): seq<Part>
    requires AreInsertions(html, insertions)
  {
    var n := |insertions|;
    assert n > 0 ==> insertions[n - 1] in insertions;
    PartsBefore(html, insertions, n) + [Original(html[CopiedTo(insertions, n)..])]
  }

  lemma TwoMore(parts: seq<Part>, text: string, mark: Mark)
    ensures WrittenAll(parts + [Original(text), Inserted(mark)]) == WrittenAll(parts) + text + Fragment(mark.line)
    ensures OriginalText(parts + [Original(text), Inserted(mark)]) == OriginalText(parts) + text
    ensures Marks(parts + [Original(text), Inserted(mark)]) == Marks(parts) + [mark]
  {
    OneMore(parts, text);
    var more := parts + [Original(text)];
    assert parts + [Original(text), Inserted(mark)] == more + [Inserted(mark)];
    assert (more + [Inserted(mark)])[..|more|] == more;
  }

  lemma OneMore(parts: seq<Part>, text: string)
    ensures WrittenAll(parts + [Original(text)]) == WrittenAll(parts) + text
    ensures OriginalText(parts + [Original(text)]) == OriginalText(parts) + text
    ensures Marks(parts + [Original(text)]) == Marks(parts)
  {
    assert (parts + [Original(text)])[..|parts|] == parts;
  }

  lemma SplitAt(s: string, a: nat, b: nat)
    requires a <= b <= |s|
    ensures s[..a] + s[a..b] == s[..b]
  {
  }

  function MarksOf(insertions: seq<Insertion>, n: nat): seq<Mark>
    requires n <= |insertions|
  {
    if n == 0 then [] else MarksOf(insertions, n - 1) + [insertions[n - 1].value]
  }

  lemma CopiedText(html: string, parts: seq<Part>, from: nat, to: nat, mark: Mark)
    requires from <= to <= |html| && OriginalText(parts) == html[..from]
    ensures OriginalText(parts + [Original(html[from..to]), Inserted(mark)]) == html[..to]
    ensures Marks(parts + [Original(html[from..to]), Inserted(mark)]) == Marks(parts) + [mark]
  {
    TwoMore(parts, html[from..to], mark);
    SplitAt(html, from, to);
  }

  /** The insertions go up within the text. */
  lemma CopiedInRange(html: string, insertions: seq<Insertion>, n: nat)
    requires n <= |insertions| && AreInsertions(html, insertions)
    ensures 0 <= CopiedTo(insertions, n) <= |html|
    ensures n > 0 ==> 0 <= CopiedTo(insertions, n - 1) <= insertions[n - 1].key
  {
    if n > 0 {
      assert insertions[n - 1] in insertions;
      if n > 1 {
        assert insertions[n - 2] in insertions;
      }
    }
  }

  /** After each mark, the original text so far is everything before the offset of that mark. */
  lemma {:induction false} PartsBeforeAre(html: string, insertions: seq<Insertion>, n: nat)
    requires n <= |insertions| && AreInsertions(html, insertions)
    ensures 0 <= CopiedTo(insertions, n) <= |html|
    ensures OriginalText(PartsBefore(html, insertions, n)) == html[..CopiedTo(insertions, n)]
    ensures Marks(PartsBefore(html, insertions, n)) == MarksOf(insertions, n)
  {
    CopiedInRange(html, insertions, n);
    if n > 0 {
      PartsBeforeAre(html, insertions, n - 1);
      var x := insertions[n - 1];
      CopiedText(html, PartsBefore(html, insertions, n - 1), CopiedTo(insertions, n - 1), x.key, x.value);
    }
  }

  /** Deleting the marks gives the text back, and the marks are the insertions in order. */
  lemma DeletingMarksRestores(html: string, insertions: seq<Insertion>)
    requires AreInsertions(html, insertions)
    ensures OriginalText(Parts(html, insertions)) == html
    ensures Marks(Parts(html, insertions)) == MarksOf(insertions, |insertions|)
  {
    var n := |insertions|;
    PartsBeforeAre(html, insertions, n);
    var rest := html[CopiedTo(insertions, n)..];
    OneMore(PartsBefore(html, insertions, n), rest);
    SplitAt(html, CopiedTo(insertions, n), |html|);
    assert html[..|html|] == html;
  }

  /** Copies the text and writes the fragments in between. */
  method Assemble(html: string, insertions: seq<Insertion>) returns (result: string)
    requires AreInsertions(html, insertions)
    ensures result == WrittenAll(Parts(html, insertions))
  {
    result := "";
    var prev: nat := 0;
    for i := 0 to |insertions|
      invariant prev == CopiedTo(insertions, i) && prev <= |html|
      invariant result == WrittenAll(PartsBefore(html, insertions, i))
    {
      var x := insertions[i];
      assert x in insertions && (i > 0 ==> insertions[i - 1].key <= x.key);
      TwoMore(PartsBefore(html, insertions, i), html[prev..x.key], x.value);
      result := result + html[prev..x.key] + Fragment(x.value.line);
      prev := x.key;
    }
    OneMore(PartsBefore(html, insertions, |insertions|), html[prev..]);
    result := result + html[prev..];
  }
}
