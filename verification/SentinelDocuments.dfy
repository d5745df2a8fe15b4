/** Scanning a whole document: the blocks are those of its elements, and nothing inside them is one. */
module SentinelDocuments {
  import opened Options
  import opened PyText
  import opened SentinelLines
  import opened SentinelScanner
  import opened SentinelScanLaws
  import opened SentinelShapes
  import opened SentinelGrammar
  import opened SentinelParse

  // ----- All groups of a definition list

  /** `AreGroups`, kept folded. */
  ghost predicate MakeDefinitions(groups: seq<Group>) {
    forall k: nat {:trigger Unfold(k)} :: Unfold(k) ==> AreGroups(groups)
  }

  lemma GroupFits(groups: seq<Group>, k: nat)
    requires k < |groups| && MakeDefinitions(groups)
    ensures IsGroup(groups[k]) && (groups[k].gap == [] <==> k == 0)
  {
    assert Unfold(0);
  }

  lemma GroupsSplit(groups: seq<Group>, n: nat)
    requires 0 < n <= |groups|
    ensures GroupsLines(groups[..n]) == GroupsLines(groups[..n - 1]) + GroupLines(groups[n - 1])
  {
    assert groups[..n][..n - 1] == groups[..n - 1];
  }

  lemma NoGroups()
    ensures GroupsLines([]) == []
  {
  }

  lemma GroupSplit(g: Group)
    ensures GroupLines(g) == g.gap + (g.term + (g.space + g.marks))
    ensures |GroupLines(g)| == |g.gap| + |g.term| + |g.space| + |g.marks|
    ensures g.gap == [] ==> GroupLines(g) == g.term + (g.space + g.marks)
  {
  }

  lemma {:induction false} GroupsRun(lines: seq<string>, p: nat, groups: seq<Group>, n: nat, c: ScanState,
                                     done: seq<Anchor>, j: nat)
    returns (t: ScanState)
    requires 0 < n <= |groups| && MakeDefinitions(groups) && Occurs(lines, p, GroupsLines(groups[..n]))
    requires Begins(lines, p, c, false, true, done)
    requires j == p + |GroupsLines(groups[..n])|
    ensures DefinitionsStand(lines, j, t, p, done)
    decreases n
  {
    var front, g := groups[..n - 1], groups[n - 1];
    GroupsSplit(groups, n);
    GroupFits(groups, n - 1);
    GroupSplit(g);
    if n == 1 {
      assert front == [];
      NoGroups();
      t := FirstGroupRuns(lines, p, g, c, done, j);
    } else {
      var i := p + |GroupsLines(front)|;
      OccursBoth(lines, p, GroupsLines(front), GroupLines(g));
      t := GroupsRun(lines, p, groups, n - 1, c, done, i);
      t := NextGroupRuns(lines, i, g, t, p, done, j);
    }
  }

  lemma DefinitionsEnd(lines: seq<string>, p: nat, groups: seq<Group>, c: ScanState, done: seq<Anchor>, j: nat,
                       after: Context, all: seq<Anchor>)
    returns (t: ScanState)
    requires groups != [] && MakeDefinitions(groups) && Occurs(lines, p, GroupsLines(groups))
    requires Begins(lines, p, c, false, true, done)
    requires j == p + |GroupsLines(groups)| && after == Context(false, None, true, Nothing)
    requires all == done + [Anchor(p, [])]
    ensures HasEnded(lines, j, t, after, all)
  {
    assert groups[..|groups|] == groups;
    t := GroupsRun(lines, p, groups, |groups|, c, done, j);
    DefinitionsHaveEnded(lines, j, t, p, done, after, all);
  }

  lemma DefinitionsHaveEnded(lines: seq<string>, j: nat, t: ScanState, at: nat, done: seq<Anchor>, after: Context,
                             all: seq<Anchor>)
    requires DefinitionsStand(lines, j, t, at, done)
    requires after == Context(false, None, true, Nothing) && all == done + [Anchor(at, [])]
    ensures HasEnded(lines, j, t, after, all)
  {
    assert Unfold(0);
    FreshEnds(lines, j, t, true, false, Nothing, after, all);
  }

  // ----- Any element

  lemma FirstLineIsText(e: Element)
    requires IsElement(e)
    ensures ElementLines(e) != [] && FirstLine(e) == ElementLines(e)[0] && !IsBlank(ElementLines(e)[0])
  {
    match e {
      case Paragraph(text) => assert IsMoreText(text[0]);
      case Code(mark, len, open, body, close) => FenceIs(open, mark, len); assert open[0] in open;
      case Div(open, parts, close) => ColonsNoFence(open);
      case Bullets(items) => FirstItemIsText(items);
      case Note(line, more) => LabelledIsText(line);
      case Reference(line, title) => LabelledIsText(line);
      case Definitions(groups) => FirstGroupIsText(groups);
    }
  }

  lemma {:induction false} ItemsBegin(items: seq<Item>)
    requires items != []
    ensures ItemsLines(items) != [] && ItemsLines(items)[0] == items[0].line
  {
    if |items| == 1 {
      NoItems(0);
      assert items[..0] == [];
    } else {
      ItemsBegin(items[..|items| - 1]);
    }
  }

  lemma FirstItemIsText(items: seq<Item>)
    requires AreBullets(items)
    ensures ItemsLines(items) != [] && !IsBlank(ItemsLines(items)[0])
  {
    ItemsBegin(items);
    BulletIsText(items[0].line, items[0].a, items[0].b, items[0].c);
  }

  lemma LabelledIsText(line: string)
    requires IsNoteLine(line) || IsReferenceLine(line)
    ensures !IsBlank(line)
  {
    var a: nat, q: nat :| IsLabelled(line, a, q);
    LabelIsNoDiv(line, a, q);
  }

  lemma {:induction false} GroupsBegin(groups: seq<Group>)
    requires groups != []
    ensures GroupLines(groups[0]) <= GroupsLines(groups)
  {
    if |groups| == 1 {
      NoGroups();
      assert groups[..0] == [];
    } else {
      GroupsBegin(groups[..|groups| - 1]);
    }
  }

  lemma FirstGroupIsText(groups: seq<Group>)
    requires AreGroups(groups)
    ensures GroupsLines(groups) != [] && !IsBlank(GroupsLines(groups)[0])
  {
    GroupsBegin(groups);
    GroupSplit(groups[0]);
    assert IsGroup(groups[0]) && IsMoreText(groups[0].term[0]);
  }

  lemma ElementEnds(lines: seq<string>, p: nat, e: Element, c: ScanState, joinable: bool, gap: bool, done: seq<Anchor>,
                    j: nat, after: Context, all: seq<Anchor>)
    returns (t: ScanState)
    requires IsElement(e) && Occurs(lines, p, ElementLines(e)) && j == p + |ElementLines(e)|
    requires Begins(lines, p, c, joinable, gap, done)
    requires e.Code? || e.Div? || e.Bullets? || gap
    requires e.Definitions? ==> !joinable
    requires after == After(Context(gap, None, joinable, Nothing), Placed([], e)) && all == done + BlocksOf(gap, e, p)
    ensures HasEnded(lines, j, t, after, all)
  {
    match e {
      case Paragraph(text) => t := ParagraphEnds(lines, p, text, c, joinable, done, j, after, all);
      case Code(mark, len, open, body, close) =>
        t := CodeEnds(lines, p, mark, len, open, body, close, c, joinable, gap, done, j, after, all);
      case Div(open, parts, close) =>
        t := DivEnds(lines, p, open, parts, close, c, joinable, gap, done, j, after, all);
      case Bullets(items) =>
        LastGap(items);
        t := ListEnds(lines, p, items, c, joinable, gap, done, j, after, all);
      case Note(line, more) =>
        assert all == done;
        t := NoteEnds(lines, p, line, more, c, joinable, done, j, after);
      case Reference(line, title) =>
        assert all == done;
        t := AnyReferenceEnds(lines, p, line, title, c, joinable, done, j, after);
      case Definitions(groups) =>
        t := DefinitionsEnd(lines, p, groups, c, done, j, after, all);
    }
  }

  lemma AnyReferenceEnds(lines: seq<string>, p: nat, line: string, title: seq<string>, c: ScanState, joinable: bool,
                         done: seq<Anchor>, j: nat, after: Context)
    returns (t: ScanState)
    requires IsReferenceLine(line) && |title| <= 1 && forall l <- title :: !IsBlank(l) && IsIndented(l, 1)
    requires Occurs(lines, p, [line] + title) && j == p + 1 + |title|
    requires Begins(lines, p, c, joinable, true, done)
    requires after == Context(true, None, joinable, if title == [] then TitleOfReference else Nothing)
    ensures HasEnded(lines, j, t, after, done)
  {
    OccursBoth(lines, p, [line], title);
    OccursLine(lines, p, [line], 0);
    if title == [] {
      t := ReferenceEnds(lines, p, c, joinable, done, after);
    } else {
      OccursLine(lines, p + 1, title, 0);
      assert title[0] in title;
      t := TitledReferenceEnds(lines, p, c, joinable, done, j, after);
    }
  }

  /** What `MayFollow` says of the first line, and of the element. */
  lemma NextFits(before: Context, p: Placed)
    requires ComesNext(before, p)
    ensures AreBlank(p.space) && IsElement(p.element)
    ensures before.margins.Some? ==>
              && !IsIndented(FirstLine(p.element), before.margins.value.1)
              && !IsListItem(FirstLine(p.element), before.margins.value.0)
    ensures p.element.Code? || p.element.Div? || p.element.Bullets? || before.gap || p.space != []
    ensures p.element.Definitions? ==> !before.joinable
  {
    assert Unfold(0);
  }

  /** The first line of the element stands behind the blank lines. */
  lemma FirstLineStands(lines: seq<string>, i: nat, p: Placed, q: nat)
    requires IsElement(p.element) && Occurs(lines, i, PlacedLines(p)) && q == i + |p.space|
    ensures Occurs(lines, i, p.space) && Occurs(lines, q, ElementLines(p.element))
    ensures q < |lines| && lines[q] == FirstLine(p.element) && !IsBlank(lines[q])
  {
    FirstLineIsText(p.element);
    OccursBoth(lines, i, p.space, ElementLines(p.element));
    OccursLine(lines, q, ElementLines(p.element), 0);
  }

  /** One more element, with the blank lines before it. */
  lemma PlacedRuns(lines: seq<string>, i: nat, p: Placed, st: ScanState, before: Context, done: seq<Anchor>, j: nat,
                   after: Context, all: seq<Anchor>)
    returns (t: ScanState)
    requires HasEnded(lines, i, st, before, done) && ComesNext(before, p)
    requires Occurs(lines, i, PlacedLines(p)) && j == i + |PlacedLines(p)|
    requires after == After(before, p)
    requires all == done + OwnBlocks(before, p, i)
    ensures HasEnded(lines, j, t, after, all)
  {
    var q, gap := i + |p.space|, before.gap || p.space != [];
    NextFits(before, p);
    FirstLineStands(lines, i, p, q);
    SkipEnds(lines, i, p, st.skipUntil, before);
    t := SpaceRuns(lines, i, p, st, before, done, q, gap);
    FirstLineIsRead(lines, q, t, before, gap, done);
    AfterOnlyNeeds(before, p, gap);
    t := ElementEnds(lines, q, p.element, Opened(t), before.joinable, gap, done, j, after, all);
  }

  lemma AfterOnlyNeeds(before: Context, p: Placed, gap: bool)
    requires gap == (before.gap || p.space != [])
    ensures After(before, p) == After(Context(gap, None, before.joinable, Nothing), Placed([], p.element))
  {
  }

  // ----- The document

  /** The document ends before line `j`, and these are its context and its blocks. Kept folded. */
  ghost predicate Reaches(lines: seq<string>, doc: Document, j: nat, after: Context, all: seq<Anchor>) {
    forall k: nat {:trigger Unfold(k)} :: Unfold(k) ==>
      LinesOf(doc) <= lines && j == |LinesOf(doc)| && after == ContextOf(doc) && all == DocumentBlocks(doc)
  }

  lemma PrefixSplits(lines: seq<string>, a: seq<string>, b: seq<string>)
    requires a + b <= lines
    ensures a <= lines && Occurs(lines, |a|, b)
  {
    assert lines[..|a + b|] == a + b;
    assert lines[..|a|] == (a + b)[..|a|] == a;
    assert lines[|a|..|a| + |b|] == (a + b)[|a|..] == b;
  }

  lemma DocumentSplits(lines: seq<string>, front: Document, p: Placed, j: nat, after: Context, all: seq<Anchor>)
    returns (i: nat, before: Context, done: seq<Anchor>)
    requires Reaches(lines, More(front, p), j, after, all)
    ensures Reaches(lines, front, i, before, done) && before == ContextOf(front)
    ensures Occurs(lines, i, PlacedLines(p)) && j == i + |PlacedLines(p)| && after == After(before, p)
    ensures all == done + OwnBlocks(before, p, i)
  {
    ReachedLines(lines, More(front, p), j, after, all);
    PrefixSplits(lines, LinesOf(front), PlacedLines(p));
    i, before, done := |LinesOf(front)|, ContextOf(front), DocumentBlocks(front);
  }

  lemma ReachedLines(lines: seq<string>, doc: Document, j: nat, after: Context, all: seq<Anchor>)
    requires Reaches(lines, doc, j, after, all)
    ensures LinesOf(doc) <= lines && j == |LinesOf(doc)| && after == ContextOf(doc) && all == DocumentBlocks(doc)
  {
    assert Unfold(0);
  }

  /** `IsDocument`, kept folded. */
  ghost predicate MakeDocument(doc: Document) {
    forall k: nat {:trigger Unfold(k)} :: Unfold(k) ==> IsDocument(doc)
  }

  lemma FrontIsDocument(front: Document, p: Placed)
    requires MakeDocument(More(front, p))
    ensures MakeDocument(front) && ComesNext(ContextOf(front), p)
  {
    assert Unfold(0);
  }

  lemma {:induction false} DocumentRuns(lines: seq<string>, doc: Document, j: nat, after: Context, all: seq<Anchor>)
    returns (t: ScanState)
    requires MakeDocument(doc) && Reaches(lines, doc, j, after, all)
    ensures HasEnded(lines, j, t, after, all)
  {
    match doc {
      case Empty =>
        t := START;
        BeginsFresh(lines, j, after, all);
      case More(front, p) =>
        var i, before, done := DocumentSplits(lines, front, p, j, after, all);
        FrontIsDocument(front, p);
        t := DocumentRuns(lines, front, i, before, done);
        t := PlacedRuns(lines, i, p, t, before, done, j, after, all);
    }
  }

  lemma BeginsFresh(lines: seq<string>, j: nat, after: Context, all: seq<Anchor>)
    requires Reaches(lines, Empty, j, after, all)
    ensures HasEnded(lines, j, START, after, all)
  {
    assert Unfold(0);
    assert IsBefore(lines, 0, START);
    FreshEnds(lines, 0, START, false, true, Nothing, BEGIN, []);
  }

  /** Blank lines at the end leave the blocks as they are. */
  lemma {:induction false} TailRuns(lines: seq<string>, i: nat, st: ScanState, done: seq<Anchor>)
    requires i <= |lines| && IsAt(lines, i, st) && st.fence.Outside? && st.divDepth == 0 && IndicesFit(st)
    requires CloseList(st).anchors == done && forall k :: i <= k < |lines| ==> IsBlank(lines[k])
    ensures Blocks(lines) == done
    decreases |lines| - i
  {
    if i < |lines| {
      OneLine(lines, i, st);
      BlankKeepsAnchors(lines, i, st);
      TailRuns(lines, i + 1, ScanLine(lines, i, st), done);
    } else {
      assert Unfold(0);
    }
  }

  lemma BlankKeepsAnchors(lines: seq<string>, i: nat, st: ScanState)
    requires i < |lines| && IndicesFit(st) && st.fence.Outside? && st.divDepth == 0 && IsBlank(lines[i])
    ensures var t := ScanLine(lines, i, st);
            IndicesFit(t) && t.fence.Outside? && t.divDepth == 0 && CloseList(t).anchors == CloseList(st).anchors
  {
  }

  /** For every document: scanning its lines gives the blocks of its elements, in order, each on its first line. */
  lemma DocumentIsScanned(doc: Document, tail: seq<string>)
    requires IsDocument(doc) && AreBlank(tail)
    ensures Blocks(LinesOf(doc) + tail) == DocumentBlocks(doc)
  {
    var lines, j, after, all := LinesOf(doc) + tail, |LinesOf(doc)|, ContextOf(doc), DocumentBlocks(doc);
    assert LinesOf(doc) <= lines;
    var st := DocumentRuns(lines, doc, j, after, all);
    TailIsBlank(LinesOf(doc), tail);
    EndsBlank(lines, j, st, after, all);
  }

  lemma TailIsBlank(head: seq<string>, tail: seq<string>)
    requires AreBlank(tail)
    ensures forall k :: |head| <= k < |head + tail| ==> IsBlank((head + tail)[k])
  {
    forall k | |head| <= k < |head + tail| ensures IsBlank((head + tail)[k]) {
      assert (head + tail)[k] == tail[k - |head|];
    }
  }

  lemma EndsBlank(lines: seq<string>, j: nat, st: ScanState, after: Context, done: seq<Anchor>)
    requires j <= |lines| && HasEnded(lines, j, st, after, done)
    requires forall k :: j <= k < |lines| ==> IsBlank(lines[k])
    ensures Blocks(lines) == done
  {
    assert Unfold(0);
    TailRuns(lines, j, st, done);
  }

  // ----- What this says of single elements

  lemma OneElement(e: Element)
    requires IsElement(e)
    ensures Blocks(ElementLines(e)) == BlocksOf(true, e, 0)
  {
    var doc := More(Empty, Placed([], e));
    assert LinesOf(doc) == ElementLines(e) && ElementLines(e) + [] == ElementLines(e);
    assert DocumentBlocks(doc) == BlocksOf(true, e, 0);
    DocumentIsScanned(doc, []);
  }

  /** Three or more backticks or tildes, lines none of which closes them, and one that does: one block. */
  lemma CodeIsOneBlock(mark: char, len: nat, open: string, body: seq<string>, close: string)
    requires IsFence(open, mark, len) && ClosesCode(close, mark, len)
    requires forall l <- body :: !ClosesCode(l, mark, len)
    ensures Blocks([open] + body + [close]) == [Anchor(0, [])]
  {
    OneElement(Code(mark, len, open, body, close));
  }

  /** A fenced div is one block, whatever code and whatever divs are nested in it. */
  lemma DivIsOneBlock(open: string, parts: seq<Part>, close: string)
    requires OpensDiv(open) && ClosesDiv(close) && forall p <- parts :: IsPart(p)
    ensures Blocks([open] + PartsLines(parts) + [close]) == [Anchor(0, [])]
  {
    OneElement(Div(open, parts, close));
  }

  /** A footnote definition with its text is none. */
  lemma NoteIsNoBlock(line: string, more: seq<string>)
    requires IsNoteLine(line) && forall l <- more :: GoesOnNote(l)
    ensures Blocks([line] + more) == []
  {
    OneElement(Note(line, more));
  }

  /** The line is below the first one of some code, a div, a note or a reference. */
  ghost predicate IsInside(doc: Document, v: nat) {
    match doc
    case Empty => false
    case More(front, p) =>
      IsInside(front, v) || (IsHidden(p.element) && |LinesOf(front)| + |p.space| < v < |LinesOf(doc)|)
  }

  ghost predicate Mentions(anchors: seq<Anchor>, v: nat) {
    HasAnchor(anchors, v) || InAnchors(anchors, v)
  }

  lemma MentionsBoth(a: seq<Anchor>, b: seq<Anchor>, v: nat)
    ensures Mentions(a + b, v) <==> Mentions(a, v) || Mentions(b, v)
  {
    forall k: nat | k < |a| ensures (a + b)[k] == a[k] {}
    forall k: nat | k < |b| ensures (a + b)[|a| + k] == b[k] {}
    if Mentions(a + b, v) {
      var k: nat :| k < |a + b| && ((a + b)[k].line == v || v in (a + b)[k].items);
      if k < |a| {
        assert a[k].line == v || v in a[k].items;
      } else {
        assert b[k - |a|].line == v || v in b[k - |a|].items;
      }
    }
  }

  lemma {:induction false} ItemLinesAreWithin(items: seq<Item>, at: nat, v: nat)
    requires v in ItemLines(items, at)
    ensures at <= v < at + |ItemsLines(items)|
  {
    if items != [] {
      var front := items[..|items| - 1];
      if v in ItemLines(front, at) {
        ItemLinesAreWithin(front, at, v);
      }
    }
  }

  /** `IsElement`, kept folded. */
  ghost predicate IsShaped(e: Element) {
    forall k: nat {:trigger Unfold(k)} :: Unfold(k) ==> IsElement(e)
  }

  ghost predicate AllShaped(doc: Document) {
    match doc
    case Empty => true
    case More(front, p) => AllShaped(front) && IsShaped(p.element)
  }

  lemma NextIsShaped(before: Context, p: Placed)
    requires MayFollow(before, p)
    ensures IsShaped(p.element)
  {
  }

  lemma {:induction false} DocumentIsShaped(doc: Document)
    requires IsDocument(doc)
    ensures AllShaped(doc)
  {
    match doc {
      case Empty =>
      case More(front, p) =>
        NextIsShaped(ContextOf(front), p);
        DocumentIsShaped(front);
    }
  }

  /** The element has no block but on its first line. */
  predicate IsHidden(e: Element) {
    e.Code? || e.Div? || e.Note? || e.Reference?
  }

  lemma OwnBlocksAreWithin(before: Context, p: Placed, i: nat, v: nat)
    requires IsShaped(p.element) && Mentions(OwnBlocks(before, p, i), v)
    ensures i + |p.space| <= v < i + |PlacedLines(p)| && (IsHidden(p.element) ==> v == i + |p.space|)
  {
    assert Unfold(0);
    var e, own := p.element, OwnBlocks(before, p, i);
    FirstLineIsText(e);
    assert |own| == 1 && own[0].line == i + |p.space|;
    if e.Bullets? && v != i + |p.space| {
      assert v in own[0].items;
      ItemLinesAreWithin(e.items, i + |p.space|, v);
    }
  }

  lemma {:induction false} BlocksAreWithin(doc: Document, v: nat)
    requires AllShaped(doc) && Mentions(DocumentBlocks(doc), v)
    ensures v < |LinesOf(doc)|
  {
    match doc {
      case Empty =>
      case More(front, p) =>
        var own := OwnBlocks(ContextOf(front), p, |LinesOf(front)|);
        MentionsBoth(DocumentBlocks(front), own, v);
        if Mentions(DocumentBlocks(front), v) {
          BlocksAreWithin(front, v);
        } else {
          OwnBlocksAreWithin(ContextOf(front), p, |LinesOf(front)|, v);
        }
    }
  }

  lemma {:induction false} InsideIsWithin(doc: Document, v: nat)
    requires IsInside(doc, v)
    ensures v < |LinesOf(doc)|
  {
    match doc {
      case More(front, p) =>
        if IsInside(front, v) {
          InsideIsWithin(front, v);
        }
    }
  }

  lemma {:induction false} InsideIsNotMentioned(doc: Document, v: nat)
    requires AllShaped(doc) && IsInside(doc, v)
    ensures !Mentions(DocumentBlocks(doc), v)
  {
    match doc {
      case More(front, p) =>
        var i, own := |LinesOf(front)|, OwnBlocks(ContextOf(front), p, |LinesOf(front)|);
        MentionsBoth(DocumentBlocks(front), own, v);
        if Mentions(own, v) {
          OwnBlocksAreWithin(ContextOf(front), p, i, v);
        }
        if IsInside(front, v) {
          InsideIsWithin(front, v);
          InsideIsNotMentioned(front, v);
        } else if Mentions(DocumentBlocks(front), v) {
          BlocksAreWithin(front, v);
        }
    }
  }

  /** No line inside of code, a div, a note or a reference is a block or an item, wherever in the document. */
  lemma NothingInsideIsReported(doc: Document, tail: seq<string>, v: nat)
    requires IsDocument(doc) && AreBlank(tail) && IsInside(doc, v)
    ensures !HasAnchor(Blocks(LinesOf(doc) + tail), v) && !InAnchors(Blocks(LinesOf(doc) + tail), v)
  {
    DocumentIsScanned(doc, tail);
    DocumentIsShaped(doc);
    InsideIsNotMentioned(doc, v);
    assert !Mentions(Blocks(LinesOf(doc) + tail), v);
  }

  /** A paragraph behind a gap is a block again. */
  lemma ParagraphFollows(doc: Document, space: seq<string>, text: seq<string>, tail: seq<string>)
    requires IsDocument(More(doc, Placed(space, Paragraph(text)))) && AreBlank(tail)
    ensures Blocks(LinesOf(doc) + (space + text) + tail)
         == DocumentBlocks(doc) + [Anchor(|LinesOf(doc)| + |space|, [])]
  {
    DocumentIsScanned(More(doc, Placed(space, Paragraph(text))), tail);
    OwnParagraph(ContextOf(doc), space, text, |LinesOf(doc)|);
  }

  lemma OwnParagraph(before: Context, space: seq<string>, text: seq<string>, i: nat)
    ensures PlacedLines(Placed(space, Paragraph(text))) == space + text
    ensures OwnBlocks(before, Placed(space, Paragraph(text)), i) == [Anchor(i + |space|, [])]
  {
  }
}
