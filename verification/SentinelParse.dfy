/** The scan of a document gives back the blocks of the elements it was written from. */
module SentinelParse {
  import opened Options
  import opened PyText
  import opened SentinelLines
  import opened SentinelScanner
  import opened SentinelScanLaws
  import opened SentinelShapes
  import opened SentinelGrammar

  /** The state before line `n`. Kept folded, too. */
  ghost predicate IsAt(lines: seq<string>, n: nat, st: ScanState) {
    IsBefore(lines, n, st)
  }

  lemma AtFits(lines: seq<string>, n: nat, st: ScanState)
    requires IsAt(lines, n, st)
    ensures n <= |lines| && IndicesFit(st)
  {
    assert Unfold(0);
  }

  ghost predicate Look(k: nat) { true }

  /** The lines from `i` on are these. Kept folded: usable only where `Look` is mentioned. */
  ghost predicate Occurs(lines: seq<string>, i: nat, part: seq<string>) {
    forall k: nat {:trigger Look(k)} :: Look(k) ==> i + |part| <= |lines| && lines[i..i + |part|] == part
  }

  lemma OccursFits(lines: seq<string>, i: nat, part: seq<string>)
    requires Occurs(lines, i, part)
    ensures i + |part| <= |lines|
  {
    assert Look(0);
  }

  lemma OccursLine(lines: seq<string>, i: nat, part: seq<string>, k: nat)
    requires Occurs(lines, i, part) && k < |part|
    ensures i + k < |lines| && lines[i + k] == part[k]
  {
    assert Look(0);
    assert lines[i..i + |part|][k] == part[k];
  }

  lemma OccursBoth(lines: seq<string>, i: nat, a: seq<string>, b: seq<string>)
    requires Occurs(lines, i, a + b)
    ensures Occurs(lines, i, a) && Occurs(lines, i + |a|, b)
  {
    assert Look(0);
    assert lines[i..i + |a|] == (a + b)[..|a|];
    assert lines[i + |a|..i + |a| + |b|] == (a + b)[|a|..];
  }

  lemma OneLine(lines: seq<string>, i: nat, st: ScanState)
    requires i < |lines| && IsAt(lines, i, st) && IndicesFit(st)
    ensures IsAt(lines, i + 1, ScanLine(lines, i, st))
  {
    NextBefore(lines, i, st);
  }

  // ----- Text that changes nothing

  /** Outside of fences, divs, lists and skipped lines. */
  predicate IsOpen(st: ScanState, i: nat) {
    st.skipUntil <= i && st.fence.Outside? && st.divDepth == 0 && !st.inList
  }

  lemma MoreTextIs(line: string)
    requires IsMoreText(line)
    ensures !IsBlank(line) && FenceRun(line) == 0 && !DivFenceOf(line).Opens?
    ensures !(Indent(line) <= 3 && IsDefMarker(line[Indent(line)..]))
    ensures !(Marker(line).Some? && Indent(line) <= 3)
  {
    FenceIff(line);
    DivIff(line);
    DefinitionIff(line);
    ItemIff(line, 3);
  }

  lemma MoreTextStep(lines: seq<string>, i: nat, st: ScanState)
    requires i < |lines| && IsAt(lines, i, st) && IsOpen(st, i) && !st.inGap && IsMoreText(lines[i])
    ensures IsAt(lines, i + 1, st)
  {
    MoreTextIs(lines[i]);
    AtFits(lines, i, st);
    OneLine(lines, i, st);
  }

  lemma {:induction false} MoreTextRuns(lines: seq<string>, i: nat, text: seq<string>, st: ScanState, j: nat)
    requires IsAt(lines, i, st) && Occurs(lines, i, text) && IsOpen(st, i) && !st.inGap && j == i + |text|
    requires forall l <- text :: IsMoreText(l)
    ensures IsAt(lines, j, st)
    decreases |text|
  {
    if text != [] {
      OccursLine(lines, i, text, 0);
      MoreTextStep(lines, i, st);
      assert text == [text[0]] + text[1..];
      OccursBoth(lines, i, [text[0]], text[1..]);
      MoreTextRuns(lines, i + 1, text[1..], st, j);
    }
  }

  // ----- Code

  lemma CloseStep(lines: seq<string>, i: nat, st: ScanState)
    requires i < |lines| && IsAt(lines, i, st) && st.skipUntil <= i && st.fence.Inside?
    requires ClosesFence(lines[i], st.fence)
    ensures IsAt(lines, i + 1, st.(fence := Outside))
  {
    AtFits(lines, i, st);
    OneLine(lines, i, st);
  }

  /** The lines of some code behind its opening fence. */
  lemma CodeRuns(lines: seq<string>, i: nat, body: seq<string>, close: string, mark: char, len: nat, st: ScanState,
                 end: nat)
    requires IsAt(lines, i, st) && Occurs(lines, i, body + [close])
    requires st.fence == Inside(mark, len) && st.skipUntil <= i
    requires ClosesCode(close, mark, len) && forall l <- body :: !ClosesCode(l, mark, len)
    requires end == i + |body| + 1
    ensures IsAt(lines, end, st.(fence := Outside))
  {
    var j := i + |body|;
    OccursBoth(lines, i, body, [close]);
    OccursFits(lines, i, body);
    AtFits(lines, i, st);
    forall k: nat | i <= k < j ensures !ClosesFence(lines[k], st.fence) {
      OccursLine(lines, i, body, k - i);
      assert body[k - i] in body;
      ClosesIff(lines[k], mark, len);
    }
    FenceRuns(lines, i, j, st);
    OccursLine(lines, j, [close], 0);
    ClosesIff(close, mark, len);
    CloseStep(lines, j, st);
  }

  // ----- Divs

  lemma TextInDiv(lines: seq<string>, i: nat, st: ScanState)
    requires i < |lines| && IsAt(lines, i, st) && st.skipUntil <= i && st.fence.Outside? && st.divDepth > 0
    ensures !HasFence(lines[i]) && !OpensDiv(lines[i]) && !ClosesDiv(lines[i]) ==> IsAt(lines, i + 1, st)
    ensures OpensDiv(lines[i]) ==> IsAt(lines, i + 1, Deeper(st))
    ensures ClosesDiv(lines[i]) ==> IsAt(lines, i + 1, st.(divDepth := st.divDepth - 1))
  {
    AtFits(lines, i, st);
    OneLine(lines, i, st);
    FenceIff(lines[i]);
    DivIff(lines[i]);
    if OpensDiv(lines[i]) || ClosesDiv(lines[i]) {
      ColonsNoFence(lines[i]);
    }
  }

  lemma ColonsNoFence(line: string)
    requires OpensDiv(line) || ClosesDiv(line)
    ensures FenceRun(line) == 0 && line != "" && line[0] == ':' && !IsBlank(line)
  {
    var m: nat :| AreColons(line, m);
    assert line[0] == ':' && line[0] in line;
  }

  lemma FenceInDiv(lines: seq<string>, i: nat, mark: char, len: nat, st: ScanState)
    requires i < |lines| && IsAt(lines, i, st) && st.skipUntil <= i && st.fence.Outside? && st.divDepth > 0
    requires IsFence(lines[i], mark, len)
    ensures IsAt(lines, i + 1, st.(fence := Inside(mark, len)))
  {
    AtFits(lines, i, st);
    OneLine(lines, i, st);
    FenceIs(lines[i], mark, len);
  }

  /** A code listing in a div, with its opening fence. */
  lemma ListingRuns(lines: seq<string>, i: nat, mark: char, len: nat, open: string, body: seq<string>, close: string,
                    st: ScanState, j: nat)
    requires IsAt(lines, i, st) && Occurs(lines, i, [open] + body + [close]) && IsCode(mark, len, open, body, close)
    requires st.skipUntil <= i && st.fence.Outside? && st.divDepth > 0 && j == i + |body| + 2
    ensures IsAt(lines, j, st)
  {
    assert [open] + body + [close] == [open] + (body + [close]);
    OccursBoth(lines, i, [open], body + [close]);
    OccursLine(lines, i, [open], 0);
    FenceInDiv(lines, i, mark, len, st);
    var inside := st.(fence := Inside(mark, len));
    CodeRuns(lines, i + 1, body, close, mark, len, inside, j);
    assert inside.(fence := Outside) == st;
  }

  lemma {:induction false} PartRuns(lines: seq<string>, i: nat, part: Part, st: ScanState, j: nat)
    requires IsAt(lines, i, st) && Occurs(lines, i, PartLines(part)) && IsPart(part) && j == i + |PartLines(part)|
    requires st.skipUntil <= i && st.fence.Outside? && st.divDepth > 0
    ensures IsAt(lines, j, st)
    decreases part, 0
  {
    match part {
      case Text(line) =>
        OccursLine(lines, i, [line], 0);
        TextInDiv(lines, i, st);
      case Listing(mark, len, open, body, close) => ListingRuns(lines, i, mark, len, open, body, close, st, j);
      case Nested(open, parts, close) => NestedRuns(lines, i, open, parts, close, st, j);
    }
  }

  lemma {:induction false} NestedRuns(lines: seq<string>, i: nat, open: string, parts: seq<Part>, close: string,
                                      st: ScanState, j: nat)
    requires IsAt(lines, i, st) && Occurs(lines, i, [open] + PartsLines(parts) + [close])
    requires OpensDiv(open) && ClosesDiv(close) && forall p <- parts :: IsPart(p)
    requires st.skipUntil <= i && st.fence.Outside? && st.divDepth > 0 && j == i + |PartsLines(parts)| + 2
    ensures IsAt(lines, j, st)
    decreases parts, 2
  {
    var inner := PartsLines(parts);
    assert [open] + inner + [close] == [open] + (inner + [close]);
    OccursBoth(lines, i, [open], inner + [close]);
    OccursLine(lines, i, [open], 0);
    TextInDiv(lines, i, st);
    DivRuns(lines, i + 1, parts, close, Deeper(st), j);
    DeeperAndBack(st);
  }

  function Deeper(st: ScanState): ScanState {
    st.(divDepth := st.divDepth + 1)
  }

  lemma DeeperAndBack(st: ScanState)
    ensures Deeper(st).(divDepth := Deeper(st).divDepth - 1) == st
  {
  }

  lemma {:induction false} PartsRun(lines: seq<string>, i: nat, parts: seq<Part>, st: ScanState, j: nat)
    requires IsAt(lines, i, st) && Occurs(lines, i, PartsLines(parts)) && forall p <- parts :: IsPart(p)
    requires st.skipUntil <= i && st.fence.Outside? && st.divDepth > 0 && j == i + |PartsLines(parts)|
    ensures IsAt(lines, j, st)
    decreases parts, 0
  {
    if parts != [] {
      var k := i + |PartLines(parts[0])|;
      PartsSplit(parts);
      OccursBoth(lines, i, PartLines(parts[0]), PartsLines(parts[1..]));
      PartRuns(lines, i, parts[0], st, k);
      PartsRun(lines, k, parts[1..], st, j);
    }
  }

  lemma PartsSplit(parts: seq<Part>)
    requires parts != []
    ensures PartsLines(parts) == PartLines(parts[0]) + PartsLines(parts[1..])
  {
  }

  /** The lines of a div behind its opening one. */
  lemma {:induction false} DivRuns(lines: seq<string>, i: nat, parts: seq<Part>, close: string, st: ScanState, j: nat)
    requires IsAt(lines, i, st) && Occurs(lines, i, PartsLines(parts) + [close])
    requires ClosesDiv(close) && forall p <- parts :: IsPart(p)
    requires st.skipUntil <= i && st.fence.Outside? && st.divDepth > 0
    requires j == i + |PartsLines(parts)| + 1
    ensures IsAt(lines, j, st.(divDepth := st.divDepth - 1))
    decreases parts, 1
  {
    var k := j - 1;
    OccursBoth(lines, i, PartsLines(parts), [close]);
    PartsRun(lines, i, parts, st, k);
    OccursLine(lines, k, [close], 0);
    TextInDiv(lines, k, st);
  }

  // ----- Between elements

  ghost predicate HasMargins(st: ScanState, margins: Option<(nat, nat)>) {
    && (st.inList <==> margins.Some?)
    && (margins.Some? ==> st.markerIndent == margins.value.0 && st.contentIndent == margins.value.1)
  }

  /** Before an element: `done` are the blocks so far. */
  ghost predicate IsReady(st: ScanState, p: nat, before: Context, gap: bool, done: seq<Anchor>)
    requires IndicesFit(st)
  {
    && st.skipUntil <= p && st.fence.Outside? && st.divDepth == 0 && st.inGap == gap
    && CloseList(st).anchors == done && HasMargins(st, before.margins)
    && (before.joinable || !st.inDeflist || st.openTerm >= 0)
  }

  /** The lines that are still to be skipped go on with a note or a reference. */
  ghost predicate SkipsOnly(lines: seq<string>, i: nat, until: int, taken: Taken) {
    i < until ==>
      match taken
      case Nothing => false
      case MoreOfNote => until <= |lines| && forall k :: i <= k < until ==> GoesOnNote(lines[k])
      case TitleOfReference => until == i + 1 <= |lines| && !IsBlank(lines[i]) && IsIndented(lines[i], 1)
  }

  ghost predicate EndsHere(lines: seq<string>, i: nat, st: ScanState, after: Context, done: seq<Anchor>) {
    && IndicesFit(st)
    && SkipsOnly(lines, i, st.skipUntil, after.taken)
    && (after.taken.Nothing? || after.gap)
    && IsReady(st.(skipUntil := i), i, after, after.gap, done)
  }

  /** Behind an element: the state before line `i`, kept folded. */
  ghost predicate HasEnded(lines: seq<string>, i: nat, st: ScanState, after: Context, done: seq<Anchor>) {
    forall k: nat {:trigger Unfold(k)} :: Unfold(k) ==> IsAt(lines, i, st) && EndsHere(lines, i, st, after, done)
  }

  lemma BlankStep(lines: seq<string>, i: nat, st: ScanState)
    requires i < |lines| && IsAt(lines, i, st) && IsBlank(lines[i]) && st.fence.Outside? && st.divDepth == 0
    requires st.skipUntil <= i || st.inGap
    ensures IsAt(lines, i + 1, Gapped(st, true))
  {
    AtFits(lines, i, st);
    OneLine(lines, i, st);
  }

  function Gapped(st: ScanState, more: bool): ScanState {
    if more then st.(inGap := true) else st
  }

  /** Blank lines make a gap and change nothing else. */
  lemma {:induction false} BlanksRun(lines: seq<string>, i: nat, space: seq<string>, st: ScanState, j: nat)
    requires IsAt(lines, i, st) && Occurs(lines, i, space) && AreBlank(space) && j == i + |space|
    requires st.fence.Outside? && st.divDepth == 0 && (st.skipUntil <= i || st.inGap)
    ensures IsAt(lines, j, Gapped(st, space != []))
    decreases |space|
  {
    if space != [] {
      OccursLine(lines, i, space, 0);
      BlankStep(lines, i, st);
      assert space == [space[0]] + space[1..];
      OccursBoth(lines, i, [space[0]], space[1..]);
      BlanksRun(lines, i + 1, space[1..], Gapped(st, true), j);
    }
  }

  /** `MayFollow`, kept folded. */
  ghost predicate ComesNext(before: Context, p: Placed) {
    forall k: nat {:trigger Unfold(k)} :: Unfold(k) ==> MayFollow(before, p)
  }

  lemma GappedIsReady(st: ScanState, i: nat, j: nat, before: Context, more: bool, done: seq<Anchor>)
    requires IndicesFit(st) && IsReady(st.(skipUntil := i), i, before, before.gap, done) && st.skipUntil <= j
    ensures IsReady(Gapped(st, more), j, before, before.gap || more, done)
  {
  }

  /** The state before the element, once the blank lines before it are read. */
  lemma SpaceRuns(lines: seq<string>, i: nat, p: Placed, st: ScanState, before: Context, done: seq<Anchor>, j: nat,
                  gap: bool)
    returns (t: ScanState)
    requires HasEnded(lines, i, st, before, done) && AreBlank(p.space)
    requires SkipsOnly(lines, i, st.skipUntil, before.taken) ==> st.skipUntil <= j
    requires Occurs(lines, i, p.space) && j == i + |p.space| && gap == (before.gap || p.space != [])
    ensures IsAt(lines, j, t) && IndicesFit(t) && IsReady(t, j, before, gap, done)
  {
    assert Unfold(0);
    BlanksRun(lines, i, p.space, st, j);
    t := Gapped(st, p.space != []);
    GappedIsReady(st, i, j, before, p.space != [], done);
  }

  lemma SkipEnds(lines: seq<string>, i: nat, p: Placed, until: int, before: Context)
    requires ComesNext(before, p) && Occurs(lines, i, p.space)
    requires i + |p.space| < |lines| && lines[i + |p.space|] == FirstLine(p.element)
    ensures SkipsOnly(lines, i, until, before.taken) ==> until <= i + |p.space|
  {
    assert Unfold(0);
    if p.space != [] {
      OccursLine(lines, i, p.space, 0);
    }
  }

  /** The state once the open list, if any, is closed. */
  function Opened(st: ScanState): ScanState
    requires IndicesFit(st)
  {
    if st.inList then CloseList(st) else st
  }

  /** Outside of everything, with these blocks so far. */
  ghost predicate IsFresh(c: ScanState, p: nat, joinable: bool, gap: bool, done: seq<Anchor>) {
    && IndicesFit(c) && IsOpen(c, p) && c.inGap == gap && c.anchors == done
    && (joinable || !c.inDeflist || c.openTerm >= 0)
  }

  lemma OpenedIs(lines: seq<string>, p: nat, st: ScanState, before: Context, gap: bool, done: seq<Anchor>)
    requires IsAt(lines, p, st) && p <= |lines| && IndicesFit(st) && IsReady(st, p, before, gap, done)
    ensures IsFresh(Opened(st), p, before.joinable, gap, done)
  {
    assert Inv(st, p) by {
      assert Unfold(0);
    }
    CloseListKeeps(st, p);
  }

  /** The first line of an element is read in the state `c`. Kept folded. */
  ghost predicate Begins(lines: seq<string>, p: nat, c: ScanState, joinable: bool, gap: bool, done: seq<Anchor>) {
    forall k: nat {:trigger Unfold(k)} :: Unfold(k) ==>
      p < |lines| && IsFresh(c, p, joinable, gap, done) && IsAt(lines, p + 1, TopLevel(lines, p, c))
  }

  lemma BeginsHere(lines: seq<string>, p: nat, c: ScanState, joinable: bool, gap: bool, done: seq<Anchor>)
    requires Begins(lines, p, c, joinable, gap, done)
    ensures p < |lines| && IsFresh(c, p, joinable, gap, done) && IsAt(lines, p + 1, TopLevel(lines, p, c))
  {
    assert Unfold(0);
  }

  /** The first line of an element is read outside of everything. */
  lemma FirstLineIsRead(lines: seq<string>, p: nat, st: ScanState, before: Context, gap: bool, done: seq<Anchor>)
    requires IsAt(lines, p, st) && p < |lines| && IndicesFit(st) && IsReady(st, p, before, gap, done)
    requires !IsBlank(lines[p])
    requires before.margins.Some? ==>
               !IsIndented(lines[p], before.margins.value.1) && !IsListItem(lines[p], before.margins.value.0)
    ensures Begins(lines, p, Opened(st), before.joinable, gap, done)
  {
    OpenedIs(lines, p, st, before, gap, done);
    if st.inList {
      IndentIff(lines[p], st.contentIndent);
      ItemIff(lines[p], st.markerIndent);
    }
    AtFits(lines, p, st);
    OneLine(lines, p, st);
  }

  // ----- The elements, from their first line on

  lemma FreshEnds(lines: seq<string>, j: nat, t: ScanState, joinable: bool, gap: bool, taken: Taken, after: Context,
                  all: seq<Anchor>)
    requires IsAt(lines, j, t) && IsFresh(t.(skipUntil := j), j, joinable, gap, all)
    requires SkipsOnly(lines, j, t.skipUntil, taken) && (taken.Nothing? || gap)
    requires after == Context(gap, None, joinable, taken)
    ensures HasEnded(lines, j, t, after, all)
  {
    assert CloseList(t.(skipUntil := j)).anchors == t.anchors;
  }

  lemma FirstText(lines: seq<string>, p: nat, c: ScanState)
    requires p < |lines| && IndicesFit(c) && IsOpen(c, p) && c.inGap
    requires IsMoreText(lines[p]) && !IsNoteLine(lines[p]) && !IsReferenceLine(lines[p])
    ensures TopLevel(lines, p, c) == Generic(p, c)
  {
    MoreTextIs(lines[p]);
    NoteIff(lines[p]);
    ReferenceIff(lines[p]);
  }

  /** A paragraph, or the term of a definition list. */
  lemma ParagraphRuns(lines: seq<string>, p: nat, text: seq<string>, c: ScanState, j: nat)
    requires j == p + |text|
    requires Occurs(lines, p, text) && IsParagraph(text)
    requires IndicesFit(c) && IsOpen(c, p) && c.inGap && p < |lines| && IsAt(lines, p + 1, TopLevel(lines, p, c))
    ensures IsAt(lines, j, Generic(p, c))
  {
    OccursLine(lines, p, text, 0);
    FirstText(lines, p, c);
    assert text == [text[0]] + text[1..];
    OccursBoth(lines, p, [text[0]], text[1..]);
    MoreTextRuns(lines, p + 1, text[1..], Generic(p, c), j);
  }

  lemma GenericIsFresh(p: nat, i: nat, c: ScanState, joinable: bool, done: seq<Anchor>)
    requires IsFresh(c, p, joinable, true, done) && p <= i
    ensures IsFresh(Generic(p, c).(skipUntil := i), i, false, false, done + [Anchor(p, [])])
    ensures Generic(p, c).skipUntil <= i
  {
  }

  lemma ParagraphEnds(lines: seq<string>, p: nat, text: seq<string>, c: ScanState, joinable: bool, done: seq<Anchor>,
                      j: nat, after: Context, all: seq<Anchor>)
    returns (t: ScanState)
    requires Occurs(lines, p, text) && IsParagraph(text)
    requires Begins(lines, p, c, joinable, true, done)
    requires j == p + |text| && after == Context(false, None, false, Nothing) && all == done + [Anchor(p, [])]
    ensures HasEnded(lines, j, t, after, all)
  {
    BeginsHere(lines, p, c, joinable, true, done);
    t := Generic(p, c);
    ParagraphRuns(lines, p, text, c, j);
    GenericIsFresh(p, j, c, joinable, done);
    FreshEnds(lines, j, t, false, false, Nothing, after, all);
  }

  lemma FenceOpens(lines: seq<string>, p: nat, mark: char, len: nat, c: ScanState)
    requires p < |lines| && IndicesFit(c) && IsOpen(c, p) && IsFence(lines[p], mark, len)
    ensures FenceRun(lines[p]) > 0 && TopLevel(lines, p, c) == OpenFence(lines[p], p, c)
    ensures OpenFence(lines[p], p, c).fence == Inside(mark, len)
  {
    FenceIs(lines[p], mark, len);
    NoLabel(lines[p]);
  }

  /** A line that begins with a backtick, a tilde or a colon defines no note and no link. */
  lemma NoLabel(line: string)
    requires line != "" && line[0] in {'`', '~', ':'}
    ensures FootnoteDef(line).None? && !IsLinkRefDef(line) && (line[0] != ':' ==> !DivFenceOf(line).Opens?)
    ensures !IsBlank(line)
  {
    assert SkipSpaces(line, 0) == 0 && ":::"[0] == ':' && line[0] in line;
  }

  lemma CodeEnds(lines: seq<string>, p: nat, mark: char, len: nat, open: string, body: seq<string>, close: string,
                 c: ScanState, joinable: bool, gap: bool, done: seq<Anchor>, j: nat, after: Context, all: seq<Anchor>)
    returns (t: ScanState)
    requires Occurs(lines, p, [open] + body + [close]) && IsCode(mark, len, open, body, close)
    requires Begins(lines, p, c, joinable, gap, done)
    requires j == p + |body| + 2 && after == Context(false, None, false, Nothing) && all == done + IfGap(gap, p)
    ensures HasEnded(lines, j, t, after, all)
  {
    BeginsHere(lines, p, c, joinable, gap, done);
    assert [open] + body + [close] == [open] + (body + [close]);
    OccursBoth(lines, p, [open], body + [close]);
    OccursLine(lines, p, [open], 0);
    FenceOpens(lines, p, mark, len, c);
    var inside := OpenFence(lines[p], p, c);
    CodeRuns(lines, p + 1, body, close, mark, len, inside, j);
    t := inside.(fence := Outside);
    ClosedCodeIsFresh(lines[p], p, c, joinable, gap, done, j, all);
    FreshEnds(lines, j, t, false, false, Nothing, after, all);
  }

  lemma ClosedCodeIsFresh(raw: string, p: nat, c: ScanState, joinable: bool, gap: bool, done: seq<Anchor>, j: nat,
                          all: seq<Anchor>)
    requires FenceRun(raw) > 0 && IsFresh(c, p, joinable, gap, done) && p <= j && all == done + IfGap(gap, p)
    ensures IsFresh(OpenFence(raw, p, c).(fence := Outside).(skipUntil := j), j, false, false, all)
    ensures OpenFence(raw, p, c).skipUntil <= j && IndicesFit(OpenFence(raw, p, c).(fence := Outside))
  {
  }

  function IfGap(gap: bool, p: nat): seq<Anchor> {
    if gap then [Anchor(p, [])] else []
  }

  lemma DivOpens(lines: seq<string>, p: nat, c: ScanState)
    requires p < |lines| && IndicesFit(c) && IsOpen(c, p) && OpensDiv(lines[p])
    ensures TopLevel(lines, p, c) == OpenDiv(p, c)
  {
    DivIff(lines[p]);
  }

  lemma DivEnds(lines: seq<string>, p: nat, open: string, parts: seq<Part>, close: string, c: ScanState,
                joinable: bool, gap: bool, done: seq<Anchor>, j: nat, after: Context, all: seq<Anchor>)
    returns (t: ScanState)
    requires Occurs(lines, p, [open] + PartsLines(parts) + [close])
    requires OpensDiv(open) && ClosesDiv(close) && forall part <- parts :: IsPart(part)
    requires Begins(lines, p, c, joinable, gap, done)
    requires j == p + |PartsLines(parts)| + 2 && after == Context(false, None, joinable && !gap, Nothing)
    requires all == done + IfGap(gap, p)
    ensures HasEnded(lines, j, t, after, all)
  {
    BeginsHere(lines, p, c, joinable, gap, done);
    var inner := PartsLines(parts);
    assert [open] + inner + [close] == [open] + (inner + [close]);
    OccursBoth(lines, p, [open], inner + [close]);
    OccursLine(lines, p, [open], 0);
    DivOpens(lines, p, c);
    var inside := OpenDiv(p, c);
    DivRuns(lines, p + 1, parts, close, inside, j);
    t := inside.(divDepth := 0);
    ClosedDivIsFresh(p, c, joinable, gap, done, j, all);
    FreshEnds(lines, j, t, joinable && !gap, false, Nothing, after, all);
  }

  lemma ClosedDivIsFresh(p: nat, c: ScanState, joinable: bool, gap: bool, done: seq<Anchor>, j: nat, all: seq<Anchor>)
    requires IsFresh(c, p, joinable, gap, done) && p <= j && all == done + IfGap(gap, p)
    ensures var t := OpenDiv(p, c).(divDepth := 0);
            IsFresh(t.(skipUntil := j), j, joinable && !gap, false, all) && t.skipUntil <= j && IndicesFit(t)
    ensures var t := OpenDiv(p, c); t.fence.Outside? && t.divDepth == 1 && t.skipUntil <= p
  {
  }

  // ----- Notes and references

  lemma {:induction false} SkippedRuns(lines: seq<string>, i: nat, j: nat, st: ScanState)
    requires i <= j <= |lines| && IsAt(lines, i, st) && j <= st.skipUntil
    ensures IsAt(lines, j, st)
    decreases j - i
  {
    if i < j {
      SkippedLine(lines, i, st);
      SkippedRuns(lines, i + 1, j, st);
    }
  }

  lemma SkippedLine(lines: seq<string>, i: nat, st: ScanState)
    requires i < |lines| && IsAt(lines, i, st) && i < st.skipUntil
    ensures IsAt(lines, i + 1, st)
  {
    AtFits(lines, i, st);
    OneLine(lines, i, st);
  }

  lemma LabelIsNoDiv(line: string, a: nat, q: nat)
    requires IsLabelled(line, a, q)
    ensures !IsBlank(line) && !DivFenceOf(line).Opens?
  {
    assert line[a] in line && ":::"[0] == ':';
    assert line[0] != ':';
  }

  lemma NoteOpens(lines: seq<string>, p: nat, c: ScanState)
    requires p < |lines| && IndicesFit(c) && IsOpen(c, p) && c.inGap && IsNoteLine(lines[p])
    ensures TopLevel(lines, p, c) == c.(skipUntil := SkipNote(lines, p + 1))
    ensures !IsBlank(lines[p])
  {
    var line := lines[p];
    var a: nat, q: nat :|
      IsLabelled(line, a, q) && line[a + 1] == '^' && a + 2 < q && q + 1 < |line| && line[q + 1] == ':';
    LabelIsNoDiv(line, a, q);
    NoteIff(line);
  }

  lemma NoteReaches(lines: seq<string>, i: nat, more: seq<string>)
    requires i <= |lines| && Occurs(lines, i, more) && forall l <- more :: GoesOnNote(l)
    ensures SkipNote(lines, i) >= i + |more|
    ensures SkipsOnly(lines, i + |more|, SkipNote(lines, i), MoreOfNote)
  {
    var k := SkipNote(lines, i);
    if k < i + |more| {
      OccursLine(lines, i, more, k - i);
      assert more[k - i] in more;
      GoesOnIff(lines[k]);
    }
    forall j | i <= j < k ensures GoesOnNote(lines[j]) {
      GoesOnIff(lines[j]);
    }
  }

  lemma NoteEnds(lines: seq<string>, p: nat, line: string, more: seq<string>, c: ScanState, joinable: bool,
                 done: seq<Anchor>, j: nat, after: Context)
    returns (t: ScanState)
    requires Occurs(lines, p, [line] + more) && IsNoteLine(line) && forall l <- more :: GoesOnNote(l)
    requires Begins(lines, p, c, joinable, true, done)
    requires j == p + 1 + |more| && after == Context(true, None, joinable, MoreOfNote)
    ensures HasEnded(lines, j, t, after, done)
  {
    BeginsHere(lines, p, c, joinable, true, done);
    OccursBoth(lines, p, [line], more);
    OccursLine(lines, p, [line], 0);
    NoteOpens(lines, p, c);
    t := c.(skipUntil := SkipNote(lines, p + 1));
    NoteReaches(lines, p + 1, more);
    SkippedRuns(lines, p + 1, j, t);
    FreshEnds(lines, j, t, joinable, true, MoreOfNote, after, done);
  }

  lemma ReferenceOpens(lines: seq<string>, p: nat, c: ScanState)
    requires p < |lines| && IndicesFit(c) && IsOpen(c, p) && c.inGap && IsReferenceLine(lines[p])
    ensures TopLevel(lines, p, c) == c.(skipUntil := SkipTitle(lines, p, c.skipUntil))
    ensures !IsBlank(lines[p])
  {
    var line := lines[p];
    var a: nat, q: nat :|
      IsLabelled(line, a, q) && line[a + 1] != '^' && q + 2 < |line| && line[q + 1] == ':' && IsSpace(line[q + 2]);
    LabelIsNoDiv(line, a, q);
    LabelIs(line, a, q);
    ReferenceIff(line);
    assert FootnoteDef(line).None?;
  }

  lemma TitleIs(lines: seq<string>, p: nat, until: int)
    requires p < |lines| && until <= p
    ensures SkipTitle(lines, p, until)
         == if p + 1 < |lines| && !IsBlank(lines[p + 1]) && IsIndented(lines[p + 1], 1) then p + 2 else until
  {
    if p + 1 < |lines| {
      var next := lines[p + 1];
      assert " "[0] == ' ';
      if IsIndented(next, 1) {
        assert next[..1] == " ";
      }
    }
  }

  lemma ReferenceEnds(lines: seq<string>, p: nat, c: ScanState, joinable: bool, done: seq<Anchor>, after: Context)
    returns (t: ScanState)
    requires p < |lines| && IsReferenceLine(lines[p])
    requires Begins(lines, p, c, joinable, true, done)
    requires after == Context(true, None, joinable, TitleOfReference)
    ensures HasEnded(lines, p + 1, t, after, done)
  {
    BeginsHere(lines, p, c, joinable, true, done);
    ReferenceOpens(lines, p, c);
    TitleIs(lines, p, c.skipUntil);
    t := c.(skipUntil := SkipTitle(lines, p, c.skipUntil));
    FreshEnds(lines, p + 1, t, joinable, true, TitleOfReference, after, done);
  }

  lemma TitledReferenceEnds(lines: seq<string>, p: nat, c: ScanState, joinable: bool, done: seq<Anchor>, j: nat,
                            after: Context)
    returns (t: ScanState)
    requires p + 1 < |lines| && IsReferenceLine(lines[p]) && !IsBlank(lines[p + 1]) && IsIndented(lines[p + 1], 1)
    requires Begins(lines, p, c, joinable, true, done)
    requires j == p + 2 && after == Context(true, None, joinable, Nothing)
    ensures HasEnded(lines, j, t, after, done)
  {
    BeginsHere(lines, p, c, joinable, true, done);
    ReferenceOpens(lines, p, c);
    TitleIs(lines, p, c.skipUntil);
    t := c.(skipUntil := SkipTitle(lines, p, c.skipUntil));
    SkippedLine(lines, p + 1, t);
    FreshEnds(lines, j, t, joinable, true, Nothing, after, done);
  }

  // ----- Lists

  /** Inside a list on line `at`, with these items so far. */
  ghost predicate IsInList(st: ScanState, i: nat, at: nat, its: seq<nat>, margin: nat, column: nat, done: seq<Anchor>) {
    && IndicesFit(st) && st.skipUntil <= i && st.fence.Outside? && st.divDepth == 0 && st.inList
    && st.anchors == done + [Anchor(at, [])] && st.items == its
    && st.markerIndent == margin && st.contentIndent == column
    && !st.inDeflist && st.openTerm == -1
  }

  /** Inside a list, and nothing else. */
  predicate IsListOpen(st: ScanState, i: nat) {
    st.skipUntil <= i && st.fence.Outside? && st.divDepth == 0 && st.inList
  }

  lemma MoreOfItem(lines: seq<string>, i: nat, st: ScanState)
    requires i < |lines| && IsAt(lines, i, st) && IsListOpen(st, i)
    requires IsBlank(lines[i]) || IsIndented(lines[i], st.contentIndent)
    ensures IsAt(lines, i + 1, st.(inGap := IsBlank(lines[i])))
  {
    IndentIff(lines[i], st.contentIndent);
    AtFits(lines, i, st);
    OneLine(lines, i, st);
  }

  /** The lines below an item: only the last of them tells whether there is a gap. */
  lemma {:induction false} MoreOfItemRuns(lines: seq<string>, i: nat, more: seq<string>, st: ScanState)
    requires IsAt(lines, i, st) && Occurs(lines, i, more) && IsListOpen(st, i)
    requires forall l <- more :: IsBlank(l) || IsIndented(l, st.contentIndent)
    ensures IsAt(lines, i + |more|, st.(inGap := GapBehind(more, st.inGap)))
  {
    if more == [] {
      assert st.(inGap := st.inGap) == st;
    } else {
      var front, last := more[..|more| - 1], more[|more| - 1];
      assert more == front + [last];
      OccursBoth(lines, i, front, [last]);
      OccursLine(lines, i + |front|, [last], 0);
      MoreOfItemRuns(lines, i, front, st);
      var mid := st.(inGap := GapBehind(front, st.inGap));
      MoreOfItem(lines, i + |front|, mid);
      assert mid.(inGap := IsBlank(last)) == st.(inGap := IsBlank(last));
    }
  }

  function GapBehind(more: seq<string>, gap: bool): bool {
    if more == [] then gap else IsBlank(more[|more| - 1])
  }

  lemma NextItem(lines: seq<string>, i: nat, a: nat, b: nat, c: nat, st: ScanState)
    requires i < |lines| && IsAt(lines, i, st) && IsListOpen(st, i)
    requires IsItemLine(lines[i], a, b, c) && a < st.contentIndent && a <= st.markerIndent
    ensures IsAt(lines, i + 1, st.(items := st.items + [i], contentIndent := c, inGap := false))
  {
    ItemIs(lines[i], a, b, c);
    BulletIsText(lines[i], a, b, c);
    AtFits(lines, i, st);
    OneLine(lines, i, st);
  }

  lemma BulletIsText(line: string, a: nat, b: nat, c: nat)
    requires IsItemLine(line, a, b, c)
    ensures !IsBlank(line) && !IsSpace(line[a])
  {
    BulletHasNoSpace(line[a..b]);
    assert line[a] == line[a..b][0] && line[a] in line;
  }

  /** The first item opens the list: it is no other syntax. */
  lemma ListOpens(lines: seq<string>, p: nat, a: nat, b: nat, c: nat, st: ScanState)
    requires p < |lines| && IndicesFit(st) && IsOpen(st, p) && IsItemLine(lines[p], a, b, c) && a <= 3
    ensures Marker(lines[p]).Some? && TopLevel(lines, p, st) == OpenList(lines[p], p, st)
    ensures Indent(lines[p]) == a && Indent(lines[p]) + Marker(lines[p]).value == c && !IsBlank(lines[p])
  {
    ItemIs(lines[p], a, b, c);
    BulletIsText(lines[p], a, b, c);
    ItemIsNoOther(lines[p], a, b, c);
  }

  lemma ItemIsNoOther(line: string, a: nat, b: nat, c: nat)
    requires IsItemLine(line, a, b, c)
    ensures FenceRun(line) == 0 && !DivFenceOf(line).Opens? && FootnoteDef(line).None? && !IsLinkRefDef(line)
    ensures !IsDefMarker(line[Indent(line)..])
  {
    ItemIs(line, a, b, c);
    BulletIsText(line, a, b, c);
    SkipIs(line, 0, a);
    BulletBegins(line[a..b]);
    assert line[a] == line[a..b][0] == line[a..][0] && ":::"[0] == ':';
  }

  lemma BulletBegins(s: string)
    requires IsBullet(s)
    ensures s != "" && s[0] !in {'`', '~', ':', '['}
  {
  }

  /** The state behind the first items of a list on line `at`, kept folded. */
  ghost predicate ListStands(lines: seq<string>, i: nat, st: ScanState, at: nat, its: seq<nat>, margin: nat,
                             column: nat, done: seq<Anchor>)
  {
    forall k: nat {:trigger Unfold(k)} :: Unfold(k) ==>
      IsAt(lines, i, st) && IsInList(st, i, at, its, margin, column, done)
  }

  lemma FirstItemOpens(lines: seq<string>, p: nat, its: seq<nat>, item: Item, c: ScanState, joinable: bool, gap: bool,
                       done: seq<Anchor>)
    returns (t: ScanState)
    requires p < |lines| && lines[p] == item.line && IsItemLine(item.line, item.a, item.b, item.c) && item.a <= 3
    requires Begins(lines, p, c, joinable, gap, done)
    requires its == [p]
    ensures ListStands(lines, p + 1, t, p, its, item.a, item.c, done) && !t.inGap
  {
    BeginsHere(lines, p, c, joinable, gap, done);
    ListOpens(lines, p, item.a, item.b, item.c, c);
    t := OpenList(lines[p], p, c);
  }

  lemma NextItemOpens(lines: seq<string>, i: nat, at: nat, its: seq<nat>, more: seq<nat>, margin: nat, column: nat,
                      item: Item, st: ScanState, done: seq<Anchor>)
    returns (t: ScanState)
    requires ListStands(lines, i, st, at, its, margin, column, done) && more == its + [i]
    requires i < |lines| && lines[i] == item.line && IsItemLine(item.line, item.a, item.b, item.c)
    requires item.a <= margin && item.a < column
    ensures ListStands(lines, i + 1, t, at, more, margin, item.c, done) && !t.inGap
  {
    assert Unfold(0);
    NextItem(lines, i, item.a, item.b, item.c, st);
    t := st.(items := more, contentIndent := item.c, inGap := false);
  }

  lemma MoreStands(lines: seq<string>, i: nat, more: seq<string>, j: nat, at: nat, its: seq<nat>, margin: nat,
                   column: nat, st: ScanState, done: seq<Anchor>)
    returns (t: ScanState)
    requires ListStands(lines, i, st, at, its, margin, column, done) && Occurs(lines, i, more) && !st.inGap
    requires j == i + |more| && forall l <- more :: IsBlank(l) || IsIndented(l, column)
    ensures ListStands(lines, j, t, at, its, margin, column, done) && t.inGap == GapBehind(more, false)
  {
    assert Unfold(0);
    MoreOfItemRuns(lines, i, more, st);
    t := st.(inGap := GapBehind(more, false));
  }

  lemma NextItemStands(lines: seq<string>, i: nat, j: nat, at: nat, its: seq<nat>, more: seq<nat>, margin: nat,
                       column: nat, item: Item, st: ScanState, done: seq<Anchor>)
    returns (t: ScanState)
    requires j == i + 1 + |item.more| && more == its + [i]
    requires ListStands(lines, i, st, at, its, margin, column, done)
    requires Occurs(lines, i, [item.line] + item.more) && IsItemLine(item.line, item.a, item.b, item.c)
    requires item.a <= margin && item.a < column && forall l <- item.more :: IsBlank(l) || IsIndented(l, item.c)
    ensures ListStands(lines, j, t, at, more, margin, item.c, done)
    ensures t.inGap == GapBehind(item.more, false)
  {
    OccursBoth(lines, i, [item.line], item.more);
    OccursLine(lines, i, [item.line], 0);
    t := NextItemOpens(lines, i, at, its, more, margin, column, item, st, done);
    t := MoreStands(lines, i + 1, item.more, j, at, more, margin, item.c, t, done);
  }

  lemma FirstItemStands(lines: seq<string>, p: nat, j: nat, its: seq<nat>, item: Item, c: ScanState, joinable: bool,
                        gap: bool, done: seq<Anchor>)
    returns (t: ScanState)
    requires j == p + 1 + |item.more| && its == [p]
    requires Occurs(lines, p, [item.line] + item.more) && IsItemLine(item.line, item.a, item.b, item.c) && item.a <= 3
    requires forall l <- item.more :: IsBlank(l) || IsIndented(l, item.c)
    requires Begins(lines, p, c, joinable, gap, done)
    ensures ListStands(lines, j, t, p, its, item.a, item.c, done)
    ensures t.inGap == GapBehind(item.more, false)
  {
    OccursBoth(lines, p, [item.line], item.more);
    OccursLine(lines, p, [item.line], 0);
    t := FirstItemOpens(lines, p, its, item, c, joinable, gap, done);
    t := MoreStands(lines, p + 1, item.more, j, p, its, item.a, item.c, t, done);
  }

  /** `AreBullets`, kept folded. */
  ghost predicate MakeList(items: seq<Item>) {
    forall k: nat {:trigger Unfold(k)} :: Unfold(k) ==> AreBullets(items)
  }

  lemma ItemFits(items: seq<Item>, k: nat)
    requires k < |items| && MakeList(items)
    ensures var item := items[k];
            && IsItemLine(item.line, item.a, item.b, item.c)
            && item.a <= items[0].a <= 3 && (k > 0 ==> item.a < items[k - 1].c)
            && forall l <- item.more :: IsBlank(l) || IsIndented(l, item.c)
  {
    assert Unfold(0);
    if k > 0 {
      assert items[k].a < items[k - 1].c;
    }
  }

  lemma ItemsSplit(items: seq<Item>, n: nat, p: nat)
    requires 0 < n <= |items|
    ensures var front, item := items[..n - 1], items[n - 1];
            && ItemsLines(items[..n]) == ItemsLines(front) + ([item.line] + item.more)
            && ItemLines(items[..n], p) == ItemLines(front, p) + [p + |ItemsLines(front)|]
  {
    assert items[..n][..n - 1] == items[..n - 1];
  }

  lemma NoItems(p: nat)
    ensures ItemsLines([]) == [] && ItemLines([], p) == []
  {
  }

  lemma {:induction false} ItemsRun(lines: seq<string>, p: nat, items: seq<Item>, n: nat, j: nat, its: seq<nat>,
                                    column: nat, c: ScanState, joinable: bool, gap: bool, done: seq<Anchor>)
    returns (t: ScanState)
    requires 0 < n <= |items| && MakeList(items) && Occurs(lines, p, ItemsLines(items[..n]))
    requires j == p + |ItemsLines(items[..n])| && its == ItemLines(items[..n], p) && column == items[n - 1].c
    requires Begins(lines, p, c, joinable, gap, done)
    ensures ListStands(lines, j, t, p, its, items[0].a, column, done)
    ensures t.inGap == GapBehind(items[n - 1].more, false)
    decreases n
  {
    var front, item := items[..n - 1], items[n - 1];
    ItemsSplit(items, n, p);
    ItemFits(items, n - 1);
    if n == 1 {
      assert front == [];
      NoItems(p);
      t := FirstItemStands(lines, p, j, its, item, c, joinable, gap, done);
    } else {
      var i, before := p + |ItemsLines(front)|, ItemLines(front, p);
      OccursBoth(lines, p, ItemsLines(front), [item.line] + item.more);
      t := ItemsRun(lines, p, items, n - 1, i, before, items[n - 2].c, c, joinable, gap, done);
      t := NextItemStands(lines, i, j, p, before, its, items[0].a, items[n - 2].c, item, t, done);
    }
  }

  lemma ClosedList(st: ScanState, at: nat, its: seq<nat>, margin: nat, column: nat, i: nat, done: seq<Anchor>)
    requires IsInList(st, i, at, its, margin, column, done)
    ensures CloseList(st).anchors == done + [Anchor(at, its)]
  {
    var anchors := done + [Anchor(at, [])];
    assert anchors[|anchors| - 1 := Anchor(at, its)] == done + [Anchor(at, its)];
  }

  lemma StandingEnds(lines: seq<string>, j: nat, st: ScanState, at: nat, its: seq<nat>, margin: nat, column: nat,
                     done: seq<Anchor>, after: Context, all: seq<Anchor>)
    requires ListStands(lines, j, st, at, its, margin, column, done) && !st.inGap
    requires after == Context(false, Some((margin, column)), false, Nothing) && all == done + [Anchor(at, its)]
    ensures HasEnded(lines, j, st, after, all)
  {
    assert Unfold(0);
    ClosedList(st.(skipUntil := j), at, its, margin, column, j, done);
  }

  lemma LastGap(items: seq<Item>)
    requires AreBullets(items)
    ensures MakeList(items) && !GapBehind(items[|items| - 1].more, false)
  {
  }

  lemma ListEnds(lines: seq<string>, p: nat, items: seq<Item>, c: ScanState, joinable: bool, gap: bool,
                 done: seq<Anchor>, j: nat, after: Context, all: seq<Anchor>)
    returns (t: ScanState)
    requires items != [] && MakeList(items) && !GapBehind(items[|items| - 1].more, false)
    requires Occurs(lines, p, ItemsLines(items))
    requires Begins(lines, p, c, joinable, gap, done)
    requires j == p + |ItemsLines(items)| && all == done + [Anchor(p, ItemLines(items, p))]
    requires after == Context(false, Some((items[0].a, items[|items| - 1].c)), false, Nothing)
    ensures HasEnded(lines, j, t, after, all)
  {
    assert items[..|items|] == items;
    var its, column := ItemLines(items, p), items[|items| - 1].c;
    t := ItemsRun(lines, p, items, |items|, j, its, column, c, joinable, gap, done);
    StandingEnds(lines, j, t, p, its, items[0].a, column, done, after, all);
  }

  // ----- Definition lists

  /** Inside a definition list whose first term is on line `at`, behind a definition. */
  ghost predicate IsInDefinitions(st: ScanState, i: nat, at: nat, done: seq<Anchor>) {
    && IndicesFit(st) && IsOpen(st, i) && !st.inGap && st.anchors == done + [Anchor(at, [])]
    && st.inDeflist && st.deflistTerm == |done| && st.openTerm == -1
  }

  /** The same for the state before line `i`, kept folded. */
  ghost predicate DefinitionsStand(lines: seq<string>, i: nat, st: ScanState, at: nat, done: seq<Anchor>) {
    forall k: nat {:trigger Unfold(k)} :: Unfold(k) ==> IsAt(lines, i, st) && IsInDefinitions(st, i, at, done)
  }

  lemma DefinitionIsNoOther(line: string)
    requires IsDefinition(line)
    ensures !IsBlank(line) && FenceRun(line) == 0 && !DivFenceOf(line).Opens?
    ensures FootnoteDef(line).None? && !IsLinkRefDef(line)
    ensures Indent(line) <= 3 && IsDefMarker(line[Indent(line)..])
  {
    DefinitionIff(line);
    var a := Indent(line);
    var s := line[a..];
    assert s[0] == line[a] && s[1] == line[a + 1] && line[a] in line;
    assert forall k :: 0 <= k < a ==> line[k] == ' ';
    SkipIs(line, 0, a);
    assert ":::"[1] == ':' && ":::"[0] == ':';
  }

  lemma DefinitionStep(lines: seq<string>, i: nat, st: ScanState)
    requires i < |lines| && IsAt(lines, i, st) && IndicesFit(st)
    requires IsOpen(st, i) && (st.inDeflist || st.openTerm >= 0)
    requires IsDefinition(lines[i])
    ensures IsAt(lines, i + 1, Definition(st))
  {
    DefinitionIsNoOther(lines[i]);
    AtFits(lines, i, st);
    OneLine(lines, i, st);
  }

  lemma MarkStep(lines: seq<string>, i: nat, st: ScanState, at: nat, done: seq<Anchor>)
    requires i < |lines| && DefinitionsStand(lines, i, st, at, done)
    requires IsDefinition(lines[i]) || IsMoreText(lines[i])
    ensures DefinitionsStand(lines, i + 1, st, at, done)
  {
    assert Unfold(0);
    if IsDefinition(lines[i]) {
      DefinitionStep(lines, i, st);
      assert Definition(st) == st;
    } else {
      MoreTextStep(lines, i, st);
    }
  }

  lemma {:induction false} MarksRun(lines: seq<string>, i: nat, marks: seq<string>, st: ScanState, at: nat,
                                    done: seq<Anchor>, j: nat)
    requires DefinitionsStand(lines, i, st, at, done) && Occurs(lines, i, marks) && j == i + |marks|
    requires forall l <- marks :: IsDefinition(l) || IsMoreText(l)
    ensures DefinitionsStand(lines, j, st, at, done)
    decreases |marks|
  {
    if marks != [] {
      OccursLine(lines, i, marks, 0);
      MarkStep(lines, i, st, at, done);
      assert marks == [marks[0]] + marks[1..];
      OccursBoth(lines, i, [marks[0]], marks[1..]);
      MarksRun(lines, i + 1, marks[1..], st, at, done, j);
    }
  }

  /** A term has been read, the first one of its list or one that is still to be merged into it. */
  ghost predicate HasTerm(st: ScanState, i: nat, at: nat, done: seq<Anchor>, first: bool) {
    && IndicesFit(st) && IsOpen(st, i) && st.openTerm == |st.anchors| - 1
    && if first then !st.inDeflist && st.anchors == done + [Anchor(at, [])]
       else st.inDeflist && st.deflistTerm == |done| && |st.anchors| == |done| + 2
            && st.anchors[..|done| + 1] == done + [Anchor(at, [])]
  }

  /** The same for the state before line `i`, kept folded. */
  ghost predicate TermStands(lines: seq<string>, i: nat, st: ScanState, at: nat, done: seq<Anchor>, first: bool) {
    forall k: nat {:trigger Unfold(k)} :: Unfold(k) ==> IsAt(lines, i, st) && HasTerm(st, i, at, done, first)
  }

  lemma SpaceBehindTerm(lines: seq<string>, i: nat, space: seq<string>, st: ScanState, at: nat, done: seq<Anchor>,
                        first: bool, j: nat)
    returns (t: ScanState)
    requires TermStands(lines, i, st, at, done, first) && Occurs(lines, i, space) && AreBlank(space)
    requires j == i + |space|
    ensures TermStands(lines, j, t, at, done, first)
  {
    assert Unfold(0);
    BlanksRun(lines, i, space, st, j);
    t := Gapped(st, space != []);
    GappedTerm(st, i, j, at, done, first, space != []);
  }

  lemma GappedTerm(st: ScanState, i: nat, j: nat, at: nat, done: seq<Anchor>, first: bool, more: bool)
    requires HasTerm(st, i, at, done, first) && i <= j
    ensures HasTerm(Gapped(st, more), j, at, done, first)
  {
  }

  /** The first definition below a term. */
  lemma TermIsDefined(lines: seq<string>, i: nat, st: ScanState, at: nat, done: seq<Anchor>, first: bool)
    returns (t: ScanState)
    requires TermStands(lines, i, st, at, done, first) && i < |lines| && IsDefinition(lines[i])
    ensures DefinitionsStand(lines, i + 1, t, at, done)
  {
    assert Unfold(0);
    DefinitionStep(lines, i, st);
    t := Definition(st);
  }

  lemma MarksBegin(g: Group) returns (rest: seq<string>)
    requires IsGroup(g)
    ensures IsDefinition(g.marks[0]) && g.marks == [g.marks[0]] + rest && AreBlank(g.space) && IsParagraph(g.term)
    ensures forall l <- rest :: IsDefinition(l) || IsMoreText(l)
  {
    rest := g.marks[1..];
    forall l | l in rest ensures IsDefinition(l) || IsMoreText(l) {
      assert l in g.marks;
    }
  }

  /** The definitions below a term. */
  lemma DefinitionsRun(lines: seq<string>, i: nat, space: seq<string>, mark: string, rest: seq<string>, st: ScanState,
                       at: nat, done: seq<Anchor>, first: bool, j: nat)
    returns (t: ScanState)
    requires TermStands(lines, i, st, at, done, first) && Occurs(lines, i, space + ([mark] + rest))
    requires AreBlank(space) && IsDefinition(mark) && forall l <- rest :: IsDefinition(l) || IsMoreText(l)
    requires j == i + |space| + 1 + |rest|
    ensures DefinitionsStand(lines, j, t, at, done)
  {
    var k := i + |space|;
    OccursBoth(lines, i, space, [mark] + rest);
    OccursBoth(lines, k, [mark], rest);
    OccursLine(lines, k, [mark], 0);
    t := SpaceBehindTerm(lines, i, space, st, at, done, first, k);
    t := TermIsDefined(lines, k, t, at, done, first);
    MarksRun(lines, k + 1, rest, t, at, done, j);
  }

  lemma FirstTerm(lines: seq<string>, p: nat, text: seq<string>, c: ScanState, done: seq<Anchor>, j: nat)
    returns (t: ScanState)
    requires Occurs(lines, p, text) && IsParagraph(text) && j == p + |text|
    requires Begins(lines, p, c, false, true, done)
    ensures TermStands(lines, j, t, p, done, true)
  {
    BeginsHere(lines, p, c, false, true, done);
    ParagraphRuns(lines, p, text, c, j);
    t := Generic(p, c);
    FirstTermIs(p, j, c, done);
  }

  lemma FirstTermIs(p: nat, j: nat, c: ScanState, done: seq<Anchor>)
    requires IsFresh(c, p, false, true, done) && p <= j
    ensures HasTerm(Generic(p, c), j, p, done, true)
  {
  }

  lemma FirstGroupRuns(lines: seq<string>, p: nat, g: Group, c: ScanState, done: seq<Anchor>, j: nat)
    returns (t: ScanState)
    requires Occurs(lines, p, g.term + (g.space + g.marks)) && IsGroup(g)
    requires Begins(lines, p, c, false, true, done)
    requires j == p + |g.term| + |g.space| + |g.marks|
    ensures DefinitionsStand(lines, j, t, p, done)
  {
    OccursBoth(lines, p, g.term, g.space + g.marks);
    var i := p + |g.term|;
    var rest := MarksBegin(g);
    t := FirstTerm(lines, p, g.term, c, done, i);
    t := DefinitionsRun(lines, i, g.space, g.marks[0], rest, t, p, done, true, j);
  }

  /** The gap before a later group. */
  lemma GapRuns(lines: seq<string>, i: nat, gap: seq<string>, st: ScanState, at: nat, done: seq<Anchor>, j: nat)
    requires DefinitionsStand(lines, i, st, at, done) && Occurs(lines, i, gap) && AreBlank(gap) && gap != []
    requires j == i + |gap|
    ensures IsAt(lines, j, Gapped(st, true)) && IsInDefinitions(st, j, at, done)
  {
    assert Unfold(0);
    BlanksRun(lines, i, gap, st, j);
  }

  lemma NextTerm(lines: seq<string>, q: nat, text: seq<string>, st: ScanState, at: nat, done: seq<Anchor>, j: nat)
    returns (t: ScanState)
    requires IsAt(lines, q, Gapped(st, true)) && IsInDefinitions(st, q, at, done)
    requires Occurs(lines, q, text) && IsParagraph(text) && j == q + |text|
    ensures TermStands(lines, j, t, at, done, false)
  {
    var gapped := Gapped(st, true);
    OccursLine(lines, q, text, 0);
    GapIsOpen(st, q, at, done);
    TermBegins(lines, q, gapped);
    ParagraphRuns(lines, q, text, gapped, j);
    t := Generic(q, gapped);
    NextTermIs(q, j, st, at, done);
  }

  lemma NextTermIs(q: nat, j: nat, st: ScanState, at: nat, done: seq<Anchor>)
    requires IsInDefinitions(st, q, at, done) && q <= j
    ensures HasTerm(Generic(q, Gapped(st, true)), j, at, done, false)
  {
  }

  lemma GapIsOpen(st: ScanState, q: nat, at: nat, done: seq<Anchor>)
    requires IsInDefinitions(st, q, at, done)
    ensures var t := Gapped(st, true); IndicesFit(t) && IsOpen(t, q) && t.inGap
  {
  }

  lemma TermBegins(lines: seq<string>, q: nat, st: ScanState)
    requires q < |lines| && IsAt(lines, q, st) && IndicesFit(st) && IsOpen(st, q) && IsMoreText(lines[q])
    ensures IsAt(lines, q + 1, TopLevel(lines, q, st))
  {
    AtFits(lines, q, st);
    OneLine(lines, q, st);
  }

  lemma NextGroupRuns(lines: seq<string>, i: nat, g: Group, st: ScanState, at: nat, done: seq<Anchor>, j: nat)
    returns (t: ScanState)
    requires DefinitionsStand(lines, i, st, at, done) && Occurs(lines, i, g.gap + (g.term + (g.space + g.marks)))
    requires IsGroup(g) && g.gap != [] && j == i + |g.gap| + |g.term| + |g.space| + |g.marks|
    ensures DefinitionsStand(lines, j, t, at, done)
  {
    var q := i + |g.gap|;
    var k := q + |g.term|;
    OccursBoth(lines, i, g.gap, g.term + (g.space + g.marks));
    OccursBoth(lines, q, g.term, g.space + g.marks);
    GapRuns(lines, i, g.gap, st, at, done, q);
    t := NextTerm(lines, q, g.term, st, at, done, k);
    var rest := MarksBegin(g);
    t := DefinitionsRun(lines, k, g.space, g.marks[0], rest, t, at, done, false, j);
  }
}
