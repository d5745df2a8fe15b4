/** Which lines the scan reports: the anchors and list items, characterised line by line. */
module SentinelScanLaws {
  import opened Options
  import opened PyText
  import opened SentinelLines
  import opened SentinelScanner

  ghost predicate HasAnchor(anchors: seq<Anchor>, v: nat) {
    exists k: nat :: k < |anchors| && anchors[k].line == v
  }

  /** `v` is an item of a list that is closed, or of the one that is open. */
  ghost predicate HasItem(st: ScanState, v: nat) {
    (st.inList && v in st.items) || exists k: nat :: k < |st.anchors| && v in st.anchors[k].items
  }

  /** The line is looked at: it is not skipped, not in a fence or div, not blank and not in the open list. */
  predicate IsRead(raw: string, i: nat, st: ScanState) {
    && i >= st.skipUntil && st.fence.Outside? && st.divDepth <= 0 && !IsBlank(raw)
    && !(st.inList && StaysInList(raw, st))
  }

  /** The line defines a footnote or a link. Such definitions count only after a gap. */
  predicate IsHoisted(raw: string, st: ScanState) {
    !DivFenceOf(raw).Opens? && st.inGap && (FootnoteDef(raw).Some? || IsLinkRefDef(raw))
  }

  predicate OpensFenceOrDiv(raw: string) {
    DivFenceOf(raw).Opens? || FenceRun(raw) > 0
  }

  predicate IsDefinitionLine(raw: string, i: nat, st: ScanState) {
    IsRead(raw, i, st) && !IsHoisted(raw, st) && !OpensFenceOrDiv(raw) && AttachesToTerm(raw, st)
  }

  predicate StartsList(raw: string, i: nat, st: ScanState) {
    && IsRead(raw, i, st) && !IsHoisted(raw, st) && !OpensFenceOrDiv(raw) && !AttachesToTerm(raw, st)
    && Marker(raw).Some? && Indent(raw) <= 3
  }

  /** A line starts a block if it starts a list, or follows a gap and is no definition of any kind. */
  predicate StartsBlock(raw: string, i: nat, st: ScanState) {
    || StartsList(raw, i, st)
    || (IsRead(raw, i, st) && st.inGap && !IsHoisted(raw, st) && (OpensFenceOrDiv(raw) || !AttachesToTerm(raw, st)))
  }

  /** A definition line that joins the block of line `v`, its term, to the open definition list. */
  predicate MergesBlock(raw: string, i: nat, st: ScanState, v: nat) {
    IsDefinitionLine(raw, i, st) && MergesTerm(st) && st.anchors != [] && st.anchors[|st.anchors| - 1].line == v
  }

  /** The line is an item of a list: its first, or a later one at the margin of the open list. */
  predicate IsItem(raw: string, i: nat, st: ScanState) {
    || StartsList(raw, i, st)
    || (st.inList && i >= st.skipUntil && st.fence.Outside? && st.divDepth <= 0 && !IsBlank(raw)
        && Indent(raw) < st.contentIndent && Marker(raw).Some? && Indent(raw) <= st.markerIndent)
  }

  // ----- One step

  lemma AppendedAnchor(anchors: seq<Anchor>, i: nat, v: nat)
    ensures HasAnchor(anchors + [Anchor(i, [])], v) <==> HasAnchor(anchors, v) || v == i
  {
    var more := anchors + [Anchor(i, [])];
    if HasAnchor(anchors, v) {
      var k: nat :| k < |anchors| && anchors[k].line == v;
      assert more[k].line == v;
    }
    if v == i {
      assert more[|anchors|].line == v;
    }
  }

  lemma {:induction false} LinesIncrease(anchors: seq<Anchor>, n: nat, j: nat, k: nat)
    requires ArePlaced(anchors, n) && j < k < |anchors|
    ensures anchors[j].line < anchors[k].line
    decreases k
  {
    assert IsPlaced(anchors, k - 1, n);
    if j < k - 1 {
      LinesIncrease(anchors, n, j, k - 1);
    }
  }

  lemma DroppedAnchor(anchors: seq<Anchor>, n: nat, v: nat)
    requires ArePlaced(anchors, n) && anchors != []
    ensures HasAnchor(anchors[..|anchors| - 1], v) <==> HasAnchor(anchors, v) && v != anchors[|anchors| - 1].line
  {
    var last := |anchors| - 1;
    if HasAnchor(anchors[..last], v) {
      var k: nat :| k < last && anchors[..last][k].line == v;
      LinesIncrease(anchors, n, k, last);
    }
    if HasAnchor(anchors, v) && v != anchors[last].line {
      var k: nat :| k < |anchors| && anchors[k].line == v;
      assert anchors[..last][k].line == v;
    }
  }

  lemma ClosedAnchors(st: ScanState, v: nat)
    requires IndicesFit(st)
    ensures HasAnchor(CloseList(st).anchors, v) <==> HasAnchor(st.anchors, v)
  {
    var closed := CloseList(st).anchors;
    assert |closed| == |st.anchors| && forall k: nat :: k < |closed| ==> closed[k].line == st.anchors[k].line;
    if HasAnchor(st.anchors, v) {
      var k: nat :| k < |st.anchors| && st.anchors[k].line == v;
      assert closed[k].line == v;
    }
  }

  lemma TopLevelAnchors(lines: seq<string>, i: nat, st: ScanState, v: nat)
    requires i < |lines| && Inv(st, i) && !st.inList && IsRead(lines[i], i, st)
    ensures HasAnchor(TopLevel(lines, i, st).anchors, v)
            <==> (v == i && StartsBlock(lines[i], i, st)) ||
                 (HasAnchor(st.anchors, v) && !MergesBlock(lines[i], i, st, v))
  {
    AppendedAnchor(st.anchors, i, v);
    if MergesTerm(st) {
      DroppedAnchor(st.anchors, i, v);
    }
  }

  lemma StepAnchors(lines: seq<string>, i: nat, st: ScanState, v: nat)
    requires i < |lines| && Inv(st, i)
    ensures HasAnchor(ScanLine(lines, i, st).anchors, v)
            <==> (v == i && StartsBlock(lines[i], i, st)) ||
                 (HasAnchor(st.anchors, v) && !MergesBlock(lines[i], i, st, v))
  {
    if IsRead(lines[i], i, st) {
      CloseListKeeps(st, i);
      ClosedAnchors(st, v);
      TopLevelAnchors(lines, i, if st.inList then CloseList(st) else st, v);
    }
  }

  /** A definition line before line `n` merges the block of line `v` away. */
  ghost predicate IsMerged(lines: seq<string>, v: nat, n: nat)
    requires n <= |lines|
  {
    exists j: nat :: v < j < n && MergesBlock(lines[j], j, Before(lines, j), v)
  }

  lemma AnchorsStep(lines: seq<string>, i: nat, v: nat)
    requires i < |lines|
    ensures HasAnchor(Before(lines, i + 1).anchors, v)
            <==> (v == i && StartsBlock(lines[i], i, Before(lines, i)))
                 || (HasAnchor(Before(lines, i).anchors, v) && !MergesBlock(lines[i], i, Before(lines, i), v))
  {
    assert Inv(Before(lines, i), i) by {
      assert Unfold(0);
    }
    StepAnchors(lines, i, Before(lines, i), v);
  }

  /** Something that starts at `v`, and lasts until it is ended. */
  lemma {:induction false} LastsUntilEnded(has: seq<bool>, starts: bool, ended: seq<bool>, v: nat, n: nat)
    requires n < |has| && n <= |ended| && !has[0]
    requires forall i :: 0 <= i < n ==> (has[i + 1] <==> (v == i && starts) || (has[i] && !ended[i]))
    ensures has[n] <==> v < n && starts && forall j :: v < j < n ==> !ended[j]
  {
    if n > 0 {
      LastsUntilEnded(has, starts, ended, v, n - 1);
    }
  }

  /** `has` tells before which lines `v` is an anchor, `ended` which lines merge its block. Kept folded. */
  ghost predicate Traces(lines: seq<string>, v: nat, has: seq<bool>, ended: seq<bool>) {
    forall k: nat {:trigger Unfold(k)} :: Unfold(k) ==>
      && |has| == |lines| + 1 && |ended| == |lines|
      && (forall i :: 0 <= i <= |lines| ==> has[i] == HasAnchor(Before(lines, i).anchors, v))
      && (forall i :: 0 <= i < |lines| ==> ended[i] == MergesBlock(lines[i], i, Before(lines, i), v))
  }

  ghost predicate StartsAt(lines: seq<string>, v: nat) {
    v < |lines| && StartsBlock(lines[v], v, Before(lines, v))
  }

  lemma TraceExists(lines: seq<string>, v: nat) returns (has: seq<bool>, ended: seq<bool>)
    ensures |has| == |lines| + 1 && |ended| == |lines| && !has[0] && Traces(lines, v, has, ended)
  {
    has := seq(|lines| + 1, i requires 0 <= i <= |lines| => HasAnchor(Before(lines, i).anchors, v));
    ended := seq(|lines|, i requires 0 <= i < |lines| => MergesBlock(lines[i], i, Before(lines, i), v));
  }

  lemma TraceStep(lines: seq<string>, v: nat, has: seq<bool>, ended: seq<bool>, i: nat, starts: bool)
    requires i < |lines| && |has| == |lines| + 1 && |ended| == |lines| && Traces(lines, v, has, ended)
    requires v < |lines| ==> starts == StartsAt(lines, v)
    ensures has[i + 1] <==> (v == i && starts) || (has[i] && !ended[i])
  {
    assert Unfold(0);
    AnchorsStep(lines, i, v);
  }

  lemma TraceIs(lines: seq<string>, v: nat, has: seq<bool>, ended: seq<bool>, n: nat, starts: bool)
    requires n <= |lines| && |has| == |lines| + 1 && |ended| == |lines| && Traces(lines, v, has, ended) && !has[0]
    requires v < |lines| ==> starts == StartsAt(lines, v)
    ensures has[n] <==> v < n && starts && forall j :: v < j < n ==> !ended[j]
  {
    forall i | 0 <= i < n ensures has[i + 1] <==> (v == i && starts) || (has[i] && !ended[i]) {
      TraceStep(lines, v, has, ended, i, starts);
    }
    LastsUntilEnded(has, starts, ended, v, n);
  }

  lemma TraceMerges(lines: seq<string>, v: nat, has: seq<bool>, ended: seq<bool>, n: nat)
    requires n <= |lines| && |has| == |lines| + 1 && |ended| == |lines| && Traces(lines, v, has, ended)
    ensures has[n] == HasAnchor(Before(lines, n).anchors, v)
    ensures IsMerged(lines, v, n) <==> exists j :: v < j < n && ended[j]
  {
    assert Unfold(0);
  }

  /** The anchors so far are exactly the lines that started a block and were not merged away since. */
  lemma AnchorsBefore(lines: seq<string>, n: nat, v: nat)
    requires n <= |lines|
    ensures HasAnchor(Before(lines, n).anchors, v) <==> v < n && StartsAt(lines, v) && !IsMerged(lines, v, n)
  {
    var has, ended := TraceExists(lines, v);
    TraceIs(lines, v, has, ended, n, StartsAt(lines, v));
    TraceMerges(lines, v, has, ended, n);
  }

  /** A line is reported as a block exactly if it starts one and no later definition line merges it away. */
  lemma BlocksAre(lines: seq<string>, v: nat)
    ensures HasAnchor(Blocks(lines), v)
            <==> v < |lines| && StartsAt(lines, v) && !IsMerged(lines, v, |lines|)
  {
    AnchorsBefore(lines, |lines|, v);
    ClosedAnchors(Before(lines, |lines|), v);
  }

  // ----- List items

  ghost predicate InAnchors(anchors: seq<Anchor>, v: nat) {
    exists k: nat :: k < |anchors| && v in anchors[k].items
  }

  lemma AppendedItems(anchors: seq<Anchor>, i: nat, v: nat)
    ensures InAnchors(anchors + [Anchor(i, [])], v) <==> InAnchors(anchors, v)
  {
    var more := anchors + [Anchor(i, [])];
    if InAnchors(anchors, v) {
      var k: nat :| k < |anchors| && v in anchors[k].items;
      assert v in more[k].items;
    }
  }

  lemma DroppedItems(anchors: seq<Anchor>, v: nat)
    requires anchors != [] && anchors[|anchors| - 1].items == []
    ensures InAnchors(anchors[..|anchors| - 1], v) <==> InAnchors(anchors, v)
  {
    var last := |anchors| - 1;
    if InAnchors(anchors, v) {
      var k: nat :| k < |anchors| && v in anchors[k].items;
      assert v in anchors[..last][k].items;
    }
  }

  lemma ClosedItems(st: ScanState, i: nat, v: nat)
    requires Inv(st, i) && st.inList
    ensures InAnchors(CloseList(st).anchors, v) <==> HasItem(st, v)
  {
    var last := |st.anchors| - 1;
    var closed := CloseList(st).anchors;
    assert closed == st.anchors[last := Anchor(st.anchors[last].line, st.items)];
    if v in st.items {
      assert v in closed[last].items;
    }
    if InAnchors(st.anchors, v) {
      var k: nat :| k < |st.anchors| && v in st.anchors[k].items;
      assert v in closed[k].items;
    }
  }

  lemma OpenersHaveNoItems(raw: string, i: nat, st: ScanState, v: nat)
    requires !st.inList
    ensures HasItem(OpenDiv(i, st), v) <==> InAnchors(st.anchors, v)
    ensures HasItem(Generic(i, st), v) <==> InAnchors(st.anchors, v)
    ensures FenceRun(raw) > 0 ==> (HasItem(OpenFence(raw, i, st), v) <==> InAnchors(st.anchors, v))
  {
    AppendedItems(st.anchors, i, v);
  }

  lemma DefinitionsHaveNoItems(i: nat, st: ScanState, v: nat)
    requires !st.inList && Inv(st, i)
    ensures HasItem(Definition(st), v) <==> InAnchors(st.anchors, v)
  {
    if MergesTerm(st) {
      DroppedItems(st.anchors, v);
    }
  }

  lemma ListsHaveItems(raw: string, i: nat, st: ScanState, v: nat)
    requires !st.inList && Marker(raw).Some?
    ensures HasItem(OpenList(raw, i, st), v) <==> v == i || InAnchors(st.anchors, v)
  {
    AppendedItems(st.anchors, i, v);
  }

  lemma TopLevelItems(lines: seq<string>, i: nat, st: ScanState, v: nat)
    requires i < |lines| && Inv(st, i) && !st.inList && IsRead(lines[i], i, st)
    ensures HasItem(TopLevel(lines, i, st), v) <==> (v == i && StartsList(lines[i], i, st)) || InAnchors(st.anchors, v)
  {
    if OpensFenceOrDiv(lines[i]) || IsHoisted(lines[i], st) {
      OpenersHaveNoItems(lines[i], i, st, v);
    } else if AttachesToTerm(lines[i], st) {
      DefinitionsHaveNoItems(i, st, v);
    } else if Marker(lines[i]).Some? && Indent(lines[i]) <= 3 {
      ListsHaveItems(lines[i], i, st, v);
    } else {
      OpenersHaveNoItems(lines[i], i, st, v);
    }
  }

  lemma StepItems(lines: seq<string>, i: nat, st: ScanState, v: nat)
    requires i < |lines| && Inv(st, i)
    ensures HasItem(ScanLine(lines, i, st), v) <==> (v == i && IsItem(lines[i], i, st)) || HasItem(st, v)
  {
    if IsRead(lines[i], i, st) {
      CloseListKeeps(st, i);
      if st.inList {
        ClosedItems(st, i, v);
      }
      TopLevelItems(lines, i, if st.inList then CloseList(st) else st, v);
    }
  }

  lemma {:induction false} ItemsBefore(lines: seq<string>, n: nat, v: nat)
    requires n <= |lines|
    ensures HasItem(Before(lines, n), v) <==> v < n && IsItem(lines[v], v, Before(lines, v))
  {
    if n > 0 {
      ItemsBefore(lines, n - 1, v);
      var st := Before(lines, n - 1);
      assert Inv(st, n - 1) by {
        assert Unfold(0);
      }
      StepItems(lines, n - 1, st, v);
    }
  }

  /** The reported item lines are exactly the lines that are list items when they are scanned. */
  lemma ItemsAre(lines: seq<string>, v: nat)
    ensures InAnchors(Blocks(lines), v) <==> v < |lines| && IsItem(lines[v], v, Before(lines, v))
  {
    var st := Before(lines, |lines|);
    ItemsBefore(lines, |lines|, v);
    assert Inv(st, |lines|) by {
      assert Unfold(0);
    }
    if st.inList {
      ClosedItems(st, |lines|, v);
    }
  }

  // ----- Documents of plain paragraphs

  /** The state before line `n`, kept folded. */
  ghost predicate IsBefore(lines: seq<string>, n: nat, st: ScanState) {
    forall k: nat {:trigger Unfold(k)} :: Unfold(k) ==> n <= |lines| && st == Before(lines, n)
  }

  lemma NextBefore(lines: seq<string>, n: nat, st: ScanState)
    requires n < |lines| && IsBefore(lines, n, st) && IndicesFit(st)
    ensures IsBefore(lines, n + 1, ScanLine(lines, n, st)) && IndicesFit(ScanLine(lines, n, st))
  {
    assert Unfold(0);
    assert Before(lines, n + 1) == ScanLine(lines, n, st);
  }

  /** A line without block syntax: no fence, no div, no definition and no list marker. */
  predicate IsPlain(raw: string) {
    && FenceRun(raw) == 0 && !DivFenceOf(raw).Opens? && FootnoteDef(raw).None? && !IsLinkRefDef(raw)
    && !IsDefMarker(raw[Indent(raw)..]) && Marker(raw).None?
  }

  predicate StartsParagraph(lines: seq<string>, v: nat) {
    v < |lines| && !IsBlank(lines[v]) && (v == 0 || IsBlank(lines[v - 1]))
  }

  ghost predicate IsPlainState(lines: seq<string>, n: nat, st: ScanState)
    requires n <= |lines|
  {
    && st.skipUntil == -1 && st.fence.Outside? && !st.inList && !st.inDeflist && st.divDepth == 0
    && (st.inGap <==> n == 0 || IsBlank(lines[n - 1]))
  }

  lemma PlainStep(lines: seq<string>, i: nat, st: ScanState)
    requires i < |lines| && IsPlain(lines[i]) && IndicesFit(st) && IsPlainState(lines, i, st)
    ensures IsPlainState(lines, i + 1, ScanLine(lines, i, st))
    ensures StartsBlock(lines[i], i, st) <==> StartsParagraph(lines, i)
    ensures !IsDefinitionLine(lines[i], i, st)
  {
  }

  /** `IsPlainState`, kept folded. */
  ghost predicate StaysPlain(lines: seq<string>, n: nat, st: ScanState)
    requires n <= |lines|
  {
    forall k: nat {:trigger Unfold(k)} :: Unfold(k) ==> IsPlainState(lines, n, st)
  }

  /** All lines are plain, kept folded. */
  ghost predicate AllPlain(lines: seq<string>) {
    forall k: nat {:trigger Unfold(k)} :: Unfold(k) ==> forall l <- lines :: IsPlain(l)
  }

  lemma PlainNext(lines: seq<string>, i: nat, st: ScanState)
    requires i < |lines| && AllPlain(lines) && IndicesFit(st) && StaysPlain(lines, i, st)
    ensures StaysPlain(lines, i + 1, ScanLine(lines, i, st))
  {
    assert Unfold(0);
    PlainStep(lines, i, st);
  }

  lemma {:induction false} PlainRuns(lines: seq<string>, i: nat, j: nat, st: ScanState) returns (t: ScanState)
    requires i <= j <= |lines| && AllPlain(lines)
    requires IsBefore(lines, i, st) && IndicesFit(st) && StaysPlain(lines, i, st)
    ensures IsBefore(lines, j, t) && IndicesFit(t) && StaysPlain(lines, j, t)
    decreases j - i
  {
    t := st;
    if i < j {
      PlainNext(lines, i, st);
      NextBefore(lines, i, st);
      t := PlainRuns(lines, i + 1, j, ScanLine(lines, i, st));
    }
  }

  lemma PlainLine(lines: seq<string>, j: nat)
    requires j < |lines| && AllPlain(lines)
    ensures !IsDefinitionLine(lines[j], j, Before(lines, j)) && (StartsAt(lines, j) <==> StartsParagraph(lines, j))
  {
    var st := PlainRuns(lines, 0, j, START);
    assert Unfold(0);
    PlainStep(lines, j, st);
  }

  /** Without block syntax the blocks are the paragraphs: the lines that follow a blank line or nothing. */
  lemma ParagraphsAreBlocks(lines: seq<string>, v: nat)
    requires forall l <- lines :: IsPlain(l)
    ensures HasAnchor(Blocks(lines), v) <==> StartsParagraph(lines, v)
  {
    BlocksAre(lines, v);
    assert AllPlain(lines);
    forall j: nat | j < |lines|
      ensures !IsDefinitionLine(lines[j], j, Before(lines, j)) && (StartsAt(lines, j) <==> StartsParagraph(lines, j))
    {
      PlainLine(lines, j);
    }
  }

  // ----- Fences and lists hold together

  lemma FenceStep(lines: seq<string>, i: nat, st: ScanState)
    requires i < |lines| && IndicesFit(st)
    requires st.fence.Inside? && st.skipUntil <= i && !ClosesFence(lines[i], st.fence)
    ensures ScanLine(lines, i, st) == st
  {
  }

  lemma {:induction false} FenceRuns(lines: seq<string>, i: nat, j: nat, st: ScanState)
    requires i <= j <= |lines| && IsBefore(lines, i, st) && IndicesFit(st) && st.fence.Inside? && st.skipUntil <= i
    requires forall k: nat :: i <= k < j ==> !ClosesFence(lines[k], st.fence)
    ensures IsBefore(lines, j, st)
    decreases j - i
  {
    if i < j {
      FenceStep(lines, i, st);
      NextBefore(lines, i, st);
      FenceRuns(lines, i + 1, j, st);
    }
  }

  /** A code fence hides everything up to the line that closes it: blank lines, markers, colons. */
  lemma FenceIsOpaque(lines: seq<string>, i: nat, j: nat)
    requires i <= j <= |lines| && Before(lines, i).fence.Inside? && Before(lines, i).skipUntil <= i
    requires forall k: nat :: i <= k < j ==> !ClosesFence(lines[k], Before(lines, i).fence)
    ensures Before(lines, j) == Before(lines, i)
  {
    FenceRuns(lines, i, j, Before(lines, i));
    assert Unfold(0);
  }

  /** The open list of `st`, as `t` still has it. */
  predicate SameList(st: ScanState, t: ScanState) {
    t == st.(inGap := t.inGap)
  }

  lemma ListStep(lines: seq<string>, i: nat, st: ScanState)
    requires i < |lines| && IndicesFit(st) && st.inList && st.fence.Outside? && st.divDepth == 0 && st.skipUntil <= i
    requires IsBlank(lines[i]) || Indent(lines[i]) >= st.contentIndent
    ensures SameList(st, ScanLine(lines, i, st))
  {
  }

  lemma {:induction false} ListRuns(lines: seq<string>, i: nat, j: nat, st: ScanState) returns (t: ScanState)
    requires i <= j <= |lines| && IsBefore(lines, i, st) && IndicesFit(st)
    requires st.inList && st.fence.Outside? && st.divDepth == 0 && st.skipUntil <= i
    requires forall k: nat :: i <= k < j ==> IsBlank(lines[k]) || Indent(lines[k]) >= st.contentIndent
    ensures IsBefore(lines, j, t) && SameList(st, t)
    decreases j - i
  {
    t := st;
    if i < j {
      ListStep(lines, i, st);
      NextBefore(lines, i, st);
      t := ListRuns(lines, i + 1, j, ScanLine(lines, i, st));
    }
  }

  /** Blank lines and lines indented to the item's text leave a list as it is: a loose list is one block. */
  lemma LooseListStaysOpen(lines: seq<string>, i: nat, j: nat)
    requires i <= j <= |lines|
    requires var st := Before(lines, i); st.inList && st.skipUntil <= i
    requires forall k: nat :: i <= k < j ==> IsBlank(lines[k]) || Indent(lines[k]) >= Before(lines, i).contentIndent
    ensures SameList(Before(lines, i), Before(lines, j))
  {
    assert Inv(Before(lines, i), i) by {
      assert Unfold(0);
    }
    var t := ListRuns(lines, i, j, Before(lines, i));
    assert Unfold(0);
  }

  function UpTo(n: nat): (r: seq<nat>)
    ensures |r| == n && forall k :: 0 <= k < n ==> r[k] == k
  {
    seq(n, k => k)
  }

  /** Inside a list that started on line 0 with its items at the margin. */
  ghost predicate IsTightState(i: nat, st: ScanState) {
    if i == 0 then st == START
    else
      && st.skipUntil == -1 && st.fence.Outside? && st.divDepth == 0 && st.inList && st.markerIndent == 0
      && st.contentIndent >= 2 && st.listAnchor == 0 && st.anchors == [Anchor(0, [])] && st.items == UpTo(i)
  }

  lemma MarkerIsNoOtherSyntax(raw: string)
    requires Indent(raw) == 0 && Marker(raw).Some?
    ensures !IsBlank(raw) && FenceRun(raw) == 0 && DivFenceOf(raw).NoFence? && FootnoteDef(raw).None?
    ensures !IsLinkRefDef(raw) && !IsDefMarker(raw[Indent(raw)..])
  {
    assert raw[0..] == raw;
    assert raw[0] in raw && !IsSpace(raw[0]) && raw[0] != '[' && raw[0] != ':' && raw[0] != '~' && raw[0] != '`';
    assert SkipSpaces(raw, 0) == 0;
  }

  lemma TightStep(lines: seq<string>, i: nat, st: ScanState)
    requires i < |lines| && Indent(lines[i]) == 0 && Marker(lines[i]).Some? && IndicesFit(st) && IsTightState(i, st)
    ensures IsTightState(i + 1, ScanLine(lines, i, st))
  {
    MarkerIsNoOtherSyntax(lines[i]);
    assert UpTo(i) + [i] == UpTo(i + 1);
  }

  lemma {:induction false} TightBefore(lines: seq<string>, n: nat)
    requires n <= |lines| && forall l <- lines :: Indent(l) == 0 && Marker(l).Some?
    ensures IsTightState(n, Before(lines, n))
  {
    if n > 0 {
      TightBefore(lines, n - 1);
      TightStep(lines, n - 1, Before(lines, n - 1));
    }
  }

  /** A document of list items at the margin is one block, with every line as an item. */
  lemma TightListIsOneBlock(lines: seq<string>)
    requires lines != [] && forall l <- lines :: Indent(l) == 0 && Marker(l).Some?
    ensures Blocks(lines) == [Anchor(0, UpTo(|lines|))]
  {
    TightBefore(lines, |lines|);
  }
}
