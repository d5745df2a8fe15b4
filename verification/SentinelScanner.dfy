/** The scan of a markdown document into its top-level blocks. */
module SentinelScanner {
  import opened Options
  import opened PyText
  import opened SentinelLines

  /** A block and its source line; for a list also the line of each item. */
  datatype Anchor = Anchor(line: nat, items: seq<nat>)

  /** Everything the scan remembers between lines. An index of -1 points nowhere. */
  datatype ScanState = ScanState(
    anchors: seq<Anchor>,
    fence: Fence,
    inGap: bool,
    inList: bool, markerIndent: nat, contentIndent: nat, listAnchor: int, items: seq<nat>,
    skipUntil: int,
    inDeflist: bool, deflistTerm: int, openTerm: int,
    divDepth: int)

  const START := ScanState([], Outside, true, false, 0, 0, -1, [], -1, false, -1, -1, 0)

  // ----- The step for one line, case by case

  /** The indices the scan keeps into its list of anchors. */
  ghost predicate IndicesFit(st: ScanState) {
    && (st.openTerm == -1 || st.openTerm == |st.anchors| - 1)
    && -1 <= st.deflistTerm < |st.anchors|
    && (st.inDeflist ==> 0 <= st.deflistTerm)
    && (st.inList ==> st.listAnchor == |st.anchors| - 1)
    && (!st.inList ==> st.listAnchor == -1)
    && st.divDepth >= 0
  }

  function Indent(raw: string): (k: nat)
    ensures k <= |raw|
  {
    SkipChar(raw, ' ', 0)
  }

  function Marker(raw: string): Option<nat> {
    ListMarker(raw[Indent(raw)..])
  }

  function CloseList(st: ScanState): ScanState
    requires IndicesFit(st)
  {
    var closed := if st.inList && st.listAnchor >= 0
                  then st.anchors[st.listAnchor := Anchor(st.anchors[st.listAnchor].line, st.items)]
                  else st.anchors;
    st.(anchors := closed, inList := false, listAnchor := -1, items := [])
  }

  /** A line inside a fenced div: nothing but fences and nested divs matters. */
  function InDiv(raw: string, st: ScanState): ScanState {
    if FenceRun(raw) > 0 then st.(fence := Inside(raw[0], FenceRun(raw)))
    else match DivFenceOf(raw)
      case Opens => st.(divDepth := st.divDepth + 1)
      case Closes => st.(divDepth := st.divDepth - 1)
      case NoFence => st
  }

  /** Whether a line that is not blank still belongs to the open list. */
  predicate StaysInList(raw: string, st: ScanState) {
    Indent(raw) >= st.contentIndent || (Marker(raw).Some? && Indent(raw) <= st.markerIndent)
  }

  function InList(raw: string, i: nat, st: ScanState): ScanState
    requires StaysInList(raw, st)
  {
    if Indent(raw) >= st.contentIndent then st.(inGap := false)
    else st.(items := st.items + [i], contentIndent := Indent(raw) + Marker(raw).value, inGap := false)
  }

  function OpenDiv(i: nat, st: ScanState): ScanState {
    if st.inGap then
      st.(anchors := st.anchors + [Anchor(i, [])], openTerm := -1, inDeflist := false, inGap := false, divDepth := 1)
    else st.(divDepth := 1)
  }

  /** Where the lines consumed by a link reference definition end. */
  function SkipTitle(lines: seq<string>, i: nat, skipUntil: int): int
    requires i < |lines|
  {
    if i + 1 < |lines| && !IsBlank(lines[i + 1]) && StartsWith(lines[i + 1], " ") then i + 2 else skipUntil
  }

  function OpenFence(raw: string, i: nat, st: ScanState): ScanState
    requires FenceRun(raw) > 0
  {
    st.(anchors := if st.inGap then st.anchors + [Anchor(i, [])] else st.anchors,
        fence := Inside(raw[0], FenceRun(raw)), inGap := false, openTerm := -1, inDeflist := false)
  }

  predicate AttachesToTerm(raw: string, st: ScanState) {
    Indent(raw) <= 3 && IsDefMarker(raw[Indent(raw)..]) && (st.inDeflist || st.openTerm >= 0)
  }

  /** Whether a marker line merges the last anchor, a later term, into the open definition list. */
  predicate MergesTerm(st: ScanState) {
    st.inDeflist && st.openTerm == |st.anchors| - 1 && st.openTerm > st.deflistTerm
  }

  function Definition(st: ScanState): ScanState
    requires IndicesFit(st)
  {
    var attached :=
      if !st.inDeflist then st.(inDeflist := true, deflistTerm := st.openTerm)
      else if MergesTerm(st) then st.(anchors := st.anchors[..st.openTerm])
      else st;
    attached.(openTerm := -1, inGap := false)
  }

  function OpenList(raw: string, i: nat, st: ScanState): ScanState
    requires Marker(raw).Some?
  {
    st.(anchors := st.anchors + [Anchor(i, [])], listAnchor := |st.anchors|, inList := true,
        markerIndent := Indent(raw), contentIndent := Indent(raw) + Marker(raw).value, items := [i],
        inGap := false, openTerm := -1, inDeflist := false)
  }

  function Generic(i: nat, st: ScanState): ScanState {
    if !st.inGap then st
    else
      var ended := if st.inDeflist && st.openTerm >= 0 then st.(inDeflist := false, deflistTerm := -1) else st;
      ended.(anchors := ended.anchors + [Anchor(i, [])], openTerm := |ended.anchors|, inGap := false)
  }

  /** A line that is not blank, outside of fences, divs and lists. */
  function TopLevel(lines: seq<string>, i: nat, st: ScanState): ScanState
    requires i < |lines| && IndicesFit(st)
  {
    var raw := lines[i];
    if DivFenceOf(raw).Opens? then OpenDiv(i, st)
    else if st.inGap && FootnoteDef(raw).Some? then st.(skipUntil := SkipNote(lines, i + 1))
    else if st.inGap && IsLinkRefDef(raw) then st.(skipUntil := SkipTitle(lines, i, st.skipUntil))
    else if FenceRun(raw) > 0 then OpenFence(raw, i, st)
    else if AttachesToTerm(raw, st) then Definition(st)
    else if Marker(raw).Some? && Indent(raw) <= 3 then OpenList(raw, i, st)
    else Generic(i, st)
  }

  /** The state after line `i`. */
  function ScanLine(lines: seq<string>, i: nat, st: ScanState): ScanState
    requires i < |lines| && IndicesFit(st)
  {
    var raw := lines[i];
    if i < st.skipUntil then st
    else if st.fence.Inside? then if ClosesFence(raw, st.fence) then st.(fence := Outside) else st
    else if st.divDepth > 0 then InDiv(raw, st)
    else if IsBlank(raw) then st.(inGap := true)
    else if st.inList && StaysInList(raw, st) then InList(raw, i, st)
    else TopLevel(lines, i, if st.inList then CloseList(st) else st)
  }

  // ----- What every step keeps

  ghost predicate Increasing(s: seq<nat>) {
    forall j, k :: 0 <= j < k < |s| ==> s[j] < s[k]
  }

  /** The items of a list start with the list itself, and go up to a line before `end`. */
  ghost predicate AreItems(line: nat, items: seq<nat>, end: nat) {
    items != [] && items[0] == line && Increasing(items) && items[|items| - 1] < end
  }

  /** The line before which the block of anchor `k` ends. */
  function BlockEnd(anchors: seq<Anchor>, k: nat, n: nat): nat
    requires k < |anchors|
  {
    if k + 1 < |anchors| then anchors[k + 1].line else n
  }

  /** Anchor `k` lies before the next one, or before line `n`, and so do its items. */
  ghost predicate IsPlaced(anchors: seq<Anchor>, k: nat, n: nat)
    requires k < |anchors|
  {
    var end := BlockEnd(anchors, k, n);
    anchors[k].line < end && (anchors[k].items != [] ==> AreItems(anchors[k].line, anchors[k].items, end))
  }

  ghost predicate ArePlaced(anchors: seq<Anchor>, n: nat) {
    forall k: nat :: k < |anchors| ==> IsPlaced(anchors, k, n)
  }

  /** The open list is the last block, and fences and divs cannot be open with it. */
  ghost predicate ListFits(st: ScanState, i: nat) {
    && (st.inList ==> st.anchors != [] && st.fence.Outside? && st.divDepth == 0 && st.openTerm == -1 && !st.inDeflist
                      && st.anchors[|st.anchors| - 1].items == []
                      && AreItems(st.anchors[|st.anchors| - 1].line, st.items, i))
    && (st.openTerm >= 0 ==> st.openTerm < |st.anchors| && st.anchors[st.openTerm].items == [])
  }

  ghost predicate Inv(st: ScanState, i: nat) {
    ArePlaced(st.anchors, i) && IndicesFit(st) && ListFits(st, i)
  }

  lemma LaterStillPlaced(anchors: seq<Anchor>, i: nat, n: nat)
    requires ArePlaced(anchors, i) && i <= n
    ensures ArePlaced(anchors, n)
  {
    forall k: nat | k < |anchors| ensures IsPlaced(anchors, k, n) {
      assert IsPlaced(anchors, k, i);
    }
  }

  lemma NewAnchorIsPlaced(anchors: seq<Anchor>, i: nat)
    requires ArePlaced(anchors, i)
    ensures ArePlaced(anchors + [Anchor(i, [])], i + 1)
  {
    var more, n := anchors + [Anchor(i, [])], i + 1;
    forall k: nat | k < |more| ensures IsPlaced(more, k, n) {
      if k < |anchors| {
        assert IsPlaced(anchors, k, i);
      }
    }
  }

  lemma FewerAnchorsArePlaced(anchors: seq<Anchor>, i: nat)
    requires ArePlaced(anchors, i) && anchors != []
    ensures ArePlaced(anchors[..|anchors| - 1], i)
  {
    var fewer := anchors[..|anchors| - 1];
    forall k: nat | k < |fewer| ensures IsPlaced(fewer, k, i) {
      assert IsPlaced(anchors, k, i) && IsPlaced(anchors, |anchors| - 1, i);
    }
  }

  lemma CloseListKeeps(st: ScanState, i: nat)
    requires Inv(st, i)
    ensures Inv(CloseList(st), i) && !CloseList(st).inList
  {
    var closed := CloseList(st);
    if st.inList {
      forall k: nat | k < |closed.anchors| ensures IsPlaced(closed.anchors, k, i) {
        assert IsPlaced(st.anchors, k, i);
      }
    }
  }

  lemma InListKeeps(raw: string, i: nat, st: ScanState)
    requires Inv(st, i) && st.inList && StaysInList(raw, st)
    ensures Inv(InList(raw, i, st), i + 1)
  {
    LaterStillPlaced(st.anchors, i, i + 1);
  }

  lemma DefinitionKeeps(i: nat, st: ScanState)
    requires Inv(st, i) && !st.inList && (st.inDeflist || st.openTerm >= 0)
    ensures Inv(Definition(st), i + 1)
    ensures st.deflistTerm < |Definition(st).anchors|
  {
    LaterStillPlaced(st.anchors, i, i + 1);
    if MergesTerm(st) {
      FewerAnchorsArePlaced(st.anchors, i + 1);
    }
  }

  lemma OpenersKeep(raw: string, i: nat, st: ScanState)
    requires Inv(st, i) && !st.inList && st.divDepth == 0 && st.fence.Outside?
    ensures Inv(OpenDiv(i, st), i + 1)
    ensures FenceRun(raw) > 0 ==> Inv(OpenFence(raw, i, st), i + 1)
  {
    NewAnchorIsPlaced(st.anchors, i);
    LaterStillPlaced(st.anchors, i, i + 1);
  }

  lemma BlocksKeep(raw: string, i: nat, st: ScanState)
    requires Inv(st, i) && !st.inList && st.divDepth == 0 && st.fence.Outside?
    ensures Inv(Generic(i, st), i + 1)
    ensures Marker(raw).Some? ==> Inv(OpenList(raw, i, st), i + 1)
  {
    NewAnchorIsPlaced(st.anchors, i);
    LaterStillPlaced(st.anchors, i, i + 1);
  }

  lemma TopLevelKeeps(lines: seq<string>, i: nat, st: ScanState)
    requires i < |lines| && Inv(st, i) && !st.inList && st.divDepth == 0 && st.fence.Outside?
    ensures Inv(TopLevel(lines, i, st), i + 1)
  {
    LaterStillPlaced(st.anchors, i, i + 1);
    OpenersKeep(lines[i], i, st);
    BlocksKeep(lines[i], i, st);
    if AttachesToTerm(lines[i], st) {
      DefinitionKeeps(i, st);
    }
  }

  /** One line keeps the invariant. */
  lemma ScanLineKeeps(lines: seq<string>, i: nat, st: ScanState)
    requires i < |lines| && Inv(st, i)
    ensures Inv(ScanLine(lines, i, st), i + 1)
  {
    var raw := lines[i];
    LaterStillPlaced(st.anchors, i, i + 1);
    if i < st.skipUntil || st.fence.Inside? || st.divDepth > 0 || IsBlank(raw) {
    } else if st.inList && StaysInList(raw, st) {
      InListKeeps(raw, i, st);
    } else {
      CloseListKeeps(st, i);
      TopLevelKeeps(lines, i, if st.inList then CloseList(st) else st);
    }
  }

  // ----- The scan

  ghost predicate Unfold(k: nat) { true }

  /** The invariant, kept out of the way of proofs that do not ask for it. */
  ghost predicate Kept(st: ScanState, n: nat) {
    forall k: nat {:trigger Unfold(k)} :: Unfold(k) ==> Inv(st, n)
  }

  lemma KeepsOn(lines: seq<string>, i: nat, st: ScanState)
    requires i < |lines| && IndicesFit(st) && Kept(st, i)
    ensures IndicesFit(ScanLine(lines, i, st)) && Kept(ScanLine(lines, i, st), i + 1)
  {
    assert Unfold(0);
    ScanLineKeeps(lines, i, st);
  }

  /** The state before line `n`. */
  function Before(lines: seq<string>, n: nat): (st: ScanState)
    requires n <= |lines|
    ensures IndicesFit(st) && Kept(st, n)
  {
    if n == 0 then START
    else
      KeepsOn(lines, n - 1, Before(lines, n - 1));
      ScanLine(lines, n - 1, Before(lines, n - 1))
  }

  function Blocks(lines: seq<string>): seq<Anchor> {
    CloseList(Before(lines, |lines|)).anchors
  }

  /** The branch for lines inside a fenced div. */
  method ScanInDiv(raw: string, before: ScanState) returns (st: ScanState)
    ensures st == InDiv(raw, before)
  {
    st := before;
    if FenceRun(raw) > 0 {
      st := st.(fence := Inside(raw[0], FenceRun(raw)));
      return;
    }
    var divFence := ClassifyDivFence(raw);
    if divFence.Opens? {
      st := st.(divDepth := st.divDepth + 1);
    } else if divFence.Closes? {
      st := st.(divDepth := st.divDepth - 1);
    }
  }

  /** The branch for a marker line attached to a preceding term. */
  method ScanDefinition(before: ScanState) returns (st: ScanState)
    requires IndicesFit(before)
    ensures st == Definition(before)
  {
    st := before;
    if !st.inDeflist {
      st := st.(inDeflist := true, deflistTerm := st.openTerm);
    } else if st.openTerm == |st.anchors| - 1 && st.openTerm > st.deflistTerm {
      st := st.(anchors := st.anchors[..st.openTerm] + st.anchors[st.openTerm + 1..]);
    }
    st := st.(openTerm := -1, inGap := false);
  }

  /** The branch for the first item of a list. */
  method ScanListStart(raw: string, i: nat, before: ScanState) returns (st: ScanState)
    requires Marker(raw).Some?
    ensures st == OpenList(raw, i, before)
  {
    st := before.(anchors := before.anchors + [Anchor(i, [])]);
    st := st.(listAnchor := |st.anchors| - 1, inList := true, markerIndent := Indent(raw),
              contentIndent := Indent(raw) + Marker(raw).value, items := [i]);
    st := st.(inGap := false, openTerm := -1, inDeflist := false);
  }

  /** The branch for any other line: after a gap it starts a block, and may be a definition term. */
  method ScanGeneric(i: nat, before: ScanState) returns (st: ScanState)
    ensures st == Generic(i, before)
  {
    st := before;
    if st.inGap {
      if st.inDeflist && st.openTerm >= 0 {
        st := st.(inDeflist := false, deflistTerm := -1);
      }
      st := st.(anchors := st.anchors + [Anchor(i, [])]);
      st := st.(openTerm := |st.anchors| - 1, inGap := false);
    }
  }

  /** The branches for a fenced div or a code fence. */
  method ScanOpener(raw: string, i: nat, before: ScanState, div: bool) returns (st: ScanState)
    requires !div ==> FenceRun(raw) > 0
    ensures st == if div then OpenDiv(i, before) else OpenFence(raw, i, before)
  {
    st := before;
    if div {
      if st.inGap {
        st := st.(anchors := st.anchors + [Anchor(i, [])], openTerm := -1, inDeflist := false, inGap := false);
      }
      st := st.(divDepth := 1);
    } else {
      st := st.(fence := Inside(raw[0], FenceRun(raw)));
      if st.inGap {
        st := st.(anchors := st.anchors + [Anchor(i, [])], inGap := false);
      }
      st := st.(openTerm := -1, inDeflist := false);
    }
  }

  /** The branches for a line that opens a block or a definition of its own. */
  method ScanTopLevel(lines: seq<string>, i: nat, before: ScanState) returns (st: ScanState)
    requires i < |lines| && IndicesFit(before)
    ensures st == TopLevel(lines, i, before)
  {
    st := before;
    var raw := lines[i];
    var divFence := ClassifyDivFence(raw);
    if divFence.Opens? {
      st := ScanOpener(raw, i, st, true);
    } else if st.inGap && FootnoteDef(raw).Some? {
      var next := SkipContinuation(lines, i + 1);
      st := st.(skipUntil := next);
    } else if st.inGap && IsLinkRefDef(raw) {
      if i + 1 < |lines| && !IsBlank(lines[i + 1]) && StartsWith(lines[i + 1], " ") {
        st := st.(skipUntil := i + 2);
      }
    } else if FenceRun(raw) > 0 {
      st := ScanOpener(raw, i, st, false);
    } else if AttachesToTerm(raw, st) {
      st := ScanDefinition(st);
    } else if Marker(raw).Some? && Indent(raw) <= 3 {
      st := ScanListStart(raw, i, st);
    } else {
      st := ScanGeneric(i, st);
    }
  }

  /** One turn of the scan. */
  method ScanOne(lines: seq<string>, i: nat, before: ScanState) returns (st: ScanState)
    requires i < |lines| && IndicesFit(before)
    ensures st == ScanLine(lines, i, before)
  {
    st := before;
    var raw := lines[i];
    if i < st.skipUntil {
      return;
    }
    if st.fence.Inside? {
      if ClosesFence(raw, st.fence) {
        st := st.(fence := Outside);
      }
      return;
    }
    if st.divDepth > 0 {
      st := ScanInDiv(raw, st);
      return;
    }
    if IsBlank(raw) {
      st := st.(inGap := true);
      return;
    }
    if st.inList {
      if Indent(raw) >= st.contentIndent {
        st := st.(inGap := false);
        return;
      }
      if Marker(raw).Some? && Indent(raw) <= st.markerIndent {
        st := st.(items := st.items + [i], contentIndent := Indent(raw) + Marker(raw).value, inGap := false);
        return;
      }
      st := CloseList(st);
    }
    st := ScanTopLevel(lines, i, st);
  }

  /** Scans line by line and closes the list that is still open at the end. */
  method ScanLines(lines: seq<string>) returns (blocks: seq<Anchor>)
    ensures blocks == Blocks(lines) && ArePlaced(blocks, |lines|)
  {
    var st := START;
    var i := 0;
    while i < |lines|
      invariant i <= |lines| && st == Before(lines, i)
    {
      st := ScanOne(lines, i, st);
      i := i + 1;
    }
    BlocksArePlaced(lines);
    return CloseList(st).anchors;
  }

  lemma BlocksArePlaced(lines: seq<string>)
    ensures ArePlaced(Blocks(lines), |lines|)
  {
    assert Unfold(0);
    CloseListKeeps(Before(lines, |lines|), |lines|);
  }
}
