/** Where the top-level blocks of rendered HTML stand, read off the tags the tokenizer reports. */
module SentinelFinder {
  import opened Options
  import opened PyText
  import Html
  import Sanitizer

  datatype TagKind = Start | End | StartEnd

  /** A tag that the tokenizer reports, and the offset of its `<` in the text. */
  datatype Tag = Tag(kind: TagKind, name: string, attrs: seq<Sanitizer.Attr>, offset: nat)

  /** A top-level block; for a list also the offsets of its direct items. */
  datatype Block = Block(offset: nat, tag: string, items: seq<nat>)

  /** What the finder remembers. If `inList` then the last block is a list, and its end tag is still to come. */
  datatype State = State(depth: nat, blocks: seq<Block>, inList: bool, section: Option<Block>, inNotes: bool)

  const START := State(0, [], false, None, false)

  predicate IsVoid(tag: string) {
    tag in Html.VOID_TAGS
  }

  predicate IsListTag(tag: string) {
    tag == "ul" || tag == "ol"
  }

  predicate IsBlockTag(tag: string) {
    tag in {"p", "h1", "h2", "h3", "h4", "h5", "h6", "pre", "ul", "ol", "blockquote", "table", "figure", "div",
            "details", "section", "dl", "hr"}
  }

  /** `word` is one of the whitespace-separated words of `s`. */
  predicate HasWord(s: string, word: string) {
    exists i | 0 <= i <= |s| :: IsWordAt(s, i, word)
  }

  predicate IsWordAt(s: string, i: nat, word: string)
    requires i <= |s|
  {
    && i + |word| <= |s| && s[i..i + |word|] == word
    && (i == 0 || IsSpace(s[i - 1])) && (i + |word| == |s| || IsSpace(s[i + |word|]))
  }

  predicate IsNotesAttr(a: Sanitizer.Attr) {
    Lower(a.name) == "class" && a.value.Some? && HasWord(a.value.value, "footnotes")
  }

  /** The trailing section that holds the footnotes. */
  predicate IsNotesSection(tag: string, attrs: seq<Sanitizer.Attr>) {
    tag == "section" && exists a <- attrs :: IsNotesAttr(a)
  }

  function AddItem(b: Block, offset: nat): Block {
    b.(items := b.items + [offset])
  }

  function Opened(st: State, tag: string, attrs: seq<Sanitizer.Attr>, offset: nat): State {
    if st.depth == 0 && IsNotesSection(tag, attrs) then
      st.(section := Some(Block(offset, tag, [])), inNotes := true)
    else if st.depth == 0 && IsBlockTag(tag) then
      st.(blocks := st.blocks + [Block(offset, tag, [])], inList := IsListTag(tag))
    else if st.depth == 1 && tag == "li" && st.inList then
      if st.blocks == [] then st
      else st.(blocks := st.blocks[|st.blocks| - 1 := AddItem(st.blocks[|st.blocks| - 1], offset)])
    else if st.inNotes && st.depth == 2 && tag == "li" && st.section.Some? then
      st.(section := Some(AddItem(st.section.value, offset)))
    else st
  }

  function Step(st: State, t: Tag): State {
    var tag := Lower(t.name);
    match t.kind
    case Start =>
      var open := Opened(st, tag, t.attrs, t.offset);
      if IsVoid(tag) then open else open.(depth := st.depth + 1)
    case End =>
      if IsVoid(tag) then st
      else if st.depth <= 1 then st.(depth := 0, inList := false, inNotes := false)
      else st.(depth := st.depth - 1)
    case StartEnd =>
      if st.depth == 0 && IsBlockTag(tag) then st.(blocks := st.blocks + [Block(t.offset, tag, [])], inList := false)
      else st
  }

  function Run(tags: seq<Tag>): State {
    if tags == [] then START else Step(Run(tags[..|tags| - 1]), tags[|tags| - 1])
  }

  // ----- Line and column

  /** The offsets at which the lines of `text[..n]` start. */
  function LineStarts(text: string, n: nat): (r: seq<nat>)
    requires n <= |text|
    ensures |r| == BreaksBefore(text, n) + 1 && r[|r| - 1] == LineBegin(text, n)
  {
    if n == 0 then [0] else if text[n - 1] == '\n' then LineStarts(text, n - 1) + [n] else LineStarts(text, n - 1)
  }

  function BreaksBefore(text: string, o: nat): nat
    requires o <= |text|
  {
    if o == 0 then 0 else BreaksBefore(text, o - 1) + if text[o - 1] == '\n' then 1 else 0
  }

  /** The offset after the last line break before `o`. */
  function LineBegin(text: string, o: nat): (k: nat)
    requires o <= |text|
    ensures k <= o
  {
    if o == 0 || text[o - 1] == '\n' then o else LineBegin(text, o - 1)
  }

  datatype Position = Position(line: nat, col: nat)

  /** The line, counted from 1, and the column that the tokenizer gives for an offset. */
  function PositionAt(text: string, o: nat): (p: Position)
    requires o <= |text|
    ensures p.line >= 1
  {
    Position(BreaksBefore(text, o) + 1, o - LineBegin(text, o))
  }

  method BuildLineOffsets(text: string) returns (offsets: seq<nat>)
    ensures offsets == LineStarts(text, |text|)
  {
    offsets := [0];
    for i := 0 to |text|
      invariant offsets == LineStarts(text, i)
    {
      if text[i] == '\n' {
        offsets := offsets + [i + 1];
      }
    }
  }

  lemma {:induction false} LineStartsGrow(text: string, o: nat, n: nat)
    requires o <= n <= |text|
    ensures |LineStarts(text, o)| <= |LineStarts(text, n)|
              && LineStarts(text, n)[..|LineStarts(text, o)|] == LineStarts(text, o)
  {
    if o < n {
      LineStartsGrow(text, o, n - 1);
    }
  }

  /** A position and the table of line starts give the offset back. */
  lemma OffsetOfPosition(text: string, o: nat)
    requires o <= |text|
    ensures var p := PositionAt(text, o); var starts := LineStarts(text, |text|);
            p.line - 1 < |starts| && starts[p.line - 1] + p.col == o
  {
    LineStartsGrow(text, o, |text|);
  }

  // ----- The order of the offsets

  /** The end of the tag that starts at `o`: its first `>`. */
  function TagEnd(html: string, o: nat): (k: nat)
    requires o <= |html|
    ensures o <= k <= |html|
  {
    FindChar(html, '>', o)
  }

  function NextOffset(html: string, tags: seq<Tag>, i: nat): nat
    requires i < |tags|
  {
    if i + 1 < |tags| then tags[i + 1].offset else |html|
  }

  /** The tags stand in the text in the order in which they are reported, and each start tag has a `>`
      before the next tag begins. */
  ghost predicate StandIn(html: string, tags: seq<Tag>) {
    forall i: nat :: i < |tags| ==> StandsIn(html, tags, i)
  }

  ghost predicate StandsIn(html: string, tags: seq<Tag>, i: nat)
    requires i < |tags|
  {
    && tags[i].offset < NextOffset(html, tags, i) <= |html|
    && (tags[i].kind.Start? ==> TagEnd(html, tags[i].offset) < NextOffset(html, tags, i))
  }

  /** The items lie between `from` and `end`, each tag ending before the next one begins. */
  ghost predicate ItemsLieIn(html: string, from: nat, items: seq<nat>, end: nat) {
    && from < end <= |html|
    && (forall j: nat :: j < |items| ==> from < items[j] < end && TagEnd(html, items[j]) < end)
    && (forall j: nat, k: nat :: j < k < |items| ==> TagEnd(html, items[j]) < items[k])
  }

  ghost predicate BlockLies(html: string, blocks: seq<Block>, k: nat, limit: nat)
    requires k < |blocks|
  {
    ItemsLieIn(html, blocks[k].offset, blocks[k].items, if k + 1 < |blocks| then blocks[k + 1].offset else limit)
  }

  /** Each block begins after the tags of the items of the block before it, and all end before `limit`. */
  ghost predicate AreLaidOut(html: string, blocks: seq<Block>, limit: nat) {
    forall k: nat :: k < |blocks| ==> BlockLies(html, blocks, k, limit)
  }

  lemma RaisedLimit(html: string, blocks: seq<Block>, limit: nat, more: nat)
    requires AreLaidOut(html, blocks, limit) && limit <= more <= |html|
    ensures AreLaidOut(html, blocks, more)
  {
    forall k: nat | k < |blocks| ensures BlockLies(html, blocks, k, more) {
      assert BlockLies(html, blocks, k, limit);
    }
  }

  lemma NewBlock(html: string, blocks: seq<Block>, b: Block, next: nat)
    requires AreLaidOut(html, blocks, b.offset) && b.items == [] && b.offset < next <= |html|
    ensures AreLaidOut(html, blocks + [b], next)
  {
    var more := blocks + [b];
    forall k: nat | k < |more| ensures BlockLies(html, more, k, next) {
      if k < |blocks| {
        assert BlockLies(html, blocks, k, b.offset);
      }
    }
  }

  lemma NewItem(html: string, blocks: seq<Block>, offset: nat, next: nat)
    requires blocks != [] && AreLaidOut(html, blocks, offset) && offset < next <= |html| && TagEnd(html, offset) < next
    ensures AreLaidOut(html, blocks[|blocks| - 1 := AddItem(blocks[|blocks| - 1], offset)], next)
  {
    var last := |blocks| - 1;
    var more := blocks[last := AddItem(blocks[last], offset)];
    forall k: nat | k < |more| ensures BlockLies(html, more, k, next) {
      assert BlockLies(html, blocks, k, offset);
    }
  }

  lemma StepLaysOut(html: string, st: State, t: Tag, next: nat)
    requires t.offset < next <= |html| && (t.kind.Start? ==> TagEnd(html, t.offset) < next)
    requires AreLaidOut(html, st.blocks, t.offset)
    ensures AreLaidOut(html, Step(st, t).blocks, next)
  {
    RaisedLimit(html, st.blocks, t.offset, next);
    NewBlock(html, st.blocks, Block(t.offset, Lower(t.name), []), next);
    if t.kind.Start? && st.blocks != [] {
      NewItem(html, st.blocks, t.offset, next);
    }
  }

  lemma {:induction false} RunLaysOut(html: string, tags: seq<Tag>, n: nat)
    requires StandIn(html, tags) && 0 < n <= |tags|
    ensures AreLaidOut(html, Run(tags[..n]).blocks, NextOffset(html, tags, n - 1))
  {
    assert StandsIn(html, tags, n - 1);
    var t := tags[n - 1];
    assert tags[..n][..n - 1] == tags[..n - 1];
    if n > 1 {
      RunLaysOut(html, tags, n - 1);
    }
    StepLaysOut(html, Run(tags[..n - 1]), t, NextOffset(html, tags, n - 1));
  }

  /** The blocks and their items are found in the order in which they stand in the text. */
  lemma BlocksAreLaidOut(html: string, tags: seq<Tag>)
    requires StandIn(html, tags)
    ensures AreLaidOut(html, Run(tags).blocks, |html|)
  {
    if tags != [] {
      RunLaysOut(html, tags, |tags|);
      assert tags[..|tags|] == tags;
    }
  }

  /** A list is open only below depth 0, and is the last block found. */
  ghost predicate Inv(st: State) {
    && (st.inList ==> st.depth > 0 && st.blocks != [] && IsListTag(st.blocks[|st.blocks| - 1].tag))
    && (st.inNotes ==> st.depth > 0 && st.section.Some?)
  }

  lemma {:induction false} RunKeepsInv(tags: seq<Tag>)
    ensures Inv(Run(tags))
  {
    if tags != [] {
      RunKeepsInv(tags[..|tags| - 1]);
      ListTagsOpen(Lower(tags[|tags| - 1].name));
    }
  }

  lemma ListTagsOpen(tag: string)
    ensures IsListTag(tag) ==> !IsVoid(tag)
    ensures tag == "section" ==> !IsVoid(tag)
  {
    assert |tag| == 2 && tag[0] == 'u' ==> tag != "br" && tag != "hr";
  }
}
