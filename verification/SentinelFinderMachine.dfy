/** The finder object: it keeps its blocks as mutable records, and a reference to the list that is open. */
module SentinelFinderMachine {
  import opened Options
  import opened PyText
  import opened F = SentinelFinder
  import Sanitizer

  class HtmlBlock {
    const offset: nat
    const tag: string
    var liOffsets: seq<nat>

    constructor (offset: nat, tag: string)
      ensures this.offset == offset && this.tag == tag && liOffsets == []
    {
      this.offset, this.tag, this.liOffsets := offset, tag, [];
    }

    function View(): Block
      reads this
    {
      Block(offset, tag, liOffsets)
    }
  }

  class BlockTagFinder {
    const html: string
    const lineOffsets: seq<nat>
    var pos: Position
    var depth: nat
    var blocks: seq<HtmlBlock>
    var currentList: HtmlBlock?
    var footnotesSection: HtmlBlock?
    var inFootnotes: bool
    /** The same information as values. */
    ghost var state: State

    ghost function Repr(): set<object>
      reads this
    {
      (set b | b in blocks) + if footnotesSection == null then {} else {footnotesSection}
    }

    /** The records are distinct objects, the open list is the last of them, and they hold what `state` says. */
    ghost predicate Valid()
      reads this, Repr()
    {
      && lineOffsets == LineStarts(html, |html|)
      && (forall i, j :: 0 <= i < j < |blocks| ==> blocks[i] != blocks[j])
      && (footnotesSection != null ==> footnotesSection !in blocks)
      && (currentList != null ==> blocks != [] && currentList == blocks[|blocks| - 1])
      && state.depth == depth && state.inList == (currentList != null) && state.inNotes == inFootnotes
      && |state.blocks| == |blocks| && (forall i :: 0 <= i < |blocks| ==> state.blocks[i] == blocks[i].View())
      && state.section == if footnotesSection == null then None else Some(footnotesSection.View())
    }

    constructor (html: string, lineOffsets: seq<nat>)
      requires lineOffsets == LineStarts(html, |html|)
      ensures Valid() && state == F.START && this.html == html && Repr() == {}
    {
      this.html, this.lineOffsets := html, lineOffsets;
      pos, depth, blocks, currentList, footnotesSection, inFootnotes := Position(1, 0), 0, [], null, null, false;
      state := F.START;
    }

    /** The offset of the tag that is being handled. */
    method Offset(ghost o: nat) returns (offset: nat)
      requires Valid() && o <= |html| && pos == PositionAt(html, o)
      ensures offset == o
    {
      OffsetOfPosition(html, o);
      offset := lineOffsets[pos.line - 1] + pos.col;
    }

    method AddBlock(offset: nat, tag: string, isList: bool)
      requires Valid()
      modifies this`blocks, this`currentList, this`state
      ensures Valid() && fresh(Repr() - old(Repr()))
      ensures state == old(state).(blocks := old(state).blocks + [Block(offset, tag, [])], inList := isList)
    {
      var block := new HtmlBlock(offset, tag);
      blocks := blocks + [block];
      currentList := if isList then block else null;
      state := state.(blocks := state.blocks + [Block(offset, tag, [])], inList := isList);
    }

    /** Adds an item to the open list, which is also the last block. */
    method AddListItem(offset: nat)
      requires Valid() && currentList != null
      modifies currentList`liOffsets, this`state
      ensures Valid()
      ensures var last := |old(state).blocks| - 1;
              && last >= 0
              && state == old(state).(blocks :=
                            old(state).blocks[last := AddItem(old(state).blocks[last], offset)])
    {
      var last := |blocks| - 1;
      currentList.liOffsets := currentList.liOffsets + [offset];
      state := state.(blocks := state.blocks[last := AddItem(state.blocks[last], offset)]);
    }

    method AddNote(offset: nat)
      requires Valid() && footnotesSection != null
      modifies footnotesSection`liOffsets, this`state
      ensures Valid()
      ensures old(state).section.Some?
      ensures state == old(state).(section := Some(AddItem(old(state).section.value, offset)))
    {
      footnotesSection.liOffsets := footnotesSection.liOffsets + [offset];
      state := state.(section := Some(AddItem(state.section.value, offset)));
    }

    method StartSection(offset: nat, tag: string)
      requires Valid()
      modifies this`footnotesSection, this`inFootnotes, this`state
      ensures Valid() && fresh(Repr() - old(Repr()))
      ensures state == old(state).(section := Some(Block(offset, tag, [])), inNotes := true)
    {
      footnotesSection := new HtmlBlock(offset, tag);
      inFootnotes := true;
      state := state.(section := Some(Block(offset, tag, [])), inNotes := true);
    }

    /** What a start tag means, apart from the depth. */
    method Open(tag: string, attrs: seq<Sanitizer.Attr>, offset: nat)
      requires Valid()
      modifies this, Repr()
      ensures Valid() && fresh(Repr() - old(Repr())) && pos == old(pos)
      ensures state == Opened(old(state), tag, attrs, offset)
    {
      if depth == 0 && IsNotesSection(tag, attrs) {
        StartSection(offset, tag);
      } else if depth == 0 && IsBlockTag(tag) {
        AddBlock(offset, tag, IsListTag(tag));
      } else if depth == 1 && tag == "li" && currentList != null {
        AddListItem(offset);
      } else if inFootnotes && depth == 2 && tag == "li" && footnotesSection != null {
        AddNote(offset);
      }
    }

    method HandleStartTag(name: string, attrs: seq<Sanitizer.Attr>, ghost t: Tag)
      requires Valid() && t.offset <= |html| && pos == PositionAt(html, t.offset)
               && t == Tag(Start, name, attrs, t.offset)
      modifies this, Repr()
      ensures Valid() && fresh(Repr() - old(Repr())) && state == Step(old(state), t)
    {
      var tag := Lower(name);
      var offset := Offset(t.offset);
      Open(tag, attrs, offset);
      if !IsVoid(tag) {
        Descend();
      }
    }

    method Descend()
      requires Valid()
      modifies this`depth, this`state
      ensures Valid() && state == old(state).(depth := old(state).depth + 1)
    {
      depth := depth + 1;
      state := state.(depth := depth);
    }

    method HandleEndTag(name: string, ghost t: Tag)
      requires Valid() && t.kind.End? && t.name == name
      modifies this
      ensures Valid() && Repr() == old(Repr()) && state == Step(old(state), t)
    {
      if !IsVoid(Lower(name)) {
        depth := if depth > 0 then depth - 1 else 0;
        if depth == 0 {
          currentList := null;
          inFootnotes := false;
        }
        state := Step(state, t);
      }
    }

    method HandleStartEndTag(name: string, attrs: seq<Sanitizer.Attr>, ghost t: Tag)
      requires Valid() && t.offset <= |html| && pos == PositionAt(html, t.offset)
               && t == Tag(StartEnd, name, attrs, t.offset)
      modifies this
      ensures Valid() && fresh(Repr() - old(Repr())) && state == Step(old(state), t)
    {
      var tag := Lower(name);
      if depth == 0 && IsBlockTag(tag) {
        var offset := Offset(t.offset);
        AddBlock(offset, tag, false);
      }
    }

    /** Handles one tag at its position. */
    method Handle(t: Tag)
      requires Valid() && t.offset <= |html|
      modifies this, Repr()
      ensures Valid() && fresh(Repr() - old(Repr())) && state == Step(old(state), t)
    {
      pos := PositionAt(html, t.offset);
      match t.kind
      case Start => HandleStartTag(t.name, t.attrs, t);
      case End => HandleEndTag(t.name, t);
      case StartEnd => HandleStartEndTag(t.name, t.attrs, t);
    }

    /** Handles every tag that the tokenizer reports. */
    method Feed(tags: seq<Tag>)
      requires Valid() && state == F.START && Repr() == {}
      requires forall t <- tags :: t.offset <= |html|
      modifies this
      ensures Valid() && state == Run(tags)
    {
      for i := 0 to |tags|
        invariant Valid() && state == Run(tags[..i]) && fresh(Repr())
      {
        assert tags[..i + 1][..i] == tags[..i];
        Handle(tags[i]);
      }
      assert tags[..|tags|] == tags;
    }
  }
}
