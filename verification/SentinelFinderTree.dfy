/** For well-nested HTML the finder finds the top-level elements of the tree. */
module SentinelFinderTree {
  import opened Options
  import opened PyText
  import opened SentinelFinder
  import Sanitizer

  /** An element with its children, and the offsets of its tags; or a self-closing tag. */
  datatype Node =
    | Element(tag: string, attrs: seq<Sanitizer.Attr>, offset: nat, kids: seq<Node>, end: nat)
    | SelfClosed(tag: string, attrs: seq<Sanitizer.Attr>, offset: nat)

  /** The tags of a tree in text order. A void element has neither children nor an end tag. */
  function Flatten(n: Node): seq<Tag> {
    match n
    case SelfClosed(tag, attrs, offset) => [Tag(StartEnd, tag, attrs, offset)]
    case Element(tag, attrs, offset, kids, end) =>
      if IsVoid(Lower(tag)) then [Tag(Start, tag, attrs, offset)]
      else [Tag(Start, tag, attrs, offset)] + FlattenAll(kids) + [Tag(End, tag, [], end)]
  }

  function FlattenAll(nodes: seq<Node>): seq<Tag> {
    if nodes == [] then [] else FlattenAll(nodes[..|nodes| - 1]) + Flatten(nodes[|nodes| - 1])
  }

  // ----- What is to be found

  function ItemsOf(kids: seq<Node>): seq<nat> {
    if kids == [] then []
    else
      var last := kids[|kids| - 1];
      ItemsOf(kids[..|kids| - 1]) + if last.Element? && Lower(last.tag) == "li" then [last.offset] else []
  }

  /** The items of the lists in the footnotes section. */
  function NotesOf(kids: seq<Node>): seq<nat> {
    if kids == [] then []
    else
      var last := kids[|kids| - 1];
      NotesOf(kids[..|kids| - 1]) + if last.Element? && !IsVoid(Lower(last.tag)) then ItemsOf(last.kids) else []
  }

  predicate IsNotes(n: Node) {
    n.Element? && IsNotesSection(Lower(n.tag), n.attrs)
  }

  /** The top-level block elements, with the direct items of the lists. */
  function BlocksOf(nodes: seq<Node>): seq<Block> {
    if nodes == [] then []
    else
      var n := nodes[|nodes| - 1];
      var tag := Lower(n.tag);
      BlocksOf(nodes[..|nodes| - 1])
      + if IsNotes(n) || !IsBlockTag(tag) then []
        else [Block(n.offset, tag, if n.Element? && IsListTag(tag) then ItemsOf(n.kids) else [])]
  }

  /** The last footnotes section at the top level. */
  function SectionOf(nodes: seq<Node>): Option<Block> {
    if nodes == [] then None
    else
      var n := nodes[|nodes| - 1];
      if IsNotes(n) then Some(Block(n.offset, Lower(n.tag), NotesOf(n.kids))) else SectionOf(nodes[..|nodes| - 1])
  }

  // ----- Running on from a state

  function RunFrom(st: State, tags: seq<Tag>): State {
    if tags == [] then st else Step(RunFrom(st, tags[..|tags| - 1]), tags[|tags| - 1])
  }

  lemma {:induction false} RunConcat(st: State, a: seq<Tag>, b: seq<Tag>)
    ensures RunFrom(st, a + b) == RunFrom(RunFrom(st, a), b)
  {
    if b == [] {
      assert a + b == a;
    } else {
      assert (a + b)[..|a + b| - 1] == a + b[..|b| - 1];
      RunConcat(st, a, b[..|b| - 1]);
    }
  }

  lemma {:induction false} RunIsRunFrom(tags: seq<Tag>)
    ensures Run(tags) == RunFrom(START, tags)
  {
    if tags != [] {
      RunIsRunFrom(tags[..|tags| - 1]);
    }
  }

  lemma RunOne(st: State, t: Tag)
    ensures RunFrom(st, [t]) == Step(st, t)
  {
    assert [t][..0] == [];
    assert RunFrom(st, []) == st;
  }

  /** An element that is not void: its start tag, its children, its end tag. */
  lemma RunElement(st: State, n: Node)
    requires n.Element? && !IsVoid(Lower(n.tag))
    ensures RunFrom(st, Flatten(n))
            == Step(RunFrom(Step(st, Tag(Start, n.tag, n.attrs, n.offset)), FlattenAll(n.kids)),
                Tag(End, n.tag, [], n.end))
  {
    var start, end := Tag(Start, n.tag, n.attrs, n.offset), Tag(End, n.tag, [], n.end);
    RunConcat(st, [start] + FlattenAll(n.kids), [end]);
    RunConcat(st, [start], FlattenAll(n.kids));
    RunOne(st, start);
    RunOne(RunFrom(Step(st, start), FlattenAll(n.kids)), end);
  }

  lemma RunLeaf(st: State, n: Node)
    requires n.Element? ==> IsVoid(Lower(n.tag))
    ensures RunFrom(st, Flatten(n)) == Step(st, Tag(if n.Element? then Start else StartEnd, n.tag, n.attrs, n.offset))
  {
    RunOne(st, Tag(if n.Element? then Start else StartEnd, n.tag, n.attrs, n.offset));
  }

  lemma RunNodes(st: State, nodes: seq<Node>)
    requires nodes != []
    ensures RunFrom(st, FlattenAll(nodes))
              == RunFrom(RunFrom(st, FlattenAll(nodes[..|nodes| - 1])), Flatten(nodes[|nodes| - 1]))
  {
    RunConcat(st, FlattenAll(nodes[..|nodes| - 1]), Flatten(nodes[|nodes| - 1]));
  }

  // ----- Deep inside nothing is found

  /** Nothing below this depth can be a block or an item. */
  predicate IsQuiet(st: State) {
    st.depth >= 3 || (st.depth == 2 && !st.inNotes) || (st.depth == 1 && !st.inList && !st.inNotes)
  }

  lemma QuietStep(st: State, t: Tag)
    requires IsQuiet(st) && !t.kind.End?
    ensures Step(st, t) == if t.kind.Start? && !IsVoid(Lower(t.name)) then st.(depth := st.depth + 1) else st
    ensures IsQuiet(st.(depth := st.depth + 1))
  {
  }

  lemma EndStep(st: State, t: Tag)
    requires st.depth >= 2 && t.kind.End? && !IsVoid(Lower(t.name))
    ensures Step(st, t) == st.(depth := st.depth - 1)
  {
  }

  lemma {:induction false} QuietNode(st: State, n: Node)
    requires IsQuiet(st)
    ensures RunFrom(st, Flatten(n)) == st
    decreases n
  {
    if n.Element? && !IsVoid(Lower(n.tag)) {
      RunElement(st, n);
      QuietStep(st, Tag(Start, n.tag, n.attrs, n.offset));
      QuietNodes(st.(depth := st.depth + 1), n.kids);
      EndStep(st.(depth := st.depth + 1), Tag(End, n.tag, [], n.end));
    } else {
      RunLeaf(st, n);
      QuietStep(st, Tag(if n.Element? then Start else StartEnd, n.tag, n.attrs, n.offset));
    }
  }

  lemma {:induction false} QuietNodes(st: State, nodes: seq<Node>)
    requires IsQuiet(st)
    ensures RunFrom(st, FlattenAll(nodes)) == st
    decreases nodes
  {
    if nodes != [] {
      RunNodes(st, nodes);
      QuietNodes(st, nodes[..|nodes| - 1]);
      QuietNode(st, nodes[|nodes| - 1]);
    }
  }

  // ----- Items

  /** The state with items added to the open list. */
  function WithItems(st: State, items: seq<nat>): State
    requires st.blocks != []
  {
    var last := |st.blocks| - 1;
    st.(blocks := st.blocks[last := st.blocks[last].(items := st.blocks[last].items + items)])
  }

  lemma ItemsOfOne(n: Node)
    ensures ItemsOf([n]) == if n.Element? && Lower(n.tag) == "li" then [n.offset] else []
  {
    assert [n][..0] == [];
  }

  lemma NoItems(st: State)
    requires st.blocks != []
    ensures WithItems(st, []) == st
  {
    var last := |st.blocks| - 1;
    assert st.blocks[last].items + [] == st.blocks[last].items;
    assert st.blocks[last := st.blocks[last]] == st.blocks;
  }

  /** What the start tag of a child of a list does. */
  lemma ItemStart(st: State, t: Tag)
    requires st.depth == 1 && st.inList && !st.inNotes && st.blocks != [] && !t.kind.End?
    ensures var marked := WithItems(st, if t.kind.Start? && Lower(t.name) == "li" then [t.offset] else []);
            Step(st, t) == if t.kind.Start? && !IsVoid(Lower(t.name)) then marked.(depth := 2) else marked
  {
    NoItems(st);
  }

  lemma ItemNode(st: State, n: Node)
    requires st.depth == 1 && st.inList && !st.inNotes && st.blocks != []
    ensures RunFrom(st, Flatten(n)) == WithItems(st, ItemsOf([n]))
  {
    ItemsOfOne(n);
    if n.Element? && !IsVoid(Lower(n.tag)) {
      RunElement(st, n);
      var t := Tag(Start, n.tag, n.attrs, n.offset);
      ItemStart(st, t);
      var deep := Step(st, t);
      QuietNodes(deep, n.kids);
      EndStep(deep, Tag(End, n.tag, [], n.end));
    } else {
      RunLeaf(st, n);
      ItemStart(st, Tag(if n.Element? then Start else StartEnd, n.tag, n.attrs, n.offset));
    }
  }

  lemma LiIsNotVoid(tag: string)
    ensures tag == "li" || tag == "section" ==> !IsVoid(tag)
  {
    assert "li"[0] == 'l' && "section"[0] == 's';
  }

  lemma {:induction false} ItemNodes(st: State, kids: seq<Node>)
    requires st.depth == 1 && st.inList && !st.inNotes && st.blocks != []
    ensures RunFrom(st, FlattenAll(kids)) == WithItems(st, ItemsOf(kids))
  {
    if kids == [] {
      var last := |st.blocks| - 1;
      assert st.blocks[last].items + [] == st.blocks[last].items;
    } else {
      var front, n := kids[..|kids| - 1], kids[|kids| - 1];
      RunNodes(st, kids);
      ItemNodes(st, front);
      ItemNode(WithItems(st, ItemsOf(front)), n);
      ItemsConcat(st, ItemsOf(front), ItemsOf([n]));
      ItemsOfOne(n);
    }
  }

  lemma ItemsConcat(st: State, a: seq<nat>, b: seq<nat>)
    requires st.blocks != []
    ensures WithItems(WithItems(st, a), b) == WithItems(st, a + b)
  {
    var last := |st.blocks| - 1;
    assert st.blocks[last].items + a + b == st.blocks[last].items + (a + b);
    assert WithItems(WithItems(st, a), b).blocks == WithItems(st, a + b).blocks;
  }

  // ----- Notes

  /** The state with items added to the footnotes section. */
  function WithNotes(st: State, items: seq<nat>): State
    requires st.section.Some?
  {
    st.(section := Some(st.section.value.(items := st.section.value.items + items)))
  }

  lemma NotesConcat(st: State, a: seq<nat>, b: seq<nat>)
    requires st.section.Some?
    ensures WithNotes(WithNotes(st, a), b) == WithNotes(st, a + b)
  {
    assert st.section.value.items + a + b == st.section.value.items + (a + b);
  }

  lemma NoteNode(st: State, n: Node)
    requires st.depth == 2 && st.inNotes && st.section.Some?
    ensures RunFrom(st, Flatten(n)) == WithNotes(st, ItemsOf([n]))
  {
    ItemsOfOne(n);
    assert st.section.value.items + [] == st.section.value.items;
    if n.Element? && !IsVoid(Lower(n.tag)) {
      RunElement(st, n);
      var deep := Step(st, Tag(Start, n.tag, n.attrs, n.offset));
      QuietNodes(deep, n.kids);
      EndStep(deep, Tag(End, n.tag, [], n.end));
    } else {
      RunLeaf(st, n);
      LiIsNotVoid(Lower(n.tag));
    }
  }

  lemma {:induction false} NoteNodes(st: State, kids: seq<Node>)
    requires st.depth == 2 && st.inNotes && st.section.Some?
    ensures RunFrom(st, FlattenAll(kids)) == WithNotes(st, ItemsOf(kids))
  {
    if kids == [] {
      assert st.section.value.items + [] == st.section.value.items;
    } else {
      var front, n := kids[..|kids| - 1], kids[|kids| - 1];
      RunNodes(st, kids);
      NoteNodes(st, front);
      NoteNode(WithNotes(st, ItemsOf(front)), n);
      NotesConcat(st, ItemsOf(front), ItemsOf([n]));
      ItemsOfOne(n);
    }
  }

  function NotesIn(n: Node): seq<nat> {
    if n.Element? && !IsVoid(Lower(n.tag)) then ItemsOf(n.kids) else []
  }

  lemma SectionKid(st: State, n: Node)
    requires st.depth == 1 && st.inNotes && !st.inList && st.section.Some?
    ensures RunFrom(st, Flatten(n)) == WithNotes(st, NotesIn(n))
  {
    assert st.section.value.items + [] == st.section.value.items;
    if n.Element? && !IsVoid(Lower(n.tag)) {
      RunElement(st, n);
      var deep := Step(st, Tag(Start, n.tag, n.attrs, n.offset));
      assert deep == st.(depth := 2);
      NoteNodes(deep, n.kids);
      EndStep(WithNotes(deep, ItemsOf(n.kids)), Tag(End, n.tag, [], n.end));
    } else {
      RunLeaf(st, n);
    }
  }

  lemma {:induction false} SectionKids(st: State, kids: seq<Node>)
    requires st.depth == 1 && st.inNotes && !st.inList && st.section.Some?
    ensures RunFrom(st, FlattenAll(kids)) == WithNotes(st, NotesOf(kids))
  {
    if kids == [] {
      assert st.section.value.items + [] == st.section.value.items;
    } else {
      var front, n := kids[..|kids| - 1], kids[|kids| - 1];
      RunNodes(st, kids);
      SectionKids(st, front);
      SectionKid(WithNotes(st, NotesOf(front)), n);
      NotesConcat(st, NotesOf(front), NotesIn(n));
    }
  }

  // ----- The top level

  function Found(nodes: seq<Node>): State {
    State(0, BlocksOf(nodes), false, SectionOf(nodes), false)
  }

  /** The end tag of a top-level element. */
  lemma RootEnd(st: State, t: Tag)
    requires st.depth == 1 && t.kind.End? && !IsVoid(Lower(t.name))
    ensures Step(st, t) == st.(depth := 0, inList := false, inNotes := false)
  {
  }

  lemma RootSection(st: State, n: Node)
    requires st.depth == 0 && !st.inList && !st.inNotes && !IsVoid(Lower(n.tag)) && IsNotes(n)
    ensures RunFrom(st, Flatten(n)) == st.(section := Some(Block(n.offset, Lower(n.tag), NotesOf(n.kids))))
  {
    RunElement(st, n);
    var inside := st.(depth := 1, section := Some(Block(n.offset, Lower(n.tag), [])), inNotes := true);
    assert Step(st, Tag(Start, n.tag, n.attrs, n.offset)) == inside;
    SectionKids(inside, n.kids);
    assert [] + NotesOf(n.kids) == NotesOf(n.kids);
    RootEnd(WithNotes(inside, NotesOf(n.kids)), Tag(End, n.tag, [], n.end));
  }

  lemma RootList(st: State, n: Node)
    requires st.depth == 0 && !st.inList && !st.inNotes && n.Element? && !IsVoid(Lower(n.tag))
    requires !IsNotes(n) && IsBlockTag(Lower(n.tag)) && IsListTag(Lower(n.tag))
    ensures RunFrom(st, Flatten(n)) == st.(blocks := st.blocks + [Block(n.offset, Lower(n.tag), ItemsOf(n.kids))])
  {
    RunElement(st, n);
    var inside := st.(depth := 1, blocks := st.blocks + [Block(n.offset, Lower(n.tag), [])], inList := true);
    assert Step(st, Tag(Start, n.tag, n.attrs, n.offset)) == inside;
    ItemNodes(inside, n.kids);
    assert [] + ItemsOf(n.kids) == ItemsOf(n.kids);
    assert WithItems(inside, ItemsOf(n.kids)).blocks == st.blocks + [Block(n.offset, Lower(n.tag), ItemsOf(n.kids))];
    RootEnd(WithItems(inside, ItemsOf(n.kids)), Tag(End, n.tag, [], n.end));
  }

  lemma RootOther(st: State, n: Node)
    requires st.depth == 0 && !st.inList && !st.inNotes && n.Element? && !IsVoid(Lower(n.tag))
    requires !IsNotes(n) && !(IsBlockTag(Lower(n.tag)) && IsListTag(Lower(n.tag)))
    ensures RunFrom(st, Flatten(n))
         == if IsBlockTag(Lower(n.tag)) then st.(blocks := st.blocks + [Block(n.offset, Lower(n.tag), [])]) else st
  {
    RunElement(st, n);
    var blocks := if IsBlockTag(Lower(n.tag)) then st.blocks + [Block(n.offset, Lower(n.tag), [])] else st.blocks;
    var inside := st.(depth := 1, blocks := blocks);
    assert Step(st, Tag(Start, n.tag, n.attrs, n.offset)) == inside;
    QuietNodes(inside, n.kids);
    RootEnd(inside, Tag(End, n.tag, [], n.end));
  }

  lemma RootElement(st: State, n: Node)
    requires st.depth == 0 && !st.inList && !st.inNotes && n.Element? && !IsVoid(Lower(n.tag))
    ensures var tag := Lower(n.tag);
            RunFrom(st, Flatten(n)) ==
            if IsNotes(n) then st.(section := Some(Block(n.offset, tag, NotesOf(n.kids))))
            else if IsBlockTag(tag) then
              st.(blocks := st.blocks + [Block(n.offset, tag, if IsListTag(tag) then ItemsOf(n.kids) else [])])
            else st
  {
    if IsNotes(n) {
      RootSection(st, n);
    } else if IsBlockTag(Lower(n.tag)) && IsListTag(Lower(n.tag)) {
      RootList(st, n);
    } else {
      RootOther(st, n);
    }
  }

  lemma RootLeaf(st: State, n: Node)
    requires st.depth == 0 && !st.inList && !st.inNotes && (n.Element? ==> IsVoid(Lower(n.tag)))
    ensures var tag := Lower(n.tag);
            && !IsNotes(n)
            && RunFrom(st, Flatten(n))
               == if IsBlockTag(tag) then st.(blocks := st.blocks + [Block(n.offset, tag, [])]) else st
    ensures n.Element? ==> !IsListTag(Lower(n.tag))
  {
    RunLeaf(st, n);
    LiIsNotVoid(Lower(n.tag));
    ListTagsOpen(Lower(n.tag));
  }

  /** For every forest of elements, the finder finds exactly the top-level block elements in order, each list
      with its direct items, and the last top-level footnotes section with the items of its lists. */
  lemma {:induction false} FindsTopLevelBlocks(nodes: seq<Node>)
    ensures Run(FlattenAll(nodes)) == Found(nodes)
  {
    RunIsRunFrom(FlattenAll(nodes));
    if nodes != [] {
      var front, n := nodes[..|nodes| - 1], nodes[|nodes| - 1];
      FindsTopLevelBlocks(front);
      RunIsRunFrom(FlattenAll(front));
      RunNodes(START, nodes);
      if n.Element? && !IsVoid(Lower(n.tag)) {
        RootElement(Found(front), n);
      } else {
        RootLeaf(Found(front), n);
      }
    }
  }
}
