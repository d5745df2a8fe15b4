/** Markdown documents as the elements they are written from, without reference to the scan: what each
    element looks like, which may follow which, and which of them are blocks. */
module SentinelGrammar {
  import opened Options
  import opened PyText
  import opened SentinelScanner
  import opened SentinelShapes

  /** What stands in a fenced div: plain lines, code, and nested divs. */
  datatype Part =
    | Text(line: string)
    | Listing(mark: char, len: nat, open: string, body: seq<string>, close: string)
    | Nested(open: string, parts: seq<Part>, close: string)

  /** A list item: its bullet stands in columns `a` to `b`, and its text begins in column `c`. */
  datatype Item = Item(a: nat, b: nat, c: nat, line: string, more: seq<string>)

  /** A term, and the definitions below it. Groups but the first follow a gap. */
  datatype Group = Group(gap: seq<string>, term: seq<string>, space: seq<string>, marks: seq<string>)

  datatype Element =
    | Paragraph(text: seq<string>)
    | Code(mark: char, len: nat, open: string, body: seq<string>, close: string)
    | Div(open: string, parts: seq<Part>, close: string)
    | Bullets(items: seq<Item>)
    | Note(line: string, more: seq<string>)
    | Reference(line: string, title: seq<string>)
    | Definitions(groups: seq<Group>)

  /** An element and the blank lines before it. */
  datatype Placed = Placed(space: seq<string>, element: Element)

  datatype Document = Empty | More(front: Document, last: Placed)

  // ----- Their lines

  function PartLines(part: Part): (lines: seq<string>)
    ensures lines != []
  {
    match part
    case Text(line) => [line]
    case Listing(_, _, open, body, close) => [open] + body + [close]
    case Nested(open, parts, close) => [open] + PartsLines(parts) + [close]
  }

  function PartsLines(parts: seq<Part>): seq<string> {
    if parts == [] then [] else PartLines(parts[0]) + PartsLines(parts[1..])
  }

  function ItemsLines(items: seq<Item>): seq<string> {
    if items == [] then []
    else ItemsLines(items[..|items| - 1]) + [items[|items| - 1].line] + items[|items| - 1].more
  }

  function GroupLines(g: Group): seq<string> {
    g.gap + g.term + g.space + g.marks
  }

  function GroupsLines(groups: seq<Group>): seq<string> {
    if groups == [] then [] else GroupsLines(groups[..|groups| - 1]) + GroupLines(groups[|groups| - 1])
  }

  function ElementLines(e: Element): seq<string> {
    match e
    case Paragraph(text) => text
    case Code(_, _, open, body, close) => [open] + body + [close]
    case Div(open, parts, close) => [open] + PartsLines(parts) + [close]
    case Bullets(items) => ItemsLines(items)
    case Note(line, more) => [line] + more
    case Reference(line, title) => [line] + title
    case Definitions(groups) => GroupsLines(groups)
  }

  function PlacedLines(p: Placed): seq<string> {
    p.space + ElementLines(p.element)
  }

  function LinesOf(doc: Document): seq<string> {
    match doc
    case Empty => []
    case More(front, last) => LinesOf(front) + PlacedLines(last)
  }

  // ----- What they look like

  ghost predicate AreBlank(lines: seq<string>) {
    forall l <- lines :: IsBlank(l)
  }

  /** A line that goes on with a paragraph: no fence, no definition and no list item. */
  ghost predicate IsMoreText(line: string) {
    !IsBlank(line) && !HasFence(line) && !OpensDiv(line) && !IsDefinition(line) && !IsListItem(line, 3)
  }

  ghost predicate IsParagraph(text: seq<string>) {
    && text != [] && !IsNoteLine(text[0]) && !IsReferenceLine(text[0])
    && forall l <- text :: IsMoreText(l)
  }

  /** A fence, lines that do not close it, and one that does. */
  ghost predicate IsCode(mark: char, len: nat, open: string, body: seq<string>, close: string) {
    && IsFence(open, mark, len) && ClosesCode(close, mark, len)
    && forall l <- body :: !ClosesCode(l, mark, len)
  }

  ghost predicate IsPart(part: Part) {
    match part
    case Text(line) => !HasFence(line) && !OpensDiv(line) && !ClosesDiv(line)
    case Listing(mark, len, open, body, close) => IsCode(mark, len, open, body, close)
    case Nested(open, parts, close) => OpensDiv(open) && ClosesDiv(close) && forall p <- parts :: IsPart(p)
  }

  /** A later item is not indented further than the first, nor as far as the text of the one before it. The lines
      below an item are blank or indented as far as its text. */
  ghost predicate AreBullets(items: seq<Item>) {
    && items != [] && items[0].a <= 3
    && (forall k :: 0 <= k < |items| ==> IsItemLine(items[k].line, items[k].a, items[k].b, items[k].c)
                                         && items[k].a <= items[0].a)
    && (forall j, k :: 0 <= j < k < |items| && k == j + 1 ==> items[k].a < items[j].c)
    && (forall k :: 0 <= k < |items| ==>
          forall l <- items[k].more :: IsBlank(l) || IsIndented(l, items[k].c))
    && (items[|items| - 1].more != [] ==> !IsBlank(items[|items| - 1].more[|items[|items| - 1].more| - 1]))
  }

  /** A term, and below it lines the first of which is a definition. */
  ghost predicate IsGroup(g: Group) {
    && AreBlank(g.gap) && AreBlank(g.space) && IsParagraph(g.term)
    && g.marks != [] && IsDefinition(g.marks[0]) && forall l <- g.marks :: IsDefinition(l) || IsMoreText(l)
  }

  ghost predicate AreGroups(groups: seq<Group>) {
    && groups != [] && groups[0].gap == []
    && forall k :: 0 <= k < |groups| ==> IsGroup(groups[k]) && (k > 0 ==> groups[k].gap != [])
  }

  ghost predicate IsElement(e: Element) {
    match e
    case Paragraph(text) => IsParagraph(text)
    case Code(mark, len, open, body, close) => IsCode(mark, len, open, body, close)
    case Div(open, parts, close) => OpensDiv(open) && ClosesDiv(close) && forall p <- parts :: IsPart(p)
    case Bullets(items) => AreBullets(items)
    case Note(line, more) => IsNoteLine(line) && forall l <- more :: GoesOnNote(l)
    case Reference(line, title) =>
      IsReferenceLine(line) && |title| <= 1 && forall l <- title :: !IsBlank(l) && IsIndented(l, 1)
    case Definitions(groups) => AreGroups(groups)
  }

  // ----- What may follow

  /** What an element leaves behind for the next one: whether a gap, the margins of a list, whether a definition
      list may still be joined, and which lines would be taken for more of a note or reference. */
  datatype Context = Context(gap: bool, margins: Option<(nat, nat)>, joinable: bool, taken: Taken)

  datatype Taken = Nothing | MoreOfNote | TitleOfReference

  const BEGIN := Context(true, None, false, Nothing)

  function After(before: Context, p: Placed): Context {
    var gap := before.gap || p.space != [];
    match p.element
    case Paragraph(_) => Context(false, None, false, Nothing)
    case Code(_, _, _, _, _) => Context(false, None, false, Nothing)
    case Div(_, _, _) => Context(false, None, before.joinable && !gap, Nothing)
    case Bullets(items) =>
      Context(false, if items == [] then None else Some((items[0].a, items[|items| - 1].c)), false, Nothing)
    case Note(_, _) => Context(true, None, before.joinable, MoreOfNote)
    case Reference(_, title) => Context(true, None, before.joinable, if title == [] then TitleOfReference else Nothing)
    case Definitions(_) => Context(false, None, true, Nothing)
  }

  function FirstLine(e: Element): string {
    if ElementLines(e) == [] then "" else ElementLines(e)[0]
  }

  /** Everything but code, divs and lists needs a gap. A list ends at a line that is neither indented as far as its text
      nor an item at its margin; a note, at a line that does not go on with it. Two definition lists need a block
      between them. */
  ghost predicate MayFollow(before: Context, p: Placed) {
    var e, f := p.element, FirstLine(p.element);
    && AreBlank(p.space) && IsElement(e)
    && (e.Code? || e.Div? || e.Bullets? || before.gap || p.space != [])
    && (before.margins.Some? ==> !IsIndented(f, before.margins.value.1) && !IsListItem(f, before.margins.value.0))
    && (before.taken.MoreOfNote? ==> !GoesOnNote(f))
    && (before.taken.TitleOfReference? && p.space == [] ==> !IsIndented(f, 1))
    && (e.Definitions? ==> !before.joinable)
  }

  function ContextOf(doc: Document): Context {
    match doc
    case Empty => BEGIN
    case More(front, last) => After(ContextOf(front), last)
  }

  ghost predicate IsDocument(doc: Document) {
    match doc
    case Empty => true
    case More(front, last) => IsDocument(front) && MayFollow(ContextOf(front), last)
  }

  // ----- Their blocks

  /** The lines of the items of a list that begins on line `at`. */
  function ItemLines(items: seq<Item>, at: nat): seq<nat> {
    if items == [] then []
    else ItemLines(items[..|items| - 1], at) + [at + |ItemsLines(items[..|items| - 1])|]
  }

  /** The block that an element on line `at` makes: code and divs make one after a gap only, notes and
      references none. */
  function BlocksOf(gap: bool, e: Element, at: nat): seq<Anchor> {
    match e
    case Paragraph(_) => [Anchor(at, [])]
    case Code(_, _, _, _, _) => if gap then [Anchor(at, [])] else []
    case Div(_, _, _) => if gap then [Anchor(at, [])] else []
    case Bullets(items) => [Anchor(at, ItemLines(items, at))]
    case Note(_, _) => []
    case Reference(_, _) => []
    case Definitions(_) => [Anchor(at, [])]
  }

  function DocumentBlocks(doc: Document): seq<Anchor> {
    match doc
    case Empty => []
    case More(front, last) => DocumentBlocks(front) + OwnBlocks(ContextOf(front), last, |LinesOf(front)|)
  }

  function OwnBlocks(before: Context, p: Placed, i: nat): seq<Anchor> {
    BlocksOf(before.gap || p.space != [], p.element, i + |p.space|)
  }
}
