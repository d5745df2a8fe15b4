/** What the sanitizer means: on a well-nested document it prunes the element tree. */
module SanitizerTree {
  import opened Options
  import opened PyText
  import opened Html
  import opened Sanitizer

  /** A well-nested document. */
  datatype Node =
    | Element(tag: string, attrs: seq<Attr>, children: seq<Node>)
    | Empty(tag: string, attrs: seq<Attr>)
    | Chars(text: string)
    | Named(name: string)
    | Numbered(name: string)

  /** The events of the document, in document order. */
  function Events(n: Node): seq<Event> {
    match n
    case Element(tag, attrs, children) => [StartTag(tag, attrs)] + AllEvents(children) + [EndTag(tag)]
    case Empty(tag, attrs) => [StartEndTag(tag, attrs)]
    case Chars(text) => [Data(text)]
    case Named(name) => [EntityRef(name)]
    case Numbered(name) => [NumericRef(name)]
  }

  function AllEvents(ns: seq<Node>): seq<Event> {
    if ns == [] then [] else Events(ns[0]) + AllEvents(ns[1..])
  }

  /** A document in which every attribute has been judged. */
  datatype Clean =
    | CleanElement(tag: string, attrs: seq<SafeAttr>, children: seq<Clean>)
    | CleanEmpty(tag: string, attrs: seq<SafeAttr>)
    | CleanChars(text: string)
    | CleanNamed(name: string)
    | CleanNumbered(name: string)

  /** Writes a clean tree. A void element has no end tag. */
  function Serialize(c: Clean): seq<Piece> {
    match c
    case CleanElement(tag, attrs, children) =>
      [Open(tag, attrs)] + SerializeAll(children) + if tag in VOID_TAGS then [] else [Close(tag)]
    case CleanEmpty(tag, attrs) => [SelfClosed(tag, attrs)]
    case CleanChars(text) => [Text(text)]
    case CleanNamed(name) => [Entity(name)]
    case CleanNumbered(name) => [CharRef(name)]
  }

  function SerializeAll(cs: seq<Clean>): seq<Piece> {
    if cs == [] then [] else Serialize(cs[0]) + SerializeAll(cs[1..])
  }

  const NOTICE_TREE := CleanElement("p", [], [CleanElement("em", [], [CleanChars(NOTICE_TEXT)])])

  /** Elements that are not allowed give way to their children; an iframe that is not a video
      player gives way to a notice and its children; attributes are filtered. */
  function Prune(policy: Policy, n: Node): seq<Clean> {
    match n
    case Element(tag, attrs, children) =>
      var name := Lower(tag);
      var kept := PruneAll(policy, children);
      if name == "iframe" then
        if !policy.allowIframes then kept
        else
          var src := IframeSrc(attrs);
          if src.Some? && policy.isVideo(src.value) then [CleanElement("iframe", IframeAttrs(src.value), kept)]
          else [NOTICE_TREE] + kept
      else if name in policy.allowedTags then [CleanElement(name, FilterAttrs(policy, name, attrs), kept)]
      else kept
    case Empty(tag, attrs) =>
      var name := Lower(tag);
      if name == "iframe" then
        if !policy.allowIframes then []
        else
          var src := IframeSrc(attrs);
          if src.Some? && policy.isVideo(src.value) then [CleanElement("iframe", IframeAttrs(src.value), [])]
          else [NOTICE_TREE]
      else if name in policy.allowedTags then [CleanEmpty(name, FilterAttrs(policy, name, attrs))]
      else []
    case Chars(text) => [CleanChars(text)]
    case Named(name) => [CleanNamed(name)]
    case Numbered(name) => [CleanNumbered(name)]
  }

  function PruneAll(policy: Policy, ns: seq<Node>): seq<Clean> {
    if ns == [] then [] else Prune(policy, ns[0]) + PruneAll(policy, ns[1..])
  }

  // ----- The machine computes the pruned tree

  lemma {:induction false} SerializeAppend(a: seq<Clean>, b: seq<Clean>)
    ensures SerializeAll(a + b) == SerializeAll(a) + SerializeAll(b)
  {
    if a == [] {
      assert a + b == b;
    } else {
      assert (a + b)[0] == a[0] && (a + b)[1..] == a[1..] + b;
      SerializeAppend(a[1..], b);
    }
  }

  lemma SerializeOne(c: Clean)
    ensures SerializeAll([c]) == Serialize(c)
  {
    assert [c][1..] == [];
    assert Serialize(c) + SerializeAll([]) == Serialize(c);
  }

  lemma SerializeNotice()
    ensures Serialize(NOTICE_TREE) == NOTICE
  {
    var text := CleanChars(NOTICE_TEXT);
    var em := CleanElement("em", [], [text]);
    SerializeOne(text);
    SerializeOne(em);
    assert "em" !in VOID_TAGS && "p" !in VOID_TAGS;
    assert Serialize(em) == [Open("em", [])] + [Text(NOTICE_TEXT)] + [Close("em")];
    assert Serialize(NOTICE_TREE) == [Open("p", [])] + Serialize(em) + [Close("p")];
  }

  lemma RunThree(policy: Policy, s: State, first: Event, middle: seq<Event>, last: Event)
    ensures Run(policy, s, [first] + middle + [last]) == Step(policy, Run(policy, Step(policy, s, first), middle), last)
  {
    var events := [first] + middle + [last];
    assert events[0] == first && events[1..] == middle + [last];
    RunAppend(policy, Step(policy, s, first), middle, [last]);
    RunOne(policy, Run(policy, Step(policy, s, first), middle), last);
  }

  /** From any state, the events of a node leave the stack as it was and append
      the serialisation of the pruned node. */
  lemma {:induction false} RunNode(policy: Policy, s: State, n: Node)
    ensures Run(policy, s, Events(n)) == State(s.pieces + SerializeAll(Prune(policy, n)), s.open)
    decreases n, 1
  {
    match n {
      case Element(tag, attrs, children) =>
        var begun := Step(policy, s, StartTag(tag, attrs));
        RunThree(policy, s, StartTag(tag, attrs), AllEvents(children), EndTag(tag));
        RunNodes(policy, begun, children);
        var kept := SerializeAll(PruneAll(policy, children));
        EndOfElement(policy, s, n, State(begun.pieces + kept, begun.open));
      case Empty(tag, attrs) =>
        RunOne(policy, s, StartEndTag(tag, attrs));
        EmptyElement(policy, s, n);
      case Chars(text) =>
        RunOne(policy, s, Data(text));
        SerializeOne(CleanChars(text));
      case Named(name) =>
        RunOne(policy, s, EntityRef(name));
        SerializeOne(CleanNamed(name));
      case Numbered(name) =>
        RunOne(policy, s, NumericRef(name));
        SerializeOne(CleanNumbered(name));
    }
  }

  lemma EndOfElement(policy: Policy, s: State, n: Node, inner: State)
    requires n.Element?
    requires var begun := Step(policy, s, StartTag(n.tag, n.attrs));
             inner == State(begun.pieces + SerializeAll(PruneAll(policy, n.children)), begun.open)
    ensures Step(policy, inner, EndTag(n.tag)) == State(s.pieces + SerializeAll(Prune(policy, n)), s.open)
  {
    var name := Lower(n.tag);
    var kept := PruneAll(policy, n.children);
    if name == "iframe" {
      EndOfIframe(policy, s, n, inner, kept);
    } else if name in policy.allowedTags {
      EndOfKept(policy, s, inner, n.tag, name, FilterAttrs(policy, name, n.attrs), kept);
    } else {
      assert inner.open == s.open + [None];
    }
  }

  lemma EndOfKept(policy: Policy, s: State, inner: State, tag: string, name: string, attrs: seq<SafeAttr>,
                  kept: seq<Clean>)
    requires name == Lower(tag)
    requires inner == State(s.pieces + [Open(name, attrs)] + SerializeAll(kept), s.open + [Some(name)])
    ensures Step(policy, inner, EndTag(tag))
              == State(s.pieces + SerializeAll([CleanElement(name, attrs, kept)]), s.open)
  {
    SerializeOne(CleanElement(name, attrs, kept));
    assert inner.open[..|s.open|] == s.open;
  }

  lemma EndOfNotice(policy: Policy, s: State, inner: State, tag: string, kept: seq<Clean>)
    requires inner == State(s.pieces + NOTICE + SerializeAll(kept), s.open + [None])
    ensures Step(policy, inner, EndTag(tag)) == State(s.pieces + SerializeAll([NOTICE_TREE] + kept), s.open)
  {
    SerializeNotice();
    SerializeOne(NOTICE_TREE);
    SerializeAppend([NOTICE_TREE], kept);
    assert inner.pieces == s.pieces + (NOTICE + SerializeAll(kept));
    assert inner.open[..|s.open|] == s.open;
  }

  lemma EndOfIframe(policy: Policy, s: State, n: Node, inner: State, kept: seq<Clean>)
    requires n.Element? && Lower(n.tag) == "iframe" && kept == PruneAll(policy, n.children)
    requires var begun := Step(policy, s, StartTag(n.tag, n.attrs));
             inner == State(begun.pieces + SerializeAll(kept), begun.open)
    ensures Step(policy, inner, EndTag(n.tag)) == State(s.pieces + SerializeAll(Prune(policy, n)), s.open)
  {
    var src := IframeSrc(n.attrs);
    if !policy.allowIframes {
      assert inner.open[..|s.open|] == s.open;
    } else if src.Some? && policy.isVideo(src.value) {
      EndOfKept(policy, s, inner, n.tag, "iframe", IframeAttrs(src.value), kept);
    } else {
      EndOfNotice(policy, s, inner, n.tag, kept);
    }
  }

  lemma EmptyElement(policy: Policy, s: State, n: Node)
    requires n.Empty?
    ensures Step(policy, s, StartEndTag(n.tag, n.attrs)) == State(s.pieces + SerializeAll(Prune(policy, n)), s.open)
  {
    var name := Lower(n.tag);
    if name == "iframe" {
      var src := IframeSrc(n.attrs);
      if policy.allowIframes && src.Some? && policy.isVideo(src.value) {
        SerializeOne(CleanElement("iframe", IframeAttrs(src.value), []));
      } else if policy.allowIframes {
        SerializeNotice();
        SerializeOne(NOTICE_TREE);
      }
    } else if name in policy.allowedTags {
      SerializeOne(CleanEmpty(name, FilterAttrs(policy, name, n.attrs)));
    }
  }

  lemma RunTwo(policy: Policy, s: State, a: seq<Event>, b: seq<Event>, x: seq<Clean>, y: seq<Clean>)
    requires Run(policy, s, a) == State(s.pieces + SerializeAll(x), s.open)
    requires Run(policy, Run(policy, s, a), b) == State(s.pieces + SerializeAll(x) + SerializeAll(y), s.open)
    ensures Run(policy, s, a + b) == State(s.pieces + SerializeAll(x + y), s.open)
  {
    RunAppend(policy, s, a, b);
    SerializeAppend(x, y);
    PiecesTogether(s.pieces, SerializeAll(x), SerializeAll(y));
  }

  lemma PiecesTogether(a: seq<Piece>, b: seq<Piece>, c: seq<Piece>)
    ensures a + b + c == a + (b + c)
  {
  }

  lemma {:induction false} RunNodes(policy: Policy, s: State, ns: seq<Node>)
    ensures Run(policy, s, AllEvents(ns)) == State(s.pieces + SerializeAll(PruneAll(policy, ns)), s.open)
    decreases ns, 0
  {
    if ns == [] {
      assert s.pieces + [] == s.pieces;
    } else {
      RunNode(policy, s, ns[0]);
      RunNodes(policy, Run(policy, s, Events(ns[0])), ns[1..]);
      RunTwo(policy, s, Events(ns[0]), AllEvents(ns[1..]), Prune(policy, ns[0]), PruneAll(policy, ns[1..]));
    }
  }

  /** For every policy and every well-nested document, the stack machine writes
      the serialisation of the pruned tree. */
  lemma SanitizerPrunes(policy: Policy, doc: seq<Node>)
    ensures Sanitized(policy, AllEvents(doc)) == SerializeAll(PruneAll(policy, doc))
  {
    RunNodes(policy, State([], []), doc);
  }
}
