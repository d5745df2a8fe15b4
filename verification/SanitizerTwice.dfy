/** Sanitizing what the sanitizer wrote: when it changes nothing, and when it loses an end tag. */
module SanitizerTwice {
  import opened Options
  import opened PyText
  import opened Html
  import opened Sanitizer
  import opened SanitizerTree

  // ----- Reading the output back

  function EmbedAttrs(attrs: seq<SafeAttr>): seq<Attr> {
    seq(|attrs|, i requires 0 <= i < |attrs| => Attr(attrs[i].name, Some(attrs[i].value)))
  }

  /** What the tokenizer reports for an escaped character: a reference, or the character. */
  function CharEvent(c: char): Event {
    match c
    case '&' => EntityRef("amp")
    case '<' => EntityRef("lt")
    case '>' => EntityRef("gt")
    case '"' => EntityRef("quot")
    case '\'' => NumericRef("x27")
    case _ => Data([c])
  }

  function TextEvents(text: string): seq<Event> {
    if text == "" then [] else [CharEvent(text[0])] + TextEvents(text[1..])
  }

  /** What the tokenizer reports for a piece of output. Attribute values are reported unescaped. */
  function EventsOf(p: Piece): seq<Event> {
    match p
    case Open(tag, attrs) => [StartTag(tag, EmbedAttrs(attrs))]
    case Close(tag) => [EndTag(tag)]
    case SelfClosed(tag, attrs) => [StartEndTag(tag, EmbedAttrs(attrs))]
    case Text(text) => TextEvents(text)
    case Entity(name) => [EntityRef(name)]
    case CharRef(name) => [NumericRef(name)]
  }

  function AllEventsOf(pieces: seq<Piece>): seq<Event> {
    if pieces == [] then [] else EventsOf(pieces[0]) + AllEventsOf(pieces[1..])
  }

  lemma {:induction false} EventsOfAppend(a: seq<Piece>, b: seq<Piece>)
    ensures AllEventsOf(a + b) == AllEventsOf(a) + AllEventsOf(b)
  {
    if a == [] {
      assert a + b == b;
    } else {
      assert (a + b)[0] == a[0] && (a + b)[1..] == a[1..] + b;
      EventsOfAppend(a[1..], b);
    }
  }

  lemma EventsOfOne(p: Piece)
    ensures AllEventsOf([p]) == EventsOf(p)
  {
    assert [p][1..] == [];
    assert EventsOf(p) + [] == EventsOf(p);
  }

  /** The machine's state after reading pieces of output. */
  function Reread(policy: Policy, s: State, pieces: seq<Piece>): State {
    Run(policy, s, AllEventsOf(pieces))
  }

  lemma RereadAppend(policy: Policy, s: State, a: seq<Piece>, b: seq<Piece>)
    ensures Reread(policy, s, a + b) == Reread(policy, Reread(policy, s, a), b)
  {
    EventsOfAppend(a, b);
    RunAppend(policy, s, AllEventsOf(a), AllEventsOf(b));
  }

  /** `t` has the open tags `open`, and has written `html` since `s`. */
  ghost predicate Wrote(s: State, t: State, html: string, open: seq<Option<string>>) {
    RenderAll(t.pieces) == RenderAll(s.pieces) + html && t.open == open
  }

  /** `t` has written less than `html` since `s`. */
  ghost predicate WroteLess(s: State, t: State, html: string) {
    |RenderAll(t.pieces)| < |RenderAll(s.pieces)| + |html|
  }

  lemma WroteBoth(s: State, t: State, u: State, a: string, b: string, open: seq<Option<string>>)
    requires Wrote(s, t, a, t.open) && Wrote(t, u, b, open)
    ensures Wrote(s, u, a + b, open)
  {
    ConcatIsAssociative(RenderAll(s.pieces), a, b);
  }

  /** Writing one piece. */
  lemma WroteOne(s: State, p: Piece, open: seq<Option<string>>)
    ensures Wrote(s, State(s.pieces + [p], open), Render(p), open)
  {
    RenderSnoc(s.pieces, p);
  }

  lemma WroteNothing(s: State)
    ensures Wrote(s, s, "", s.open)
  {
  }

  // ----- Text

  /** The piece written for a character. */
  function CharPiece(c: char): Piece {
    match c
    case '&' => Entity("amp")
    case '<' => Entity("lt")
    case '>' => Entity("gt")
    case '"' => Entity("quot")
    case '\'' => CharRef("x27")
    case _ => Text([c])
  }

  lemma EscapeOne(c: char)
    ensures Escape([c]) == EscapeChar(c)
  {
    assert [c][1..] == "";
    assert EscapeChar(c) + "" == EscapeChar(c);
  }

  lemma ReferenceTexts()
    ensures Render(Entity("amp")) == "&amp;" && Render(Entity("lt")) == "&lt;" && Render(Entity("gt")) == "&gt;"
    ensures Render(Entity("quot")) == "&quot;" && Render(CharRef("x27")) == "&#x27;"
  {
  }

  lemma CharIsRendered(c: char)
    ensures Render(CharPiece(c)) == EscapeChar(c)
  {
    ReferenceTexts();
    EscapeOne(c);
  }

  lemma CharIsKept(policy: Policy, s: State, c: char)
    ensures Wrote(s, Step(policy, s, CharEvent(c)), EscapeChar(c), s.open)
  {
    assert Step(policy, s, CharEvent(c)) == State(s.pieces + [CharPiece(c)], s.open);
    WroteOne(s, CharPiece(c), s.open);
    CharIsRendered(c);
  }

  /** Escaped text is written back as it was. */
  lemma {:induction false} EscapedTextIsKept(policy: Policy, s: State, text: string)
    ensures Wrote(s, Run(policy, s, TextEvents(text)), Escape(text), s.open)
    decreases |text|
  {
    if text == "" {
      WroteNothing(s);
    } else {
      var events := TextEvents(text);
      var t := Step(policy, s, CharEvent(text[0]));
      assert events[0] == CharEvent(text[0]) && events[1..] == TextEvents(text[1..]);
      CharIsKept(policy, s, text[0]);
      EscapedTextIsKept(policy, t, text[1..]);
      WroteBoth(s, t, Run(policy, s, events), EscapeChar(text[0]), Escape(text[1..]), s.open);
    }
  }

  // ----- Trees that the sanitizer has judged

  /** What the two policies in use have in common, see `PoliciesAreRegular`. */
  ghost predicate Regular(policy: Policy) {
    && (forall b <- policy.booleanAttrs :: IsStripped(b) && policy.fits(b, b))
    && (policy.allowIframes ==> "p" in policy.allowedTags && "em" in policy.allowedTags)
  }

  lemma PoliciesAreRegular(scheme: string -> string)
    ensures Regular(StandardPolicy(scheme)) && Regular(ExcerptPolicy(scheme))
  {
    forall b | b in BOOLEAN_ATTRS ensures IsStripped(b) && Fits(scheme, b, b) {
      assert b[0] != 'h' && b[0] != 's' && b[0] != 'i' && !IsSpace(b[0]) && !IsSpace(b[|b| - 1]);
    }
  }

  /** A start tag that is written as it is read. */
  ghost predicate IsSettledTag(policy: Policy, tag: string, attrs: seq<SafeAttr>) {
    if tag == "iframe" then
      && policy.allowIframes
      && var src := IframeSrc(EmbedAttrs(attrs));
         src.Some? && policy.isVideo(src.value) && attrs == IframeAttrs(src.value)
    else
      Lower(tag) == tag && tag in policy.allowedTags && FilterAttrs(policy, tag, EmbedAttrs(attrs)) == attrs
  }

  ghost predicate IsSettled(policy: Policy, c: Clean) {
    match c
    case CleanElement(tag, attrs, children) =>
      IsSettledTag(policy, tag, attrs) && forall k <- children :: IsSettled(policy, k)
    case CleanEmpty(tag, attrs) => tag != "iframe" && IsSettledTag(policy, tag, attrs)
    case _ => true
  }

  ghost predicate AreSettled(policy: Policy, cs: seq<Clean>) {
    forall c <- cs :: IsSettled(policy, c)
  }

  lemma {:induction false} FilterAgain(policy: Policy, tag: string, attrs: seq<Attr>)
    requires Regular(policy)
    ensures FilterAttrs(policy, tag, EmbedAttrs(FilterAttrs(policy, tag, attrs))) == FilterAttrs(policy, tag, attrs)
  {
    if attrs != [] {
      var front, last := attrs[..|attrs| - 1], attrs[|attrs| - 1];
      FilterAgain(policy, tag, front);
      var kept := FilterAttrs(policy, tag, front);
      var r := FilterAttr(policy, tag, last);
      if r.Some? {
        FilterAttrAgain(policy, tag, last);
        var again := EmbedAttrs(kept + [r.value]);
        assert again[..|again| - 1] == EmbedAttrs(kept);
        assert again[|again| - 1] == Attr(r.value.name, Some(r.value.value));
      }
    }
  }

  lemma FilterAttrAgain(policy: Policy, tag: string, a: Attr)
    requires Regular(policy) && FilterAttr(policy, tag, a).Some?
    ensures var r := FilterAttr(policy, tag, a);
            FilterAttr(policy, tag, Attr(r.value.name, Some(r.value.value))) == r
  {
    LowerIdempotent(a.name);
    if a.value.Some? {
      StripIsStripped(a.value.value);
    }
    HarmlessPasses(policy, tag, FilterAttr(policy, tag, a).value);
  }

  lemma KeptTagIsSettled(policy: Policy, tag: string, attrs: seq<Attr>)
    requires Regular(policy) && Lower(tag) != "iframe" && Lower(tag) in policy.allowedTags
    ensures IsSettledTag(policy, Lower(tag), FilterAttrs(policy, Lower(tag), attrs))
  {
    LowerIdempotent(tag);
    FilterAgain(policy, Lower(tag), attrs);
  }

  lemma {:induction false} IframeSrcIsStripped(attrs: seq<Attr>)
    requires IframeSrc(attrs).Some?
    ensures IsStripped(IframeSrc(attrs).value)
  {
    if Lower(attrs[0].name) == "src" && attrs[0].value.Some? {
      StripIsStripped(attrs[0].value.value);
    } else {
      IframeSrcIsStripped(attrs[1..]);
    }
  }

  lemma PlayerIsSettled(policy: Policy, attrs: seq<Attr>)
    requires policy.allowIframes && IframeSrc(attrs).Some? && policy.isVideo(IframeSrc(attrs).value)
    ensures IsSettledTag(policy, "iframe", IframeAttrs(IframeSrc(attrs).value))
  {
    var src := IframeSrc(attrs).value;
    IframeSrcIsStripped(attrs);
    StrippedIsFixed(src);
    var again := EmbedAttrs(IframeAttrs(src));
    assert again[0] == Attr("src", Some(src)) && Lower("src") == "src";
    assert IframeSrc(again) == Some(src);
  }

  lemma NoticeIsSettled(policy: Policy)
    requires Regular(policy) && policy.allowIframes
    ensures IsSettled(policy, NOTICE_TREE)
  {
    assert Lower("em") == "em" && Lower("p") == "p";
    assert EmbedAttrs([]) == [];
    assert IsSettled(policy, CleanChars(NOTICE_TEXT));
    assert IsSettled(policy, CleanElement("em", [], [CleanChars(NOTICE_TEXT)]));
  }

  /** Every node of a pruned document is written as it is read. */
  lemma {:induction false} PrunedIsSettled(policy: Policy, n: Node)
    requires Regular(policy)
    ensures AreSettled(policy, Prune(policy, n))
    decreases n, 1
  {
    if n.Element? {
      AllPrunedAreSettled(policy, n.children);
      ElementIsSettled(policy, n);
    } else if n.Empty? {
      EmptyIsSettled(policy, n);
    }
  }

  lemma ElementIsSettled(policy: Policy, n: Node)
    requires Regular(policy) && n.Element? && AreSettled(policy, PruneAll(policy, n.children))
    ensures AreSettled(policy, Prune(policy, n))
  {
    if Lower(n.tag) == "iframe" {
      var src := IframeSrc(n.attrs);
      if policy.allowIframes && src.Some? && policy.isVideo(src.value) {
        PlayerIsSettled(policy, n.attrs);
      } else if policy.allowIframes {
        NoticeIsSettled(policy);
      }
    } else if Lower(n.tag) in policy.allowedTags {
      KeptTagIsSettled(policy, n.tag, n.attrs);
    }
  }

  lemma EmptyIsSettled(policy: Policy, n: Node)
    requires Regular(policy) && n.Empty?
    ensures AreSettled(policy, Prune(policy, n))
  {
    if Lower(n.tag) == "iframe" {
      var src := IframeSrc(n.attrs);
      if policy.allowIframes && src.Some? && policy.isVideo(src.value) {
        PlayerIsSettled(policy, n.attrs);
      } else if policy.allowIframes {
        NoticeIsSettled(policy);
      }
    } else if Lower(n.tag) in policy.allowedTags {
      KeptTagIsSettled(policy, n.tag, n.attrs);
    }
  }

  lemma {:induction false} AllPrunedAreSettled(policy: Policy, ns: seq<Node>)
    requires Regular(policy)
    ensures AreSettled(policy, PruneAll(policy, ns))
    decreases ns, 0
  {
    if ns != [] {
      PrunedIsSettled(policy, ns[0]);
      AllPrunedAreSettled(policy, ns[1..]);
    }
  }

  // ----- Pruning twice

  /** A clean tree read back as a document. */
  function Embed(c: Clean): Node {
    match c
    case CleanElement(tag, attrs, children) => Element(tag, EmbedAttrs(attrs), EmbedAll(children))
    case CleanEmpty(tag, attrs) => Empty(tag, EmbedAttrs(attrs))
    case CleanChars(text) => Chars(text)
    case CleanNamed(name) => Named(name)
    case CleanNumbered(name) => Numbered(name)
  }

  function EmbedAll(cs: seq<Clean>): seq<Node> {
    if cs == [] then [] else [Embed(cs[0])] + EmbedAll(cs[1..])
  }

  lemma {:induction false} SettledStays(policy: Policy, c: Clean)
    requires IsSettled(policy, c)
    ensures Prune(policy, Embed(c)) == [c]
    decreases c, 1
  {
    if c.CleanElement? {
      AllSettledStay(policy, c.children);
      assert c.tag == "iframe" ==> Lower("iframe") == c.tag;
    }
  }

  lemma {:induction false} AllSettledStay(policy: Policy, cs: seq<Clean>)
    requires AreSettled(policy, cs)
    ensures PruneAll(policy, EmbedAll(cs)) == cs
    decreases cs, 0
  {
    if cs != [] {
      SettledStays(policy, cs[0]);
      AllSettledStay(policy, cs[1..]);
    }
  }

  /** As an operation on trees, pruning is idempotent. */
  lemma PruningTwice(policy: Policy, doc: seq<Node>)
    requires Regular(policy)
    ensures PruneAll(policy, EmbedAll(PruneAll(policy, doc))) == PruneAll(policy, doc)
  {
    AllPrunedAreSettled(policy, doc);
    AllSettledStay(policy, PruneAll(policy, doc));
  }

  // ----- Void elements keep a frame open

  /** No void element stands below an element that is not void. */
  predicate IsFlat(c: Clean) {
    match c
    case CleanElement(tag, _, children) =>
      if tag in VOID_TAGS then AreFlat(children) else AreFlat(children) && OpenVoids(children) == []
    case _ => true
  }

  predicate AreFlat(cs: seq<Clean>) {
    cs == [] || (IsFlat(cs[0]) && AreFlat(cs[1..]))
  }

  /** The void elements that are not below one that is not void. Nothing closes them. */
  function OpenVoidsOf(c: Clean): seq<Option<string>> {
    match c
    case CleanElement(tag, _, children) => if tag in VOID_TAGS then [Some(tag)] + OpenVoids(children) else []
    case _ => []
  }

  function OpenVoids(cs: seq<Clean>): (tags: seq<Option<string>>)
    ensures forall t <- tags :: t.Some? && t.value in VOID_TAGS
  {
    if cs == [] then [] else OpenVoidsOf(cs[0]) + OpenVoids(cs[1..])
  }

  lemma {:induction false} OpenVoidsAppend(a: seq<Clean>, b: seq<Clean>)
    ensures AreFlat(a + b) <==> AreFlat(a) && AreFlat(b)
    ensures OpenVoids(a + b) == OpenVoids(a) + OpenVoids(b)
  {
    if a == [] {
      assert a + b == b;
    } else {
      assert (a + b)[0] == a[0] && (a + b)[1..] == a[1..] + b;
      OpenVoidsAppend(a[1..], b);
    }
  }

  // ----- What a second pass writes

  /** From state `s`, the pieces are written as they are read, and `open` is left on the stack. */
  ghost predicate Rewrites(policy: Policy, s: State, pieces: seq<Piece>, open: seq<Option<string>>) {
    Wrote(s, Reread(policy, s, pieces), RenderAll(pieces), open)
  }

  /** From state `s`, part of the pieces is lost. */
  ghost predicate Loses(policy: Policy, s: State, pieces: seq<Piece>) {
    WroteLess(s, Reread(policy, s, pieces), RenderAll(pieces))
  }

  lemma RewritesBoth(policy: Policy, s: State, a: seq<Piece>, b: seq<Piece>, open: seq<Option<string>>)
    requires var mid := Reread(policy, s, a); Rewrites(policy, s, a, mid.open) && Rewrites(policy, mid, b, open)
    ensures Rewrites(policy, s, a + b, open)
  {
    var mid := Reread(policy, s, a);
    RereadAppend(policy, s, a, b);
    RenderAppend(a, b);
    WroteBoth(s, mid, Reread(policy, mid, b), RenderAll(a), RenderAll(b), open);
  }

  /** Reading a start tag back. */
  lemma StartIsKept(policy: Policy, s: State, tag: string, attrs: seq<SafeAttr>)
    requires IsSettledTag(policy, tag, attrs)
    ensures Reread(policy, s, [Open(tag, attrs)]) == State(s.pieces + [Open(tag, attrs)], s.open + [Some(tag)])
    ensures Rewrites(policy, s, [Open(tag, attrs)], s.open + [Some(tag)])
  {
    EventsOfOne(Open(tag, attrs));
    RunOne(policy, s, StartTag(tag, EmbedAttrs(attrs)));
    assert Lower("iframe") == "iframe";
    WroteOne(s, Open(tag, attrs), s.open + [Some(tag)]);
    RenderOne(Open(tag, attrs));
  }

  lemma SettledTagIsLower(policy: Policy, tag: string, attrs: seq<SafeAttr>)
    requires IsSettledTag(policy, tag, attrs)
    ensures Lower(tag) == tag
  {
    assert Lower("iframe") == "iframe";
  }

  /** Reading an end tag back takes the innermost open tag off, and writes the end tag only if it is its own. */
  lemma EndIsRead(policy: Policy, s: State, tag: string)
    requires Lower(tag) == tag && tag !in VOID_TAGS && s.open != []
    ensures Reread(policy, s, [Close(tag)])
            == State(if s.open[|s.open| - 1] == Some(tag) then s.pieces + [Close(tag)] else s.pieces,
                     s.open[..|s.open| - 1])
  {
    EventsOfOne(Close(tag));
    RunOne(policy, s, EndTag(tag));
  }

  lemma EndIsKept(policy: Policy, s: State, tag: string, open: seq<Option<string>>)
    requires Lower(tag) == tag && tag !in VOID_TAGS && s.open == open + [Some(tag)]
    ensures Rewrites(policy, s, [Close(tag)], open)
  {
    EndIsRead(policy, s, tag);
    WroteOne(s, Close(tag), open);
    RenderOne(Close(tag));
    assert s.open[..|s.open| - 1] == open;
  }

  lemma EndIsLost(policy: Policy, s: State, tag: string)
    requires Lower(tag) == tag && tag !in VOID_TAGS && s.open != [] && s.open[|s.open| - 1] != Some(tag)
    ensures Loses(policy, s, [Close(tag)])
  {
    EndIsRead(policy, s, tag);
    RenderOne(Close(tag));
  }

  /** A leaf is written as it is read. */
  lemma PieceIsKept(policy: Policy, s: State, p: Piece, event: Event)
    requires EventsOf(p) == [event] && Step(policy, s, event) == State(s.pieces + [p], s.open)
    ensures Rewrites(policy, s, [p], s.open)
  {
    EventsOfOne(p);
    RenderOne(p);
    RunOne(policy, s, event);
    WroteOne(s, p, s.open);
  }

  lemma CharsAreKept(policy: Policy, s: State, text: string)
    ensures Rewrites(policy, s, [Text(text)], s.open)
  {
    EventsOfOne(Text(text));
    RenderOne(Text(text));
    EscapedTextIsKept(policy, s, text);
  }

  lemma LeafIsKept(policy: Policy, s: State, c: Clean)
    requires IsSettled(policy, c) && !c.CleanElement?
    ensures Rewrites(policy, s, Serialize(c), s.open)
  {
    match c {
      case CleanEmpty(tag, attrs) =>
        PieceIsKept(policy, s, SelfClosed(tag, attrs), StartEndTag(tag, EmbedAttrs(attrs)));
      case CleanChars(text) => CharsAreKept(policy, s, text);
      case CleanNamed(name) => PieceIsKept(policy, s, Entity(name), EntityRef(name));
      case CleanNumbered(name) => PieceIsKept(policy, s, CharRef(name), NumericRef(name));
    }
  }

  /** The pieces of an element: start tag, children, and an end tag unless it is void. */
  lemma ElementPieces(c: Clean)
    requires c.CleanElement?
    ensures var inner := [Open(c.tag, c.attrs)] + SerializeAll(c.children);
            Serialize(c) == if c.tag in VOID_TAGS then inner else inner + [Close(c.tag)]
  {
  }

  /** An element up to its end tag, given what its children write. */
  lemma InnerIsKept(policy: Policy, s: State, tag: string, attrs: seq<SafeAttr>, inner: seq<Piece>,
                    open: seq<Option<string>>)
    requires IsSettledTag(policy, tag, attrs)
    requires Rewrites(policy, State(s.pieces + [Open(tag, attrs)], s.open + [Some(tag)]), inner, open)
    ensures Rewrites(policy, s, [Open(tag, attrs)] + inner, open)
  {
    StartIsKept(policy, s, tag, attrs);
    RewritesBoth(policy, s, [Open(tag, attrs)], inner, open);
  }

  lemma WholeIsKept(policy: Policy, s: State, tag: string, pieces: seq<Piece>)
    requires Lower(tag) == tag && tag !in VOID_TAGS && Rewrites(policy, s, pieces, s.open + [Some(tag)])
    ensures Rewrites(policy, s, pieces + [Close(tag)], s.open)
  {
    EndIsKept(policy, Reread(policy, s, pieces), tag, s.open);
    RewritesBoth(policy, s, pieces, [Close(tag)], s.open);
  }

  lemma ElementIsKept(policy: Policy, s: State, c: Clean, voids: seq<Option<string>>)
    requires c.CleanElement? && IsSettledTag(policy, c.tag, c.attrs)
    requires Rewrites(policy, State(s.pieces + [Open(c.tag, c.attrs)], s.open + [Some(c.tag)]),
             SerializeAll(c.children),
                      s.open + [Some(c.tag)] + voids)
    ensures c.tag in VOID_TAGS ==> Rewrites(policy, s, Serialize(c), s.open + [Some(c.tag)] + voids)
    ensures c.tag !in VOID_TAGS && voids == [] ==> Rewrites(policy, s, Serialize(c), s.open)
  {
    var inner := [Open(c.tag, c.attrs)] + SerializeAll(c.children);
    ElementPieces(c);
    InnerIsKept(policy, s, c.tag, c.attrs, SerializeAll(c.children), s.open + [Some(c.tag)] + voids);
    if c.tag !in VOID_TAGS && voids == [] {
      SettledTagIsLower(policy, c.tag, c.attrs);
      OpenNothing(s.open + [Some(c.tag)]);
      WholeIsKept(policy, s, c.tag, inner);
    }
  }

  lemma OpenAssoc(a: seq<Option<string>>, b: seq<Option<string>>, c: seq<Option<string>>)
    ensures (a + b) + c == a + (b + c)
  {
  }

  lemma OpenNothing(open: seq<Option<string>>)
    ensures open + [] == open
  {
  }

  /** Two neighbours, each of which leaves its void elements on the stack. */
  lemma NeighboursAreKept(policy: Policy, s: State, a: seq<Piece>, b: seq<Piece>,
                          first: seq<Option<string>>, rest: seq<Option<string>>)
    requires Rewrites(policy, s, a, s.open + first)
    requires var mid := Reread(policy, s, a); Rewrites(policy, mid, b, mid.open + rest)
    ensures Rewrites(policy, s, a + b, s.open + (first + rest))
  {
    OpenAssoc(s.open, first, rest);
    RewritesBoth(policy, s, a, b, s.open + (first + rest));
  }

  /** The same of an element, which leaves its own frame if it is void. */
  lemma FlatElementIsKept(policy: Policy, s: State, c: Clean)
    requires c.CleanElement? && IsSettledTag(policy, c.tag, c.attrs) && IsFlat(c)
    requires var begun := State(s.pieces + [Open(c.tag, c.attrs)], s.open + [Some(c.tag)]);
             Rewrites(policy, begun, SerializeAll(c.children), begun.open + OpenVoids(c.children))
    ensures Rewrites(policy, s, Serialize(c), s.open + OpenVoidsOf(c))
  {
    var voids := OpenVoids(c.children);
    ElementIsKept(policy, s, c, voids);
    if c.tag in VOID_TAGS {
      OpenAssoc(s.open, [Some(c.tag)], voids);
    } else {
      OpenNothing(s.open);
    }
  }

  /** A flat tree is written as it is read, and leaves its open void elements on the stack. */
  lemma {:induction false} FlatIsKept(policy: Policy, s: State, c: Clean)
    requires IsSettled(policy, c) && IsFlat(c)
    ensures Rewrites(policy, s, Serialize(c), s.open + OpenVoidsOf(c))
    decreases c, 1
  {
    if c.CleanElement? {
      AllFlatAreKept(policy, State(s.pieces + [Open(c.tag, c.attrs)], s.open + [Some(c.tag)]), c.children);
      FlatElementIsKept(policy, s, c);
    } else {
      LeafIsKept(policy, s, c);
      OpenNothing(s.open);
    }
  }

  lemma NothingIsKept(policy: Policy, s: State)
    ensures Rewrites(policy, s, [], s.open + [])
  {
    OpenNothing(s.open);
  }

  lemma {:induction false} AllFlatAreKept(policy: Policy, s: State, cs: seq<Clean>)
    requires AreSettled(policy, cs) && AreFlat(cs)
    ensures Rewrites(policy, s, SerializeAll(cs), s.open + OpenVoids(cs))
    decreases cs, 0
  {
    if cs == [] {
      NothingIsKept(policy, s);
    } else {
      FlatIsKept(policy, s, cs[0]);
      AllFlatAreKept(policy, Reread(policy, s, Serialize(cs[0])), cs[1..]);
      NeighboursAreKept(policy, s, Serialize(cs[0]), SerializeAll(cs[1..]), OpenVoidsOf(cs[0]), OpenVoids(cs[1..]));
    }
  }

  // ----- What a second pass loses

  /** Whatever the state, no more than the pieces is written. */
  ghost predicate NoMore(policy: Policy, s: State, pieces: seq<Piece>) {
    |RenderAll(Reread(policy, s, pieces).pieces)| <= |RenderAll(s.pieces)| + |RenderAll(pieces)|
  }

  lemma NoMoreBoth(policy: Policy, s: State, a: seq<Piece>, b: seq<Piece>)
    requires var mid := Reread(policy, s, a); NoMore(policy, s, a) && NoMore(policy, mid, b)
    ensures NoMore(policy, s, a + b)
    ensures Loses(policy, s, a) || Loses(policy, Reread(policy, s, a), b) ==> Loses(policy, s, a + b)
  {
    RereadAppend(policy, s, a, b);
    RenderAppend(a, b);
  }

  lemma EndIsNoMore(policy: Policy, s: State, tag: string)
    requires Lower(tag) == tag && tag !in VOID_TAGS
    ensures NoMore(policy, s, [Close(tag)])
  {
    RenderOne(Close(tag));
    if s.open == [] {
      EventsOfOne(Close(tag));
      RunOne(policy, s, EndTag(tag));
    } else {
      EndIsRead(policy, s, tag);
      WroteOne(s, Close(tag), s.open[..|s.open| - 1]);
    }
  }

  lemma {:induction false} TreeIsNoMore(policy: Policy, s: State, c: Clean)
    requires IsSettled(policy, c)
    ensures NoMore(policy, s, Serialize(c))
    decreases c, 1
  {
    if c.CleanElement? {
      var begun := State(s.pieces + [Open(c.tag, c.attrs)], s.open + [Some(c.tag)]);
      TreesAreNoMore(policy, begun, c.children);
      ElementIsNoMore(policy, s, c);
    } else {
      LeafIsKept(policy, s, c);
    }
  }

  /** An element writes no more than its pieces if its children do, and loses what they lose. */
  lemma ElementIsNoMore(policy: Policy, s: State, c: Clean)
    requires c.CleanElement? && IsSettledTag(policy, c.tag, c.attrs)
    requires NoMore(policy, State(s.pieces + [Open(c.tag, c.attrs)], s.open + [Some(c.tag)]), SerializeAll(c.children))
    ensures NoMore(policy, s, Serialize(c))
    ensures Loses(policy, State(s.pieces + [Open(c.tag, c.attrs)], s.open + [Some(c.tag)]),
                  SerializeAll(c.children)) ==>
            Loses(policy, s, Serialize(c))
  {
    ElementPieces(c);
    StartIsKept(policy, s, c.tag, c.attrs);
    NoMoreBoth(policy, s, [Open(c.tag, c.attrs)], SerializeAll(c.children));
    if c.tag !in VOID_TAGS {
      var inner := [Open(c.tag, c.attrs)] + SerializeAll(c.children);
      SettledTagIsLower(policy, c.tag, c.attrs);
      EndIsNoMore(policy, Reread(policy, s, inner), c.tag);
      NoMoreBoth(policy, s, inner, [Close(c.tag)]);
    }
  }

  lemma {:induction false} TreesAreNoMore(policy: Policy, s: State, cs: seq<Clean>)
    requires AreSettled(policy, cs)
    ensures NoMore(policy, s, SerializeAll(cs))
    decreases cs, 0
  {
    if cs != [] {
      TreeIsNoMore(policy, s, cs[0]);
      TreesAreNoMore(policy, Reread(policy, s, Serialize(cs[0])), cs[1..]);
      NoMoreBoth(policy, s, Serialize(cs[0]), SerializeAll(cs[1..]));
    }
  }

  /** An open void element below an element takes the place of its end tag, which is lost. */
  lemma VoidSwallowsEnd(policy: Policy, s: State, c: Clean)
    requires c.CleanElement? && c.tag !in VOID_TAGS && IsSettled(policy, c)
    requires AreFlat(c.children) && OpenVoids(c.children) != []
    ensures Loses(policy, s, Serialize(c))
  {
    var inner, voids := [Open(c.tag, c.attrs)] + SerializeAll(c.children), OpenVoids(c.children);
    var open := s.open + [Some(c.tag)] + voids;
    AllFlatAreKept(policy, State(s.pieces + [Open(c.tag, c.attrs)], s.open + [Some(c.tag)]), c.children);
    InnerIsKept(policy, s, c.tag, c.attrs, SerializeAll(c.children), open);
    SettledTagIsLower(policy, c.tag, c.attrs);
    assert open[|open| - 1] == voids[|voids| - 1] && voids[|voids| - 1] in voids;
    EndIsLost(policy, Reread(policy, s, inner), c.tag);
    EndIsNoMore(policy, Reread(policy, s, inner), c.tag);
    NoMoreBoth(policy, s, inner, [Close(c.tag)]);
    ElementPieces(c);
  }

  lemma {:induction false} NotFlatLoses(policy: Policy, s: State, c: Clean)
    requires IsSettled(policy, c) && !IsFlat(c)
    ensures Loses(policy, s, Serialize(c))
    decreases c, 1
  {
    var begun := State(s.pieces + [Open(c.tag, c.attrs)], s.open + [Some(c.tag)]);
    if AreFlat(c.children) {
      VoidSwallowsEnd(policy, s, c);
    } else {
      TreesAreNoMore(policy, begun, c.children);
      NotAllFlatLose(policy, begun, c.children);
      ElementIsNoMore(policy, s, c);
    }
  }

  lemma {:induction false} NotAllFlatLose(policy: Policy, s: State, cs: seq<Clean>)
    requires AreSettled(policy, cs) && !AreFlat(cs)
    ensures Loses(policy, s, SerializeAll(cs))
    decreases cs, 0
  {
    var mid := Reread(policy, s, Serialize(cs[0]));
    TreeIsNoMore(policy, s, cs[0]);
    TreesAreNoMore(policy, mid, cs[1..]);
    NoMoreBoth(policy, s, Serialize(cs[0]), SerializeAll(cs[1..]));
    if !IsFlat(cs[0]) {
      NotFlatLoses(policy, s, cs[0]);
    } else {
      NotAllFlatLose(policy, mid, cs[1..]);
    }
  }

  // ----- The law

  /** The output, as text, of the sanitizer on what it has written itself. */
  function SanitizedAgain(policy: Policy, written: seq<Piece>): string {
    RenderAll(Sanitized(policy, AllEventsOf(written)))
  }

  /** Sanitizing the output again gives the same text exactly if the pruned document has no void
      element below one that is not void. Otherwise the text gets shorter. */
  lemma SanitizingTwice(policy: Policy, doc: seq<Node>)
    requires Regular(policy)
    ensures var once := Sanitized(policy, AllEvents(doc));
            && (SanitizedAgain(policy, once) == RenderAll(once) <==> AreFlat(PruneAll(policy, doc)))
            && |SanitizedAgain(policy, once)| <= |RenderAll(once)|
  {
    var cs, s := PruneAll(policy, doc), State([], []);
    SanitizerPrunes(policy, doc);
    AllPrunedAreSettled(policy, doc);
    TreesAreNoMore(policy, s, cs);
    if AreFlat(cs) {
      AllFlatAreKept(policy, s, cs);
    } else {
      NotAllFlatLose(policy, s, cs);
    }
  }

  const PARAGRAPH: seq<Piece> := [Open("p", []), Open("br", []), Close("p")]

  lemma ParagraphIsWritten(policy: Policy)
    requires "p" in policy.allowedTags && "br" in policy.allowedTags
    ensures Sanitized(policy, AllEvents([Element("p", [], [Element("br", [], [])])])) == PARAGRAPH
  {
    var br := Element("br", [], []);
    assert Lower("p") == "p" && Lower("br") == "br";
    assert [br][1..] == [] && PruneAll(policy, []) == [];
    var cleanBr := CleanElement("br", [], []);
    assert Prune(policy, br) == [cleanBr];
    assert PruneAll(policy, [br]) == [cleanBr];
    var p := Element("p", [], [br]);
    assert [p][1..] == [];
    SanitizerPrunes(policy, [p]);
    SerializeOne(cleanBr);
    SerializeOne(CleanElement("p", [], [cleanBr]));
  }

  lemma ParagraphIsReread(policy: Policy)
    requires "p" in policy.allowedTags && "br" in policy.allowedTags
    ensures Sanitized(policy, AllEventsOf(PARAGRAPH)) == [Open("p", []), Open("br", [])]
  {
    var s, p, br := State([], []), Open("p", []), Open("br", []);
    var t, u := State([p], [Some("p")]), State([p, br], [Some("p"), Some("br")]);
    assert Lower("p") == "p" && Lower("br") == "br" && EmbedAttrs([]) == [] && "p" !in VOID_TAGS;
    StartIsKept(policy, s, "p", []);
    assert Reread(policy, s, [p]) == t;
    StartIsKept(policy, t, "br", []);
    assert Reread(policy, t, [br]) == u;
    EndIsRead(policy, u, "p");
    assert Reread(policy, u, [Close("p")]).pieces == [p, br];
    RereadAppend(policy, s, [p], [br]);
    RereadAppend(policy, s, [p] + [br], [Close("p")]);
    assert PARAGRAPH == ([p] + [br]) + [Close("p")];
  }

  lemma ShortTags()
    ensures Render(Open("p", [])) == "<p>" && Render(Open("br", [])) == "<br>" && Render(Close("p")) == "</p>"
  {
  }

  lemma ParagraphIsRendered()
    ensures RenderAll([Open("p", []), Open("br", [])]) == "<p><br>"
    ensures RenderAll(PARAGRAPH) == "<p><br></p>"
  {
    var p, br, end := Open("p", []), Open("br", []), Close("p");
    ShortTags();
    RenderPair(p, br);
    RenderSnoc([p, br], end);
    assert [p, br] + [end] == PARAGRAPH;
  }

  /** A line break in a paragraph: the second pass loses the end tag of the paragraph. */
  lemma LineBreakInParagraph(policy: Policy)
    requires "p" in policy.allowedTags && "br" in policy.allowedTags
    ensures var once := Sanitized(policy, AllEvents([Element("p", [], [Element("br", [], [])])]));
            RenderAll(once) == "<p><br></p>" && SanitizedAgain(policy, once) == "<p><br>"
  {
    ParagraphIsWritten(policy);
    ParagraphIsReread(policy);
    ParagraphIsRendered();
  }
}
