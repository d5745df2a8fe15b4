/** The allowlist sanitizer for rendered HTML: an event-driven machine with a stack of open tags. */
module Sanitizer {
  import opened Options
  import opened PyText
  import opened Html

  datatype Attr = Attr(name: string, value: Option<string>)

  /** What the HTML tokenizer reports. Comments, declarations and processing instructions
      reach no handler of the sanitizer. */
  datatype Event =
    | StartTag(tag: string, attrs: seq<Attr>)
    | EndTag(tag: string)
    | StartEndTag(tag: string, attrs: seq<Attr>)
    | Data(text: string)
    | EntityRef(name: string)
    | NumericRef(name: string)
    | Unhandled

  /** The constructor arguments, and the two value checks, which `StandardPolicy` and
      `ExcerptPolicy` fill with the ones in use: is a stripped attribute value fit for its
      name, and is a source a video player. */
  datatype Policy = Policy(
    allowedTags: set<string>,
    globalAttrs: set<string>,
    tagAttrs: map<string, set<string>>,
    booleanAttrs: set<string>,
    allowIframes: bool,
    fits: (string, string) -> bool,
    isVideo: string -> bool)

  const BOOLEAN_ATTRS: set<string> := {"checked", "disabled", "open"}

  const ALLOWED_TAGS: set<string> := {
    "a", "blockquote", "br", "code", "dd", "del", "details", "div", "dl", "dt", "em", "figcaption", "figure",
    "h1", "h2", "h3", "h4", "h5", "h6", "hr", "img", "input", "kbd", "li", "mark", "ol", "p", "pre", "samp",
    "section", "span", "strong", "sub", "sup", "summary", "table", "tbody", "td", "th", "thead", "tr", "u",
    "ul", "var"}

  const GLOBAL_ALLOWED_ATTRS: set<string> := {"class", "id"}

  const TAG_ALLOWED_ATTRS: map<string, set<string>> := map[
    "a" := {"href", "title"},
    "details" := {"open"},
    "img" := {"alt", "src", "title"},
    "input" := {"type", "checked", "disabled"},
    "td" := {"colspan", "rowspan", "style"},
    "th" := {"colspan", "rowspan", "style"}]

  /** The policy for posts and pages. `scheme` stands for the scheme that URL parsing finds. */
  function StandardPolicy(scheme: string -> string): Policy {
    Policy(ALLOWED_TAGS, GLOBAL_ALLOWED_ATTRS, TAG_ALLOWED_ATTRS, BOOLEAN_ATTRS, true,
           (name, value) => Fits(scheme, name, value), src => IsYouTubeSrc(src))
  }

  /** The policy for excerpts. */
  function ExcerptPolicy(scheme: string -> string): Policy {
    var tags := ALLOWED_TAGS - {"img", "input"};
    Policy(tags, GLOBAL_ALLOWED_ATTRS, map t | t in TAG_ALLOWED_ATTRS && t in tags :: TAG_ALLOWED_ATTRS[t],
           BOOLEAN_ATTRS, false,
           (name, value) => Fits(scheme, name, value), src => IsYouTubeSrc(src))
  }

  // ----- Attribute values

  predicate IsLetter(c: char) { 'a' <= c <= 'z' || 'A' <= c <= 'Z' }

  predicate IsDigit(c: char) { '0' <= c <= '9' }

  predicate IsIdChar(c: char) { IsLetter(c) || IsDigit(c) || c in ":_-" }

  predicate IsSafeId(v: string) {
    v != "" && IsLetter(v[0]) && forall c <- v[1..] :: IsIdChar(c)
  }

  predicate IsSafeStyle(v: string) {
    && StartsWith(v, "text-align:")
    && var rest := LStrip(v[|"text-align:"|..]);
    && exists w <- ["left", "center", "right", "justify"] :: StartsWith(rest, w) && EndsStyle(rest[|w|..])
  }

  /** What may follow the word: whitespace, perhaps around one semicolon. */
  predicate EndsStyle(s: string) {
    var tail := LStrip(s);
    LStrip(if StartsWith(tail, ";") then tail[1..] else tail) == ""
  }

  predicate IsVideoIdChar(c: char) { IsLetter(c) || IsDigit(c) || c in "_-" }

  predicate IsQueryChar(c: char) { IsLetter(c) || IsDigit(c) || c in "_=&%-" }

  predicate IsVideoPath(s: string) {
    && |s| >= 11
    && (forall c <- s[..11] :: IsVideoIdChar(c))
    && (|s| == 11 || (s[11] == '?' && forall c <- s[12..] :: IsQueryChar(c)))
  }

  predicate IsYouTubeSrc(src: string) {
    exists prefix <- ["https://www.youtube.com/embed/", "https://www.youtube.com/shorts/",
                      "https://www.youtube-nocookie.com/embed/"] ::
      StartsWith(src, prefix) && IsVideoPath(src[|prefix|..])
  }

  /** A leading `/` is accepted before a leading `//` is looked at, as in the source. */
  predicate IsSafeUrl(scheme: string -> string, url: string, allowNonHttp: bool) {
    var value := Strip(url);
    if value == "" then false
    else if StartsWith(value, "#") || StartsWith(value, "/") || StartsWith(value, "./") || StartsWith(value, "../") then
        true
    else if StartsWith(value, "//") then false
    else
      var found := scheme(value);
      found == "" || Lower(found) in (if allowNonHttp then {"http", "https", "mailto", "tel"} else {"http", "https"})
  }

  /** The checks on the values of four attributes; the other values are not restricted. */
  predicate Fits(scheme: string -> string, name: string, value: string) {
    && (name == "href" ==> IsSafeUrl(scheme, value, true))
    && (name == "src" ==> IsSafeUrl(scheme, value, false))
    && (name == "id" ==> IsSafeId(value))
    && (name == "style" ==> IsSafeStyle(value))
  }

  function AllowedAttrs(policy: Policy, tag: string): set<string> {
    policy.globalAttrs + if tag in policy.tagAttrs then policy.tagAttrs[tag] else {}
  }

  /** What may stand in the output: an allowed name with a harmless value. */
  predicate IsHarmless(policy: Policy, tag: string, a: SafeAttr) {
    && a.name in AllowedAttrs(policy, tag)
    && (|| (IsStripped(a.value) && policy.fits(a.name, a.value))
        || (a.value == a.name && a.name in policy.booleanAttrs))
  }

  function FilterAttr(policy: Policy, tag: string, a: Attr): (r: Option<SafeAttr>)
  {
    var name := Lower(a.name);
    if name !in AllowedAttrs(policy, tag) then None
    else if a.value.None? then
      if name in policy.booleanAttrs then Some(SafeAttr(name, name)) else None
    else
      var value := Strip(a.value.value);
      if !policy.fits(name, value) then None
      else Some(SafeAttr(name, value))
  }

  function FilterAttrs(policy: Policy, tag: string, attrs: seq<Attr>): seq<SafeAttr> {
    if attrs == [] then []
    else
      var front := FilterAttrs(policy, tag, attrs[..|attrs| - 1]);
      var last := FilterAttr(policy, tag, attrs[|attrs| - 1]);
      if last.Some? then front + [last.value] else front
  }

  /** Every attribute that is let through is harmless and was asked for by the input. */
  lemma {:induction false} FilterAttrsSound(policy: Policy, tag: string, attrs: seq<Attr>)
    ensures forall a <- FilterAttrs(policy, tag, attrs) :: IsHarmless(policy, tag, a)
    ensures forall a <- FilterAttrs(policy, tag, attrs) :: exists b <- attrs :: Lower(b.name) == a.name
  {
    if attrs != [] {
      var front, last := attrs[..|attrs| - 1], attrs[|attrs| - 1];
      FilterAttrsSound(policy, tag, front);
      FilterAttrSound(policy, tag, last);
      forall a | a in FilterAttrs(policy, tag, attrs) ensures exists b <- attrs :: Lower(b.name) == a.name {
        if a in FilterAttrs(policy, tag, front) {
          var b :| b in front && Lower(b.name) == a.name;
          assert b in attrs;
        } else {
          assert last in attrs;
        }
      }
    }
  }

  lemma FilterAttrSound(policy: Policy, tag: string, a: Attr)
    ensures var r := FilterAttr(policy, tag, a);
            r.Some? ==> IsHarmless(policy, tag, r.value) && r.value.name == Lower(a.name)
  {
    var r := FilterAttr(policy, tag, a);
    if a.value.Some? && r.Some? {
      StripIsStripped(a.value.value);
      assert r.value.name in AllowedAttrs(policy, tag);
      assert IsStripped(r.value.value) && policy.fits(r.value.name, r.value.value);
    }
  }

  /** A harmless attribute is let through as it is. */
  lemma HarmlessPasses(policy: Policy, tag: string, a: SafeAttr)
    requires a.name in AllowedAttrs(policy, tag) && Lower(a.name) == a.name
    requires IsStripped(a.value) && policy.fits(a.name, a.value)
    ensures FilterAttr(policy, tag, Attr(a.name, Some(a.value))) == Some(a)
  {
    StripFacts(a.value);
  }

  /** The branch that would refuse a leading `//` is never taken: such a value counts as safe, whatever the
      scheme found in it and whichever schemes are allowed. */
  lemma DoubleSlashIsSafe(scheme: string -> string, url: string, allowNonHttp: bool)
    requires StartsWith(Strip(url), "//")
    ensures IsSafeUrl(scheme, url, allowNonHttp)
  {
    assert Strip(url)[0] == "//"[0] == '/';
    assert StartsWith(Strip(url), "/");
  }

  /** The filter of either policy lets it through, stripped. */
  lemma DoubleSlashPasses(policy: Policy, scheme: string -> string, tag: string, name: string, value: string)
    requires policy == StandardPolicy(scheme) || policy == ExcerptPolicy(scheme)
    requires name == "href" || name == "src"
    requires name in AllowedAttrs(policy, tag) && StartsWith(Strip(value), "//")
    ensures FilterAttr(policy, tag, Attr(name, Some(value))) == Some(SafeAttr(name, Strip(value)))
  {
    StripFacts(value);
    DoubleSlashIsSafe(scheme, Strip(value), name == "href");
    OnlyUrlIsChecked(scheme, name, Strip(value));
    assert policy.fits(name, Strip(value)) == Fits(scheme, name, Strip(value));
    LinkNamesAreLower(name);
  }

  lemma OnlyUrlIsChecked(scheme: string -> string, name: string, value: string)
    requires (name == "href" || name == "src") && IsSafeUrl(scheme, value, name == "href")
    ensures Fits(scheme, name, value)
  {
    assert "href"[0] == 'h' && "src"[0] == 's' && "src"[1] == 'r' && "id"[0] == 'i' && "style"[1] == 't';
  }

  lemma LinkNamesAreLower(name: string)
    requires name == "href" || name == "src"
    ensures Lower(name) == name
  {
  }

  // ----- Iframes

  /** The first `src` attribute that has a value. */
  function IframeSrc(attrs: seq<Attr>): Option<string> {
    if attrs == [] then None
    else if Lower(attrs[0].name) == "src" && attrs[0].value.Some? then Some(Strip(attrs[0].value.value))
    else IframeSrc(attrs[1..])
  }

  function IframeAttrs(src: string): seq<SafeAttr> {
    [SafeAttr("src", src),
     SafeAttr("sandbox", "allow-scripts allow-same-origin allow-popups allow-popups-to-escape-sandbox"),
     SafeAttr("allowfullscreen", "allowfullscreen"),
     SafeAttr("referrerpolicy", "origin"),
     SafeAttr("loading", "lazy")]
  }

  const NOTICE_TEXT := "[Iframe not allowed:" + " only YouTube video" + " embeds are supported]"

  const NOTICE_HTML := "<p><em>" + NOTICE_TEXT + "</em></p>"

  const NOTICE: seq<Piece> := 
    [Open("p", []), Open("em", [])] + [Text(NOTICE_TEXT)] + [Close("em"), Close("p")]

  // ----- The machine

  /** The output so far and the open tags, innermost last; `None` marks a tag that was left out. */
  datatype State = State(pieces: seq<Piece>, open: seq<Option<string>>)

  function Iframe(policy: Policy, s: State, attrs: seq<Attr>, selfClosing: bool): State {
    if !policy.allowIframes then
      if selfClosing then s else s.(open := s.open + [None])
    else
      var src := IframeSrc(attrs);
      if src.None? || !policy.isVideo(src.value) then
        State(s.pieces + NOTICE, if selfClosing then s.open else s.open + [None])
      else if selfClosing then
        s.(pieces := s.pieces + [Open("iframe", IframeAttrs(src.value)), Close("iframe")])
      else
        State(s.pieces + [Open("iframe", IframeAttrs(src.value))], s.open + [Some("iframe")])
  }

  function Step(policy: Policy, s: State, event: Event): State {
    match event
    case StartTag(tag, attrs) =>
      var name := Lower(tag);
      if name == "iframe" then Iframe(policy, s, attrs, false)
      else if name !in policy.allowedTags then s.(open := s.open + [None])
      else State(s.pieces + [Open(name, FilterAttrs(policy, name, attrs))], s.open + [Some(name)])
    case EndTag(tag) =>
      var name := Lower(tag);
      if s.open == [] then s
      else
        var top := s.open[|s.open| - 1];
        var rest := s.open[..|s.open| - 1];
        if top == Some(name) && name !in VOID_TAGS then State(s.pieces + [Close(name)], rest)
        else s.(open := rest)
    case StartEndTag(tag, attrs) =>
      var name := Lower(tag);
      if name == "iframe" then Iframe(policy, s, attrs, true)
      else if name !in policy.allowedTags then s
      else s.(pieces := s.pieces + [SelfClosed(name, FilterAttrs(policy, name, attrs))])
    case Data(text) => s.(pieces := s.pieces + [Text(text)])
    case EntityRef(name) => s.(pieces := s.pieces + [Entity(name)])
    case NumericRef(name) => s.(pieces := s.pieces + [CharRef(name)])
    case Unhandled => s
  }

  function Run(policy: Policy, s: State, events: seq<Event>): State
    decreases |events|
  {
    if events == [] then s else Run(policy, Step(policy, s, events[0]), events[1..])
  }

  /** The sanitizer's output for a document. */
  function Sanitized(policy: Policy, events: seq<Event>): seq<Piece> {
    Run(policy, State([], []), events).pieces
  }

  lemma {:induction false} RunAppend(policy: Policy, s: State, a: seq<Event>, b: seq<Event>)
    ensures Run(policy, s, a + b) == Run(policy, Run(policy, s, a), b)
    decreases |a|
  {
    if a == [] {
      assert a + b == b;
    } else {
      assert (a + b)[0] == a[0] && (a + b)[1..] == a[1..] + b;
      RunAppend(policy, Step(policy, s, a[0]), a[1..], b);
    }
  }

  lemma RunOne(policy: Policy, s: State, event: Event)
    ensures Run(policy, s, [event]) == Step(policy, s, event)
  {
    assert [event][1..] == [];
  }

  lemma RunPrefix(policy: Policy, s: State, events: seq<Event>, i: nat)
    requires i < |events|
    ensures Run(policy, s, events[..i + 1]) == Step(policy, Run(policy, s, events[..i]), events[i])
  {
    assert events[..i + 1] == events[..i] + [events[i]];
    RunAppend(policy, s, events[..i], [events[i]]);
    RunOne(policy, Run(policy, s, events[..i]), events[i]);
  }

  // ----- What may be written, whatever the events

  predicate IsPermitted(policy: Policy, p: Piece) {
    match p
    case Open(tag, attrs) =>
      || (tag in policy.allowedTags && forall a <- attrs :: IsHarmless(policy, tag, a))
      || (tag == "iframe" && policy.allowIframes && attrs != []
          && policy.isVideo(attrs[0].value) && attrs == IframeAttrs(attrs[0].value))
      || (tag in {"p", "em"} && policy.allowIframes && attrs == [])
    case SelfClosed(tag, attrs) => tag in policy.allowedTags && forall a <- attrs :: IsHarmless(policy, tag, a)
    case _ => true
  }

  lemma IframePermitted(policy: Policy, s: State, attrs: seq<Attr>, selfClosing: bool)
    requires forall p <- s.pieces :: IsPermitted(policy, p)
    ensures forall p <- Iframe(policy, s, attrs, selfClosing).pieces :: IsPermitted(policy, p)
  {
    var src := IframeSrc(attrs);
    if src.Some? && policy.isVideo(src.value) && policy.allowIframes {
      assert IsPermitted(policy, Open("iframe", IframeAttrs(src.value)));
    }
  }

  lemma StepPermitted(policy: Policy, s: State, event: Event)
    requires forall p <- s.pieces :: IsPermitted(policy, p)
    ensures forall p <- Step(policy, s, event).pieces :: IsPermitted(policy, p)
  {
    if event.StartTag? || event.StartEndTag? {
      if Lower(event.tag) == "iframe" {
        IframePermitted(policy, s, event.attrs, event.StartEndTag?);
      } else {
        FilterAttrsSound(policy, Lower(event.tag), event.attrs);
      }
    }
  }

  lemma {:induction false} RunPermitted(policy: Policy, s: State, events: seq<Event>)
    requires forall p <- s.pieces :: IsPermitted(policy, p)
    ensures forall p <- Run(policy, s, events).pieces :: IsPermitted(policy, p)
    decreases |events|
  {
    if events != [] {
      StepPermitted(policy, s, events[0]);
      RunPermitted(policy, Step(policy, s, events[0]), events[1..]);
    }
  }

  /** For every event sequence: each tag of the output is allowed, each of its attributes is allowed
      for that tag and has a harmless value, and an iframe is a YouTube player with the fixed
      attributes. */
  lemma OutputPermitted(policy: Policy, events: seq<Event>)
    ensures forall p <- Sanitized(policy, events) :: IsPermitted(policy, p)
  {
    RunPermitted(policy, State([], []), events);
  }

  // ----- The handlers

  lemma NoticeIsPlain()
    ensures NeedsNoEscape(NOTICE_TEXT)
  {
    PlainFirst();
    PlainSecond();
    PlainThird();
    PlainAppend("[Iframe not allowed:", " only YouTube video");
    PlainAppend("[Iframe not allowed:" + " only YouTube video", " embeds are supported]");
  }

  lemma PlainFirst()
    ensures NeedsNoEscape("[Iframe not allowed:")
  {
    PlainAppend("[Iframe ", "not allowed:");
    assert "[Iframe " + "not allowed:" == "[Iframe not allowed:";
  }

  lemma PlainSecond()
    ensures NeedsNoEscape(" only YouTube video")
  {
  }

  lemma PlainThird()
    ensures NeedsNoEscape(" embeds are supported]")
  {
  }

  lemma PlainAppend(a: string, b: string)
    requires NeedsNoEscape(a) && NeedsNoEscape(b)
    ensures NeedsNoEscape(a + b)
  {
  }

  lemma RenderNotice()
    ensures RenderAll(NOTICE) == NOTICE_HTML
  {
    NoticeIsPlain();
    EscapeIdentity(NOTICE_TEXT);
    RenderAppend([Open("p", []), Open("em", [])] + [Text(NOTICE_TEXT)], [Close("em"), Close("p")]);
    RenderAppend([Open("p", []), Open("em", [])], [Text(NOTICE_TEXT)]);
    RenderNoticeTags();
    RenderOne(Text(NOTICE_TEXT));
  }

  lemma RenderNoticeTags()
    ensures RenderAll([Open("p", []), Open("em", [])]) == "<p><em>"
    ensures RenderAll([Close("em"), Close("p")]) == "</em></p>"
  {
    RenderPair(Open("p", []), Open("em", []));
    RenderPair(Close("em"), Close("p"));
    StartTagsOfNotice();
    EndTagsOfNotice();
  }

  lemma StartTagsOfNotice()
    ensures Render(Open("p", [])) == "<p>" && Render(Open("em", [])) == "<em>"
  {
  }

  lemma EndTagsOfNotice()
    ensures Render(Close("em")) == "</em>" && Render(Close("p")) == "</p>"
  {
  }

  lemma RenderOne(a: Piece)
    ensures RenderAll([a]) == Render(a)
  {
    assert RenderAll([]) == "";
    RenderSnoc([], a);
    assert [] + [a] == [a];
  }

  lemma RenderPair(a: Piece, b: Piece)
    ensures RenderAll([a, b]) == Render(a) + Render(b)
  {
    RenderOne(a);
    RenderSnoc([a], b);
    assert [a] + [b] == [a, b];
  }
}
