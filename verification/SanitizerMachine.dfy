/** The sanitizer object: handlers that append strings to the output and keep a stack of open tags. */
module SanitizerMachine {
  import opened Options
  import opened PyText
  import opened Html
  import opened Sanitizer

  class HtmlSanitizer {
    const policy: Policy
    var parts: seq<string>
    var openTags: seq<Option<string>>
    ghost var pieces: seq<Piece>

    /** The strings written so far are the rendering of the pieces. */
    ghost predicate Valid()
      reads this
    {
      Concat(parts) == RenderAll(pieces)
    }

    ghost function View(): State
      reads this
    {
      State(pieces, openTags)
    }

    constructor (policy: Policy)
      ensures Valid() && View() == State([], []) && this.policy == policy
    {
      this.policy := policy;
      parts, openTags, pieces := [], [], [];
    }

    /** Appends one string that renders `more`. */
    method Append(part: string, ghost more: seq<Piece>)
      requires Valid() && part == RenderAll(more)
      modifies `parts, `pieces
      ensures Valid() && pieces == old(pieces) + more
    {
      ConcatSnoc(parts, part);
      RenderAppend(pieces, more);
      parts := parts + [part];
      pieces := pieces + more;
    }

    method HandleStartTag(tag: string, attrs: seq<Attr>)
      requires Valid()
      modifies this
      ensures Valid() && View() == Step(policy, old(View()), StartTag(tag, attrs))
    {
      var tagName := Lower(tag);
      if tagName == "iframe" {
        HandleIframe(attrs, false);
        return;
      }
      if tagName !in policy.allowedTags {
        openTags := openTags + [None];
        return;
      }
      var rendered := SanitizeAttrs(tagName, attrs);
      RenderOne(Open(tagName, rendered));
      Append("<" + tagName + RenderAttrs(rendered) + ">", [Open(tagName, rendered)]);
      openTags := openTags + [Some(tagName)];
    }

    method HandleEndTag(tag: string)
      requires Valid()
      modifies this
      ensures Valid() && View() == Step(policy, old(View()), EndTag(tag))
    {
      var tagName := Lower(tag);
      if openTags == [] {
        return;
      }
      var openTag := openTags[|openTags| - 1];
      openTags := openTags[..|openTags| - 1];
      if openTag == Some(tagName) && tagName !in VOID_TAGS {
        RenderOne(Close(tagName));
        Append("</" + tagName + ">", [Close(tagName)]);
      }
    }

    method HandleStartEndTag(tag: string, attrs: seq<Attr>)
      requires Valid()
      modifies this
      ensures Valid() && View() == Step(policy, old(View()), StartEndTag(tag, attrs))
    {
      var tagName := Lower(tag);
      if tagName == "iframe" {
        HandleIframe(attrs, true);
        return;
      }
      if tagName !in policy.allowedTags {
        return;
      }
      var rendered := SanitizeAttrs(tagName, attrs);
      RenderOne(SelfClosed(tagName, rendered));
      Append("<" + tagName + RenderAttrs(rendered) + " />", [SelfClosed(tagName, rendered)]);
    }

    method HandleData(data: string)
      requires Valid()
      modifies this
      ensures Valid() && View() == Step(policy, old(View()), Data(data))
    {
      RenderOne(Text(data));
      Append(Escape(data), [Text(data)]);
    }

    method HandleEntityRef(name: string)
      requires Valid()
      modifies this
      ensures Valid() && View() == Step(policy, old(View()), EntityRef(name))
    {
      RenderOne(Entity(name));
      Append("&" + name + ";", [Entity(name)]);
    }

    method HandleCharRef(name: string)
      requires Valid()
      modifies this
      ensures Valid() && View() == Step(policy, old(View()), NumericRef(name))
    {
      RenderOne(CharRef(name));
      Append("&#" + name + ";", [CharRef(name)]);
    }

    method SanitizeAttrs(tagName: string, attrs: seq<Attr>) returns (sanitized: seq<SafeAttr>)
      ensures sanitized == FilterAttrs(policy, tagName, attrs)
    {
      sanitized := [];
      for i := 0 to |attrs|
        invariant sanitized == FilterAttrs(policy, tagName, attrs[..i])
      {
        assert attrs[..i + 1][..i] == attrs[..i];
        var kept := FilterAttr(policy, tagName, attrs[i]);
        if kept.Some? {
          sanitized := sanitized + [kept.value];
        }
      }
      assert attrs[..|attrs|] == attrs;
    }

    method HandleIframe(attrs: seq<Attr>, selfClosing: bool)
      requires Valid()
      modifies this
      ensures Valid() && View() == Iframe(policy, old(View()), attrs, selfClosing)
    {
      if !policy.allowIframes {
        if !selfClosing {
          openTags := openTags + [None];
        }
        return;
      }
      var src := FindSrc(attrs);
      if src.None? || !policy.isVideo(src.value) {
        RenderNotice();
        Append(NOTICE_HTML, NOTICE);
        if !selfClosing {
          openTags := openTags + [None];
        }
        return;
      }
      AppendPlayer(src.value, selfClosing);
      if !selfClosing {
        openTags := openTags + [Some("iframe")];
      }
    }

    method AppendPlayer(src: string, selfClosing: bool)
      requires Valid()
      modifies `parts, `pieces
      ensures Valid()
      ensures pieces == old(pieces) + if selfClosing then [Open("iframe", IframeAttrs(src)), Close("iframe")]
                                      else [Open("iframe", IframeAttrs(src))]
    {
      var player := Open("iframe", IframeAttrs(src));
      var iframeHtml := "<" + "iframe" + RenderAttrs(IframeAttrs(src)) + ">";
      if selfClosing {
        RenderPair(player, Close("iframe"));
        assert Render(Close("iframe")) == "</iframe>";
        Append(iframeHtml + "</iframe>", [player, Close("iframe")]);
      } else {
        RenderOne(player);
        Append(iframeHtml, [player]);
      }
    }

    method FindSrc(attrs: seq<Attr>) returns (src: Option<string>)
      ensures src == IframeSrc(attrs)
    {
      src := None;
      for i := 0 to |attrs|
        invariant src == None && IframeSrc(attrs) == IframeSrc(attrs[i..])
      {
        if Lower(attrs[i].name) == "src" && attrs[i].value.Some? {
          src := Some(Strip(attrs[i].value.value));
          break;
        }
      }
    }

    method Handle(event: Event)
      requires Valid()
      modifies this
      ensures Valid() && View() == Step(policy, old(View()), event)
    {
      match event
      case StartTag(tag, attrs) => HandleStartTag(tag, attrs);
      case EndTag(tag) => HandleEndTag(tag);
      case StartEndTag(tag, attrs) => HandleStartEndTag(tag, attrs);
      case Data(text) => HandleData(text);
      case EntityRef(name) => HandleEntityRef(name);
      case NumericRef(name) => HandleCharRef(name);
      case Unhandled =>
    }

    method Feed(events: seq<Event>)
      requires Valid()
      modifies this
      ensures Valid() && View() == Run(policy, old(View()), events)
    {
      for i := 0 to |events|
        invariant Valid() && View() == Run(policy, old(View()), events[..i])
      {
        RunPrefix(policy, old(View()), events, i);
        Handle(events[i]);
      }
      assert events[..|events|] == events;
    }

    method GetSanitizedHtml() returns (html: string)
      requires Valid()
      ensures html == RenderAll(pieces)
    {
      html := Concat(parts);
    }
  }

  /** Sanitizes a document. The result is the rendering of what the machine writes. */
  method SanitizeHtml(policy: Policy, events: seq<Event>) returns (html: string)
    ensures html == RenderAll(Sanitized(policy, events))
  {
    var sanitizer := new HtmlSanitizer(policy);
    sanitizer.Feed(events);
    html := sanitizer.GetSanitizedHtml();
  }
}
