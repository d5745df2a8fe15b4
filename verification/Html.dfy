/** HTML output as a list of pieces: escaping, rendering, and how end tags match start tags. */
module Html {
  import opened PyText

  datatype SafeAttr = SafeAttr(name: string, value: string)

  /** One thing written to the output. */
  datatype Piece =
    | Open(tag: string, attrs: seq<SafeAttr>)
    | Close(tag: string)
    | SelfClosed(tag: string, attrs: seq<SafeAttr>)
    | Text(text: string)
    | Entity(name: string)
    | CharRef(name: string)

  const VOID_TAGS: set<string> := {"br", "hr", "img", "input"}

  // ----- Escaping

  function EscapeChar(c: char): string {
    match c
    case '&' => "&amp;"
    case '<' => "&lt;"
    case '>' => "&gt;"
    case '"' => "&quot;"
    case '\'' => "&#x27;"
    case _ => [c]
  }

  /** `html.escape`, quotes included. */
  function Escape(s: string): (r: string)
    ensures forall c <- r :: c !in "<>\"'"
  {
    if s == "" then "" else EscapeChar(s[0]) + Escape(s[1..])
  }

  /** What a browser reads back: the five references written by `Escape`. */
  function Unescape(s: string): string {
    if s == "" then ""
    else if StartsWith(s, "&amp;") then "&" + Unescape(s[5..])
    else if StartsWith(s, "&lt;") then "<" + Unescape(s[4..])
    else if StartsWith(s, "&gt;") then ">" + Unescape(s[4..])
    else if StartsWith(s, "&quot;") then "\"" + Unescape(s[6..])
    else if StartsWith(s, "&#x27;") then "'" + Unescape(s[6..])
    else [s[0]] + Unescape(s[1..])
  }

  /** Escaping loses nothing: reading the references back gives the text. */
  lemma {:induction false} EscapeRoundTrip(s: string)
    ensures Unescape(Escape(s)) == s
  {
    if s != "" {
      var rest := Escape(s[1..]);
      EscapeRoundTrip(s[1..]);
      var e := EscapeChar(s[0]);
      assert (e + rest)[|e|..] == rest;
      assert Escape(s)[0] == e[0];
      UnescapeChar(s[0], rest);
    }
  }

  lemma UnescapeChar(c: char, rest: string)
    ensures Unescape(EscapeChar(c) + rest) == [c] + Unescape(rest)
  {
    var e := EscapeChar(c);
    assert (e + rest)[|e|..] == rest;
    match c {
      case '&' => assert StartsWith(e + rest, "&amp;");
      case '<' => assert StartsWith(e + rest, "&lt;") && (e + rest)[1] == 'l';
      case '>' => assert StartsWith(e + rest, "&gt;") && (e + rest)[1] == 'g';
      case '"' => assert StartsWith(e + rest, "&quot;") && (e + rest)[1] == 'q';
      case '\'' => assert StartsWith(e + rest, "&#x27;") && (e + rest)[1] == '#';
      case _ => assert (e + rest)[0] == c;
    }
  }

  predicate NeedsNoEscape(s: string) {
    forall c <- s :: c !in "&<>\"'"
  }

  lemma {:induction false} EscapeIdentity(s: string)
    requires NeedsNoEscape(s)
    ensures Escape(s) == s
  {
    if s != "" {
      assert s[0] in s;
      forall c | c in s[1..] ensures c in s {}
      EscapeIdentity(s[1..]);
      assert s == [s[0]] + s[1..];
    }
  }

  // ----- Rendering

  function RenderAttrs(attrs: seq<SafeAttr>): string {
    if attrs == [] then ""
    else " " + attrs[0].name + "=\"" + Escape(attrs[0].value) + "\"" + RenderAttrs(attrs[1..])
  }

  function Render(p: Piece): string {
    match p
    case Open(tag, attrs) => "<" + tag + RenderAttrs(attrs) + ">"
    case Close(tag) => "</" + tag + ">"
    case SelfClosed(tag, attrs) => "<" + tag + RenderAttrs(attrs) + " />"
    case Text(text) => Escape(text)
    case Entity(name) => "&" + name + ";"
    case CharRef(name) => "&#" + name + ";"
  }

  function RenderAll(pieces: seq<Piece>): string {
    if pieces == [] then "" else RenderAll(pieces[..|pieces| - 1]) + Render(pieces[|pieces| - 1])
  }

  lemma RenderSnoc(pieces: seq<Piece>, p: Piece)
    ensures RenderAll(pieces + [p]) == RenderAll(pieces) + Render(p)
  {
    assert (pieces + [p])[..|pieces|] == pieces;
  }

  lemma {:induction false} RenderAppend(a: seq<Piece>, b: seq<Piece>)
    ensures RenderAll(a + b) == RenderAll(a) + RenderAll(b)
  {
    if b == [] {
      assert a + b == a;
    } else {
      var front, last := b[..|b| - 1], b[|b| - 1];
      assert b == front + [last];
      assert a + b == (a + front) + [last];
      calc {
        RenderAll(a + b);
        { RenderSnoc(a + front, last); }
        RenderAll(a + front) + Render(last);
        { RenderAppend(a, front); }
        (RenderAll(a) + RenderAll(front)) + Render(last);
        { ConcatIsAssociative(RenderAll(a), RenderAll(front), Render(last)); }
        RenderAll(a) + (RenderAll(front) + Render(last));
        { RenderSnoc(front, last); }
        RenderAll(a) + RenderAll(b);
      }
    }
  }

  // ----- Matching of end tags

  /** `m` sends every end tag to an earlier start tag of the same name, no start tag is used
      twice, and the matched pairs nest: two of them never overlap only in part. No void
      element is closed. */
  ghost predicate LifoMatched(pieces: seq<Piece>, m: map<nat, nat>) {
    && (forall e :: e in m <==> 0 <= e < |pieces| && pieces[e].Close?)
    && (forall e :: e in m ==> m[e] < e && pieces[m[e]].Open? && pieces[m[e]].tag == pieces[e].tag
                                   && pieces[e].tag !in VOID_TAGS)
    && (forall e, f :: e in m && f in m && e < f ==> m[f] > e || m[f] < m[e])
  }
}
