/** Which values the sanitizer writes under the two policies in use, spelled out character by character:
    nothing else is written, and all of it is. */
module SanitizerValues {
  import opened Options
  import opened PyText
  import opened Html
  import opened Sanitizer

  ghost predicate InUse(policy: Policy, scheme: string -> string) {
    policy == StandardPolicy(scheme) || policy == ExcerptPolicy(scheme)
  }

  // ----- Links

  /** A link within the site, or one without a scheme. */
  predicate IsLocal(scheme: string -> string, v: string) {
    && v != ""
    && (|| v[0] == '#' || v[0] == '/'
        || (|v| >= 2 && v[0] == '.' && (v[1] == '/' || (|v| >= 3 && v[1] == '.' && v[2] == '/')))
        || scheme(v) == "")
  }

  predicate IsWebLink(scheme: string -> string, v: string) {
    v != "" && (Lower(scheme(v)) == "http" || Lower(scheme(v)) == "https")
  }

  predicate IsContactLink(scheme: string -> string, v: string) {
    v != "" && (Lower(scheme(v)) == "mailto" || Lower(scheme(v)) == "tel")
  }

  lemma RelativeForms(v: string)
    ensures StartsWith(v, "#") <==> v != "" && v[0] == '#'
    ensures StartsWith(v, "/") <==> v != "" && v[0] == '/'
    ensures StartsWith(v, "./") <==> |v| >= 2 && v[0] == '.' && v[1] == '/'
    ensures StartsWith(v, "../") <==> |v| >= 3 && v[0] == '.' && v[1] == '.' && v[2] == '/'
  {
    if v != "" {
      assert v[..1] == [v[0]];
    }
    if |v| >= 2 {
      assert v[..2] == [v[0], v[1]];
    }
    if |v| >= 3 {
      assert v[..3] == [v[0], v[1], v[2]];
    }
  }

  /** A URL passes exactly if it is one of these, whatever scheme is found in it. */
  lemma SafeUrlIff(scheme: string -> string, v: string, allowNonHttp: bool)
    requires IsStripped(v)
    ensures IsSafeUrl(scheme, v, allowNonHttp)
            <==> IsLocal(scheme, v) || IsWebLink(scheme, v) || (allowNonHttp && IsContactLink(scheme, v))
  {
    StrippedIsFixed(v);
    RelativeForms(v);
    if StartsWith(v, "//") {
      assert v[0] == "//"[0] == '/';
    }
  }

  // ----- Ids

  predicate IsPlainLetter(c: char) { 'A' <= c <= 'Z' || 'a' <= c <= 'z' }

  predicate IsName(v: string) {
    && v != "" && IsPlainLetter(v[0])
    && forall k :: 0 <= k < |v| ==> IsPlainLetter(v[k]) || '0' <= v[k] <= '9' || v[k] in {':', '_', '-'}
  }

  lemma SafeIdIff(v: string)
    ensures IsSafeId(v) <==> IsName(v)
  {
    assert ":_-"[0] == ':' && ":_-"[1] == '_' && ":_-"[2] == '-';
    if IsSafeId(v) {
      forall k | 0 <= k < |v| ensures IsPlainLetter(v[k]) || '0' <= v[k] <= '9' || v[k] in {':', '_', '-'} {
        if k > 0 {
          assert v[1..][k - 1] == v[k] && v[k] in v[1..];
        }
      }
    }
    if IsName(v) {
      forall c | c in v[1..] ensures IsIdChar(c) {
        var k :| 0 <= k < |v[1..]| && v[1..][k] == c;
        assert v[k + 1] == c;
      }
    }
  }

  // ----- Styles

  /** `text-align:`, a word, and perhaps a semicolon, with any whitespace between and behind them. */
  ghost predicate IsAlignment(v: string) {
    exists pad: string, word: string, gap: string, semi: string, tail: string ::
      Spells(v, pad, word, gap, semi, tail)
  }

  predicate Spells(v: string, pad: string, word: string, gap: string, semi: string, tail: string) {
    && v == "text-align:" + (pad + (word + (gap + (semi + tail))))
    && IsBlank(pad) && IsBlank(gap) && IsBlank(tail)
    && IsAlignWord(word)
    && (semi == "" || semi == ";")
  }

  lemma {:induction false} LStripBlank(pad: string, s: string)
    requires IsBlank(pad) && (s == "" || !IsSpace(s[0]))
    ensures LStrip(pad + s) == s
  {
    var k := SkipSpaces(pad + s, 0);
    assert forall i :: 0 <= i < |pad| ==> (pad + s)[i] == pad[i] && pad[i] in pad;
    assert k >= |pad|;
    if s != "" {
      assert (pad + s)[|pad|] == s[0];
    }
    assert k == |pad|;
  }

  lemma LStripSplits(s: string) returns (pad: string)
    ensures s == pad + LStrip(s) && IsBlank(pad)
  {
    pad := s[..SkipSpaces(s, 0)];
  }

  lemma LStripOfBlank(s: string)
    ensures LStrip(s) == "" <==> IsBlank(s)
  {
    if IsBlank(s) {
      LStripBlank(s, "");
      assert s + "" == s;
    } else {
      var pad := LStripSplits(s);
      assert LStrip(s) == "" ==> s == pad;
    }
  }

  lemma RestSplits(s: string) returns (gap: string, semi: string, tail: string)
    requires EndsStyle(s)
    ensures s == gap + (semi + tail) && IsBlank(gap) && IsBlank(tail) && (semi == "" || semi == ";")
  {
    gap := LStripSplits(s);
    var more := LStrip(s);
    if StartsWith(more, ";") {
      semi, tail := ";", more[1..];
      assert more == ";" + tail;
    } else {
      semi, tail := "", more;
      assert semi + tail == tail;
    }
    LStripOfBlank(tail);
  }

  lemma SplitEndsStyle(gap: string, semi: string, tail: string)
    requires IsBlank(gap) && IsBlank(tail) && (semi == "" || semi == ";")
    ensures EndsStyle(gap + (semi + tail))
  {
    LStripOfBlank(tail);
    if semi == ";" {
      LStripBlank(gap, ";" + tail);
      assert StartsWith(";" + tail, ";") && (";" + tail)[1..] == tail;
    } else {
      var s := gap + (semi + tail);
      assert IsBlank(s);
      LStripOfBlank(s);
      LStripOfBlank("");
    }
  }

  predicate IsAlignWord(w: string) {
    w == "left" || w == "center" || w == "right" || w == "justify"
  }

  lemma SafeStyleWord(v: string) returns (behind: string, w: string, more: string)
    requires IsSafeStyle(v)
    ensures v == "text-align:" + behind && IsAlignWord(w) && LStrip(behind) == w + more && EndsStyle(more)
  {
    behind := PrefixSplits(v, "text-align:");
    var rest := LStrip(behind);
    w :| w in ["left", "center", "right", "justify"] && StartsWith(rest, w) && EndsStyle(rest[|w|..]);
    ListedWord(w);
    more := PrefixSplits(rest, w);
  }

  lemma PrefixSplits(s: string, prefix: string) returns (rest: string)
    requires StartsWith(s, prefix)
    ensures s == prefix + rest && rest == s[|prefix|..]
  {
    rest := s[|prefix|..];
  }

  lemma ListedWord(w: string)
    requires w in ["left", "center", "right", "justify"]
    ensures IsAlignWord(w)
  {
  }

  lemma SafeStyleSpelled(v: string)
    requires IsSafeStyle(v)
    ensures IsAlignment(v)
  {
    var behind, w, more := SafeStyleWord(v);
    var pad := LStripSplits(behind);
    var gap, semi, tail := RestSplits(more);
    assert Spells(v, pad, w, gap, semi, tail);
  }

  lemma SpelledIsSafeStyle(v: string, pad: string, word: string, gap: string, semi: string, tail: string)
    requires Spells(v, pad, word, gap, semi, tail)
    ensures IsSafeStyle(v)
  {
    var rest := word + (gap + (semi + tail));
    assert v[|"text-align:"|..] == pad + rest;
    WordBegins(word);
    LStripBlank(pad, rest);
    assert StartsWith(rest, word) && rest[|word|..] == gap + (semi + tail);
    SplitEndsStyle(gap, semi, tail);
    assert word in ["left", "center", "right", "justify"];
  }

  lemma WordBegins(word: string)
    requires IsAlignWord(word)
    ensures word != "" && !IsSpace(word[0])
  {
  }

  lemma SafeStyleIff(v: string)
    ensures IsSafeStyle(v) <==> IsAlignment(v)
  {
    if IsSafeStyle(v) {
      SafeStyleSpelled(v);
    }
    if IsAlignment(v) {
      var pad, word, gap, semi, tail :| Spells(v, pad, word, gap, semi, tail);
      SpelledIsSafeStyle(v, pad, word, gap, semi, tail);
    }
  }

  // ----- Players

  predicate IsIdPart(c: char) { IsPlainLetter(c) || '0' <= c <= '9' || c == '_' || c == '-' }

  /** Eleven characters of a video's id, and perhaps a query. */
  predicate IsVideo(id: string, query: string) {
    && |id| == 11 && (forall c <- id :: IsIdPart(c))
    && (query == "" || (query[0] == '?' && forall k :: 1 <= k < |query| ==> IsIdPart(query[k]) || query[k] in "=&%"))
  }

  /** One of three sites, and a video. */
  ghost predicate IsPlayer(v: string) {
    exists id: string, query: string :: IsVideo(id, query) && IsOnSite(v, id + query)
  }

  predicate IsOnSite(v: string, path: string) {
    || v == "https://www.youtube.com/embed/" + path
    || v == "https://www.youtube.com/shorts/" + path
    || v == "https://www.youtube-nocookie.com/embed/" + path
  }

  lemma SameIdChars(c: char)
    ensures IsVideoIdChar(c) <==> IsIdPart(c)
    ensures IsQueryChar(c) <==> IsIdPart(c) || c in "=&%"
  {
    assert "_-"[0] == '_' && "_-"[1] == '-';
    assert "_=&%-"[0] == '_' && "_=&%-"[1] == '=' && "_=&%-"[2] == '&' && "_=&%-"[3] == '%' && "_=&%-"[4] == '-';
    assert "=&%"[0] == '=' && "=&%"[1] == '&' && "=&%"[2] == '%';
  }

  lemma VideoPathSplits(path: string) returns (id: string, query: string)
    requires IsVideoPath(path)
    ensures IsVideo(id, query) && path == id + query
  {
    forall c ensures (IsVideoIdChar(c) <==> IsIdPart(c)) && (IsQueryChar(c) <==> IsIdPart(c) || c in "=&%") {
      SameIdChars(c);
    }
    id, query := path[..11], path[11..];
    if query != "" {
      assert query[0] == path[11];
      forall k | 1 <= k < |query| ensures IsQueryChar(query[k]) {
        assert path[12..][k - 1] == query[k] && query[k] in path[12..];
      }
    }
  }

  lemma VideoIsPath(id: string, query: string)
    requires IsVideo(id, query)
    ensures IsVideoPath(id + query)
  {
    forall c ensures (IsVideoIdChar(c) <==> IsIdPart(c)) && (IsQueryChar(c) <==> IsIdPart(c) || c in "=&%") {
      SameIdChars(c);
    }
    var path := id + query;
    assert path[..11] == id;
    if query != "" {
      assert path[11] == query[0];
      forall c | c in path[12..] ensures IsQueryChar(c) {
        var k :| 0 <= k < |path[12..]| && path[12..][k] == c;
        assert query[k + 1] == c;
      }
    }
  }

  lemma SiteSplits(v: string) returns (path: string)
    requires IsYouTubeSrc(v)
    ensures IsVideoPath(path) && IsOnSite(v, path)
  {
    var site :| site in ["https://www.youtube.com/embed/", "https://www.youtube.com/shorts/",
                         "https://www.youtube-nocookie.com/embed/"]
                && StartsWith(v, site) && IsVideoPath(v[|site|..]);
    path := PrefixSplits(v, site);
  }

  lemma YouTubeIsPlayer(v: string)
    requires IsYouTubeSrc(v)
    ensures IsPlayer(v)
  {
    var path := SiteSplits(v);
    var id, query := VideoPathSplits(path);
    assert IsVideo(id, query) && IsOnSite(v, id + query);
  }

  lemma YouTubeSrcIff(v: string)
    ensures IsYouTubeSrc(v) <==> IsPlayer(v)
  {
    if IsYouTubeSrc(v) {
      YouTubeIsPlayer(v);
    }
    if IsPlayer(v) {
      var id, query :| IsVideo(id, query) && IsOnSite(v, id + query);
      VideoIsPath(id, query);
      PlayerIsYouTube(v, id + query);
    }
  }

  lemma PlayerIsYouTube(v: string, path: string)
    requires IsOnSite(v, path) && IsVideoPath(path)
    ensures IsYouTubeSrc(v)
  {
    var sites := ["https://www.youtube.com/embed/", "https://www.youtube.com/shorts/",
                  "https://www.youtube-nocookie.com/embed/"];
    assert sites[0] in sites && sites[1] in sites && sites[2] in sites;
    if v == sites[0] + path {
      OnSite(v, sites[0], path);
    } else if v == sites[1] + path {
      OnSite(v, sites[1], path);
    } else {
      OnSite(v, sites[2], path);
    }
  }

  lemma OnSite(v: string, site: string, path: string)
    requires v == site + path
    ensures StartsWith(v, site) && v[|site|..] == path
  {
  }

  // ----- Attributes

  ghost predicate IsSafeValue(scheme: string -> string, name: string, v: string) {
    && (name == "href" ==> IsLocal(scheme, v) || IsWebLink(scheme, v) || IsContactLink(scheme, v))
    && (name == "src" ==> IsLocal(scheme, v) || IsWebLink(scheme, v))
    && (name == "id" ==> IsName(v))
    && (name == "style" ==> IsAlignment(v))
  }

  lemma FitsIff(scheme: string -> string, name: string, v: string)
    requires IsStripped(v)
    ensures Fits(scheme, name, v) <==> IsSafeValue(scheme, name, v)
  {
    SafeUrlIff(scheme, v, true);
    SafeUrlIff(scheme, v, false);
    SafeIdIff(v);
    SafeStyleIff(v);
  }

  predicate IsFlag(name: string) {
    name == "checked" || name == "disabled" || name == "open"
  }

  /** The attribute `w` that the attribute `a` of the input asks for. */
  ghost predicate AsksFor(scheme: string -> string, a: Attr, w: SafeAttr) {
    && Lower(a.name) == w.name
    && if a.value.None? then IsFlag(w.name) && w.value == w.name
       else w.value == Strip(a.value.value) && IsSafeValue(scheme, w.name, w.value)
  }

  lemma OneWrittenIff(policy: Policy, scheme: string -> string, tag: string, a: Attr, w: SafeAttr)
    requires InUse(policy, scheme)
    ensures FilterAttr(policy, tag, a) == Some(w) <==> w.name in AllowedAttrs(policy, tag) && AsksFor(scheme, a, w)
  {
    if a.value.Some? {
      StripIsStripped(a.value.value);
      FitsIff(scheme, Lower(a.name), Strip(a.value.value));
      assert policy.fits(Lower(a.name), Strip(a.value.value)) == Fits(scheme, Lower(a.name), Strip(a.value.value));
    }
  }

  /** The attributes written are exactly those that are allowed for the tag and asked for with a safe value ... */
  lemma {:induction false} WrittenIff(policy: Policy, scheme: string -> string, tag: string, attrs: seq<Attr>,
                                      w: SafeAttr)
    requires InUse(policy, scheme)
    ensures w in FilterAttrs(policy, tag, attrs)
            <==> w.name in AllowedAttrs(policy, tag) && exists a <- attrs :: AsksFor(scheme, a, w)
  {
    if attrs != [] {
      var front, last := attrs[..|attrs| - 1], attrs[|attrs| - 1];
      assert attrs == front + [last];
      WrittenIff(policy, scheme, tag, front, w);
      OneWrittenIff(policy, scheme, tag, last, w);
      assert w in FilterAttrs(policy, tag, attrs)
             <==> w in FilterAttrs(policy, tag, front) || FilterAttr(policy, tag, last) == Some(w);
    }
  }

  /** ... one after the other. */
  lemma {:induction false} WrittenInOrder(policy: Policy, tag: string, a: seq<Attr>, b: seq<Attr>)
    ensures FilterAttrs(policy, tag, a + b) == FilterAttrs(policy, tag, a) + FilterAttrs(policy, tag, b)
  {
    if b == [] {
      assert a + b == a;
    } else {
      var front, last := b[..|b| - 1], b[|b| - 1];
      assert (a + b)[..|a + b| - 1] == a + front && (a + b)[|a + b| - 1] == last;
      WrittenInOrder(policy, tag, a, front);
    }
  }

  // ----- Documents

  /** Tags that run, embed or redirect something. */
  predicate IsActive(tag: string) {
    tag == "script" || tag == "style" || tag == "object" || tag == "embed" || tag == "form" || tag == "base"
  }

  /** No active tag, no handler of events, and only safe values. */
  ghost predicate IsSafeTag(scheme: string -> string, tag: string, attrs: seq<SafeAttr>) {
    && !IsActive(tag)
    && forall w <- attrs :: !IsHandler(w.name) && IsSafeValue(scheme, w.name, w.value)
  }

  predicate IsHandler(name: string) {
    |name| >= 2 && name[0] == 'o' && name[1] == 'n'
  }

  /** An iframe is a player, and has one source. */
  ghost predicate IsSafePiece(scheme: string -> string, p: Piece) {
    match p
    case Open(tag, attrs) =>
      if tag == "iframe" then exists v :: IsPlayer(v) && attrs == IframeAttrs(v) else IsSafeTag(scheme, tag, attrs)
    case SelfClosed(tag, attrs) => tag != "iframe" && IsSafeTag(scheme, tag, attrs)
    case _ => true
  }

  lemma AllowedIsInactive(tag: string)
    requires tag in ALLOWED_TAGS
    ensures !IsActive(tag) && tag != "iframe"
  {
    ScriptsAreOut(tag);
    EmbeddingIsOut(tag);
    FormsAreOut(tag);
  }

  lemma ScriptsAreOut(tag: string)
    requires tag in ALLOWED_TAGS
    ensures tag != "script" && tag != "style"
  {
    assert "script"[0] == 's' && "script"[1] == 'c' && |"script"| == 6;
    assert "style"[0] == 's' && |"style"| == 5;
    assert |tag| == 6 ==> tag[1] != 'c';
    assert |tag| == 5 ==> tag[0] != 's';
  }

  lemma EmbeddingIsOut(tag: string)
    requires tag in ALLOWED_TAGS
    ensures tag != "object" && tag != "embed" && tag != "iframe"
  {
    assert "object"[0] == 'o' && |"object"| == 6;
    assert "iframe"[0] == 'i' && |"iframe"| == 6;
    assert "embed"[0] == 'e' && |"embed"| == 5;
    assert |tag| == 6 ==> tag[0] != 'o' && tag[0] != 'i';
    assert |tag| == 5 ==> tag[0] != 'e';
  }

  lemma FormsAreOut(tag: string)
    requires tag in ALLOWED_TAGS
    ensures tag != "form" && tag != "base"
  {
    assert "form"[0] == 'f' && |"form"| == 4;
    assert "base"[0] == 'b' && |"base"| == 4;
    assert |tag| == 4 ==> tag[0] != 'f' && tag[0] != 'b';
  }

  lemma NoHandlers(policy: Policy, scheme: string -> string, tag: string, name: string)
    requires InUse(policy, scheme) && name in AllowedAttrs(policy, tag)
    ensures !IsHandler(name)
  {
    if name in GLOBAL_ALLOWED_ATTRS {
      assert name == "class" || name == "id";
    } else {
      assert tag in TAG_ALLOWED_ATTRS && name in TAG_ALLOWED_ATTRS[tag];
      NoTagHandlers(tag, name);
    }
  }

  lemma NoTagHandlers(tag: string, name: string)
    requires tag in TAG_ALLOWED_ATTRS && name in TAG_ALLOWED_ATTRS[tag]
    ensures !IsHandler(name)
  {
  }

  lemma HarmlessIsSafe(policy: Policy, scheme: string -> string, tag: string, w: SafeAttr)
    requires InUse(policy, scheme) && IsHarmless(policy, tag, w)
    ensures !IsHandler(w.name) && IsSafeValue(scheme, w.name, w.value)
  {
    NoHandlers(policy, scheme, tag, w.name);
    if IsStripped(w.value) && policy.fits(w.name, w.value) {
      assert policy.fits(w.name, w.value) == Fits(scheme, w.name, w.value);
      FitsIff(scheme, w.name, w.value);
    } else {
      assert w.name in BOOLEAN_ATTRS;
      FlagIsFree(scheme, w.name, w.value);
    }
  }

  lemma FlagIsFree(scheme: string -> string, name: string, v: string)
    requires name in BOOLEAN_ATTRS
    ensures IsSafeValue(scheme, name, v)
  {
    assert "href"[0] == 'h' && "src"[0] == 's' && "id"[0] == 'i' && "style"[0] == 's';
    assert name[0] == 'c' || name[0] == 'd' || name[0] == 'o';
  }

  lemma HarmlessTag(policy: Policy, scheme: string -> string, tag: string, attrs: seq<SafeAttr>)
    requires InUse(policy, scheme) && tag in policy.allowedTags && forall w <- attrs :: IsHarmless(policy, tag, w)
    ensures tag != "iframe" && IsSafeTag(scheme, tag, attrs)
  {
    AllowedIsInactive(tag);
    forall w | w in attrs ensures !IsHandler(w.name) && IsSafeValue(scheme, w.name, w.value) {
      HarmlessIsSafe(policy, scheme, tag, w);
    }
  }

  lemma NoticeTags(policy: Policy, scheme: string -> string, tag: string)
    requires InUse(policy, scheme) && tag in {"p", "em"}
    ensures tag in policy.allowedTags
  {
  }

  lemma PermittedIsSafe(policy: Policy, scheme: string -> string, p: Piece)
    requires InUse(policy, scheme) && IsPermitted(policy, p)
    ensures IsSafePiece(scheme, p)
  {
    match p {
      case Open(tag, attrs) =>
        if tag == "iframe" {
          PermittedPlayer(policy, scheme, attrs);
        } else {
          PermittedTag(policy, scheme, tag, attrs);
        }
      case SelfClosed(tag, attrs) => HarmlessTag(policy, scheme, tag, attrs);
      case _ =>
    }
  }

  lemma PermittedTag(policy: Policy, scheme: string -> string, tag: string, attrs: seq<SafeAttr>)
    requires InUse(policy, scheme) && IsPermitted(policy, Open(tag, attrs)) && tag != "iframe"
    ensures IsSafeTag(scheme, tag, attrs)
  {
    if tag in {"p", "em"} && attrs == [] {
      NoticeTags(policy, scheme, tag);
    }
    HarmlessTag(policy, scheme, tag, attrs);
  }

  lemma PermittedPlayer(policy: Policy, scheme: string -> string, attrs: seq<SafeAttr>)
    requires InUse(policy, scheme) && IsPermitted(policy, Open("iframe", attrs))
    ensures IsSafePiece(scheme, Open("iframe", attrs))
  {
    EmbeddingIsNotAllowed(policy, scheme);
    NoticeIsNoPlayer();
    var v := attrs[0].value;
    assert policy.isVideo(v) == IsYouTubeSrc(v);
    YouTubeSrcIff(v);
  }

  lemma EmbeddingIsNotAllowed(policy: Policy, scheme: string -> string)
    requires InUse(policy, scheme)
    ensures "iframe" !in policy.allowedTags
  {
    if "iframe" in ALLOWED_TAGS {
      EmbeddingIsOut("iframe");
    }
  }

  lemma NoticeIsNoPlayer()
    ensures "iframe" !in {"p", "em"}
  {
    assert |"iframe"| == 6 && |"p"| == 1 && |"em"| == 2;
  }

  /** For every event sequence and either policy: nothing active is written, every link, source, id and style
      has one of the forms above, and every iframe is a player. */
  lemma OutputIsSafe(policy: Policy, scheme: string -> string, events: seq<Event>)
    requires InUse(policy, scheme)
    ensures forall p <- Sanitized(policy, events) :: IsSafePiece(scheme, p)
  {
    OutputPermitted(policy, events);
    forall p | p in Sanitized(policy, events) ensures IsSafePiece(scheme, p) {
      PermittedIsSafe(policy, scheme, p);
    }
  }

  /** In excerpts there are no iframes and no images. */
  lemma ExcerptsEmbedNothing(scheme: string -> string, events: seq<Event>)
    ensures forall p <- Sanitized(ExcerptPolicy(scheme), events) ::
              p.Open? || p.SelfClosed? ==> p.tag != "iframe" && p.tag != "img"
  {
    var policy := ExcerptPolicy(scheme);
    OutputPermitted(policy, events);
    EmbeddingIsNotAllowed(policy, scheme);
    assert "img" !in policy.allowedTags;
    forall p | p in Sanitized(policy, events) && (p.Open? || p.SelfClosed?) ensures p.tag in policy.allowedTags {
      assert IsPermitted(policy, p);
    }
  }

  // ----- And all of it is written

  lemma SanitizedSnoc(policy: Policy, events: seq<Event>, event: Event)
    ensures Sanitized(policy, events + [event])
         == Step(policy, Run(policy, State([], []), events), event).pieces
  {
    RunAppend(policy, State([], []), events, [event]);
    RunOne(policy, Run(policy, State([], []), events), event);
  }

  /** A tag that the policy allows is written with exactly the attributes that are allowed for it and asked for
      with a safe value, whatever came before. */
  lemma TagIsWritten(policy: Policy, scheme: string -> string, events: seq<Event>, tag: string, attrs: seq<Attr>)
    returns (kept: seq<SafeAttr>)
    requires InUse(policy, scheme) && Lower(tag) in policy.allowedTags
    ensures Sanitized(policy, events + [StartTag(tag, attrs)]) == Sanitized(policy, events) + [Open(Lower(tag), kept)]
    ensures Sanitized(policy, events + [StartEndTag(tag, attrs)])
         == Sanitized(policy, events) + [SelfClosed(Lower(tag), kept)]
    ensures forall w :: w in kept
              <==> w.name in AllowedAttrs(policy, Lower(tag)) && exists a <- attrs :: AsksFor(scheme, a, w)
  {
    AllowedIsInactive(Lower(tag));
    SanitizedSnoc(policy, events, StartTag(tag, attrs));
    SanitizedSnoc(policy, events, StartEndTag(tag, attrs));
    kept := FilterAttrs(policy, Lower(tag), attrs);
    forall w: SafeAttr ensures w in kept
              <==> w.name in AllowedAttrs(policy, Lower(tag)) && exists a <- attrs :: AsksFor(scheme, a, w)
    {
      WrittenIff(policy, scheme, Lower(tag), attrs, w);
    }
  }

  lemma OneTag(policy: Policy, events: seq<Event>, tag: string, attrs: seq<Attr>)
    requires Lower(tag) == tag && tag in policy.allowedTags && tag != "iframe"
    ensures Sanitized(policy, events + [StartTag(tag, attrs)])
         == Sanitized(policy, events) + [Open(tag, FilterAttrs(policy, tag, attrs))]
  {
    SanitizedSnoc(policy, events, StartTag(tag, attrs));
  }

  lemma LinksAreAllowed(policy: Policy, scheme: string -> string)
    requires InUse(policy, scheme)
    ensures "a" in policy.allowedTags && "href" in AllowedAttrs(policy, "a")
    ensures policy.allowIframes ==> "img" in policy.allowedTags && "src" in AllowedAttrs(policy, "img")
  {
  }

  /** A link is written if and only if it has one of the safe forms, and an image's source if it has one of the
      forms without contacts. */
  lemma LinkIsWrittenIff(policy: Policy, scheme: string -> string, events: seq<Event>, raw: string)
    requires InUse(policy, scheme)
    ensures var v := Strip(raw);
            Sanitized(policy, events + [StartTag("a", [Attr("href", Some(raw))])])
            == Sanitized(policy, events)
               + [Open("a", if IsLocal(scheme, v) || IsWebLink(scheme, v) || IsContactLink(scheme, v)
                            then [SafeAttr("href", v)] else [])]
  {
    LinksAreAllowed(policy, scheme);
    AllowedIsInactive("a");
    TagsAreLower();
    OneTag(policy, events, "a", [Attr("href", Some(raw))]);
    OneLink(policy, scheme, "a", "href", raw);
  }

  lemma ImageIsWrittenIff(scheme: string -> string, events: seq<Event>, raw: string)
    ensures var policy, v := StandardPolicy(scheme), Strip(raw);
            Sanitized(policy, events + [StartTag("img", [Attr("src", Some(raw))])])
            == Sanitized(policy, events)
               + [Open("img", if IsLocal(scheme, v) || IsWebLink(scheme, v) then [SafeAttr("src", v)] else [])]
  {
    var policy := StandardPolicy(scheme);
    LinksAreAllowed(policy, scheme);
    AllowedIsInactive("img");
    TagsAreLower();
    OneTag(policy, events, "img", [Attr("src", Some(raw))]);
    OneLink(policy, scheme, "img", "src", raw);
    assert "href"[0] == 'h' && "src"[0] == 's';
  }

  lemma TagsAreLower()
    ensures Lower("a") == "a" && Lower("img") == "img" && Lower("iframe") == "iframe"
  {
  }

  lemma OneLink(policy: Policy, scheme: string -> string, tag: string, name: string, raw: string)
    requires InUse(policy, scheme) && (name == "href" || name == "src") && name in AllowedAttrs(policy, tag)
    ensures var v := Strip(raw);
            FilterAttrs(policy, tag, [Attr(name, Some(raw))])
            == if IsLocal(scheme, v) || IsWebLink(scheme, v) || (name == "href" && IsContactLink(scheme, v))
               then [SafeAttr(name, v)] else []
  {
    var a, w := Attr(name, Some(raw)), SafeAttr(name, Strip(raw));
    LinkNamesAreLower(name);
    assert [a][..0] == [] && FilterAttrs(policy, tag, []) == [];
    OneWrittenIff(policy, scheme, tag, a, w);
    OnlyLinks(scheme, name, w.value);
  }

  lemma OnlyLinks(scheme: string -> string, name: string, v: string)
    requires name == "href" || name == "src"
    ensures IsSafeValue(scheme, name, v) <==>
            IsLocal(scheme, v) || IsWebLink(scheme, v) || (name == "href" && IsContactLink(scheme, v))
  {
    assert "href"[0] == 'h' && "src"[0] == 's' && "src"[1] == 'r' && "id"[0] == 'i' && "style"[1] == 't';
  }

  /** The source that counts is the first one that has a value. */
  lemma {:induction false} FirstSource(attrs: seq<Attr>, i: nat)
    requires i < |attrs| && Lower(attrs[i].name) == "src" && attrs[i].value.Some?
    requires forall j :: 0 <= j < i ==> Lower(attrs[j].name) != "src" || attrs[j].value.None?
    ensures IframeSrc(attrs) == Some(Strip(attrs[i].value.value))
  {
    if i > 0 {
      FirstSource(attrs[1..], i - 1);
    }
  }

  lemma {:induction false} NoSource(attrs: seq<Attr>)
    requires forall a <- attrs :: Lower(a.name) != "src" || a.value.None?
    ensures IframeSrc(attrs) == None
  {
    if attrs != [] {
      NoSource(attrs[1..]);
    }
  }

  /** Under the policy for posts an iframe is written if and only if its source is a player; otherwise the notice is. */
  lemma PlayerIsWrittenIff(scheme: string -> string, events: seq<Event>, attrs: seq<Attr>, i: nat)
    requires i < |attrs| && Lower(attrs[i].name) == "src" && attrs[i].value.Some?
    requires forall j :: 0 <= j < i ==> Lower(attrs[j].name) != "src" || attrs[j].value.None?
    ensures var policy, v := StandardPolicy(scheme), Strip(attrs[i].value.value);
            Sanitized(policy, events + [StartTag("iframe", attrs)])
            == Sanitized(policy, events) + if IsPlayer(v) then [Open("iframe", IframeAttrs(v))] else NOTICE
  {
    var policy, v := StandardPolicy(scheme), Strip(attrs[i].value.value);
    FirstSource(attrs, i);
    YouTubeSrcIff(v);
    assert policy.isVideo(v) == IsYouTubeSrc(v);
    OneIframe(policy, events, attrs, v);
  }

  lemma OneIframe(policy: Policy, events: seq<Event>, attrs: seq<Attr>, v: string)
    requires policy.allowIframes && IframeSrc(attrs) == Some(v)
    ensures Sanitized(policy, events + [StartTag("iframe", attrs)])
         == Sanitized(policy, events) + if policy.isVideo(v) then [Open("iframe", IframeAttrs(v))] else NOTICE
  {
    TagsAreLower();
    SanitizedSnoc(policy, events, StartTag("iframe", attrs));
  }
}
