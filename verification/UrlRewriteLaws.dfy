/** What the rewriting of relative URLs makes of a value, and what it does to the scan of the text around it. */
module UrlRewriteLaws {
  import opened PyText
  import opened Splitting
  import opened UrlPath
  import opened UrlRewriter

  // ----- One value

  function StripSlashes(s: string): string
    decreases |s|
  {
    if s != "" && s[0] == '/' then StripSlashes(s[1..])
    else if s != "" && s[|s| - 1] == '/' then StripSlashes(s[..|s| - 1])
    else s
  }

  /** A path of the form `posts/<slug>/index.md`. */
  predicate IsDirectoryPostPath(filePath: string) {
    var path := StripSlashes(Strip(filePath));
    StartsWith(path, "posts/") && EndsWith(path, "/index.md") && |Split(path, '/')| >= 3
  }

  predicate IsSkipped(value: string) {
    exists prefix <- ["/", "#", "data:", "http:", "https:", "mailto:", "tel:"] :: StartsWith(value, prefix)
  }

  function RemovePrefix(s: string, prefix: string): string {
    if StartsWith(s, prefix) then s[|prefix|..] else s
  }

  function RemoveSuffix(s: string, suffix: string): string {
    if EndsWith(s, suffix) then s[..|s| - |suffix|] else s
  }

  function Resolved(baseDir: string, value: string): string {
    NormPath(JoinPath(baseDir, RemovePrefix(value, "./")))
  }

  /** The value that a `src` or `href` gets. */
  function NewValue(filePath: string, value: string): string {
    var resolved := Resolved(DirName(filePath), value);
    if IsSkipped(value) || StartsWith(resolved, "..") then value
    else if IsDirectoryPostPath(filePath) && StartsWith(resolved, "posts/") then
      "/post/" + RemoveSuffix(RemovePrefix(resolved, "posts/"), "/index.md")
    else "/api/content/" + resolved
  }

  function NewToken(filePath: string, t: Token): Token {
    if t.Lit? then t else Attr(t.name, t.quote, NewValue(filePath, t.value))
  }

  function NewTokens(filePath: string, tokens: seq<Token>): seq<Token> {
    seq(|tokens|, i requires 0 <= i < |tokens| => NewToken(filePath, tokens[i]))
  }

  function RewriteRelativeUrls(html: string, filePath: string): string {
    Print(NewTokens(filePath, Scan(html)))
  }

  // ----- Changed values are absolute and stay below their root

  lemma SplitSuffix(s: string, front: string, tail: string)
    requires s == front + "/" + tail && ".." !in Split(s, '/')
    ensures ".." !in Split(front, '/') && ".." !in Split(tail, '/')
  {
    SplitConcat(front, tail, '/');
  }

  lemma DotDotUnder(root: string, part: string)
    requires ".." !in Split(part, '/') && '/' !in root && root != ".."
    ensures ".." !in Split("/" + root + "/" + part, '/')
  {
    SplitConcat("/" + root, part, '/');
    SplitConcat("", root, '/');
    SplitPart(root, '/');
    assert "" + "/" + root == "/" + root && Split("", '/') == [""];
  }

  lemma PostPath(resolved: string)
    requires ".." !in Split(resolved, '/') && StartsWith(resolved, "posts/")
    ensures ".." !in Split("/post/" + RemoveSuffix(RemovePrefix(resolved, "posts/"), "/index.md"), '/')
  {
    var short := resolved[6..];
    assert resolved == "posts" + "/" + short;
    SplitSuffix(resolved, "posts", short);
    var final := RemoveSuffix(short, "/index.md");
    if EndsWith(short, "/index.md") {
      IndexSuffix(short, final);
    }
    DotDotUnder("post", final);
    assert "/post/" + final == "/" + "post" + "/" + final;
  }

  lemma IndexSuffix(short: string, final: string)
    requires short == final + "/index.md" && ".." !in Split(short, '/')
    ensures ".." !in Split(final, '/')
  {
    assert final + "/index.md" == final + "/" + "index.md";
    SplitSuffix(short, final, "index.md");
  }

  lemma ContentPath(resolved: string)
    requires ".." !in Split(resolved, '/')
    ensures ".." !in Split("/api/content/" + resolved, '/')
  {
    var rest := "content" + "/" + resolved;
    DotDotUnder("content", resolved);
    assert "/" + "content" + "/" + resolved == "" + "/" + rest;
    SplitSuffix("" + "/" + rest, "", rest);
    DotDotUnder("api", rest);
    assert "/api/content/" + resolved == "/" + "api" + "/" + rest;
  }

  /** Every value that is changed becomes an absolute path without a `..` component. */
  lemma ChangedIsAbsolute(filePath: string, value: string)
    requires NewValue(filePath, value) != value
    ensures StartsWith(NewValue(filePath, value), "/") && ".." !in Split(NewValue(filePath, value), '/')
  {
    var resolved := Resolved(DirName(filePath), value);
    NormPathDotDot(JoinPath(DirName(filePath), RemovePrefix(value, "./")));
    assert ".." !in Split(resolved, '/');
    if IsDirectoryPostPath(filePath) && StartsWith(resolved, "posts/") {
      PostPath(resolved);
    } else {
      ContentPath(resolved);
    }
  }

  /** A value is changed at most once: what comes out is absolute, or was left alone. */
  lemma NewValueTwice(filePath: string, value: string)
    ensures NewValue(filePath, NewValue(filePath, value)) == NewValue(filePath, value)
  {
    if NewValue(filePath, value) != value {
      ChangedIsAbsolute(filePath, value);
      assert IsSkipped(NewValue(filePath, value)) by {
        assert "/" in ["/", "#", "data:", "http:", "https:", "mailto:", "tel:"];
      }
    }
  }

  // ----- The scan finds the same matches again

  lemma ShortIsQuoteFree(resolved: string)
    requires IsQuoteFree(resolved)
    ensures IsQuoteFree("/post/" + RemoveSuffix(RemovePrefix(resolved, "posts/"), "/index.md"))
    ensures IsQuoteFree("/api/content/" + resolved)
  {
    var short := RemovePrefix(resolved, "posts/");
    assert forall c <- short :: c in resolved;
    assert forall c <- RemoveSuffix(short, "/index.md") :: c in short;
    assert IsQuoteFree("/post/") && IsQuoteFree("/api/content/");
  }

  /** With two quotes in the common start of two texts, both match or neither does. */
  lemma TwoQuotes(c: string, f: nat, g: nat, x: string, y: string)
    requires f < g < |c| && IsQuote(c[f]) && IsQuote(c[g])
    requires forall j :: 0 <= j < g && j != f ==> !IsQuote(c[j])
    ensures MatchLen(c + x) == MatchLen(c + y)
  {
    SameName(c, f, x, y);
    MatchFromName(c, f, g, x);
    MatchFromName(c, f, g, y);
  }

  lemma SameName(c: string, f: nat, x: string, y: string)
    requires f < |c| && IsQuote(c[f])
    ensures NameLen(c + x) == NameLen(c + y)
    ensures NameLen(c + x) > 0 ==> NameLen(c + x) < f
  {
    var s, t := c + x, c + y;
    assert s[f] == t[f] == c[f];
    assert StartsWith(s, "src=") ==> f >= 4 && s[..4] == c[..4] == t[..4];
    assert StartsWith(t, "src=") ==> f >= 4 && s[..4] == c[..4] == t[..4];
    assert StartsWith(s, "href=") ==> f >= 5 && s[..5] == c[..5] == t[..5];
    assert StartsWith(t, "href=") ==> f >= 5 && s[..5] == c[..5] == t[..5];
  }

  lemma MatchFromName(c: string, f: nat, g: nat, x: string)
    requires f < g < |c| && IsQuote(c[f]) && IsQuote(c[g])
    requires forall j :: 0 <= j < g && j != f ==> !IsQuote(c[j])
    requires NameLen(c + x) > 0 ==> NameLen(c + x) < f
    ensures MatchLen(c + x) == if NameLen(c + x) > 0 && NameLen(c + x) + 1 == f && c[g] == c[f] then g + 1 else 0
  {
    var s := c + x;
    var n := NameLen(s);
    assert forall j :: 0 <= j <= g ==> s[j] == c[j];
    if n > 0 && n + 1 == f {
      assert QuoteAt(s, n + 2) == g;
    }
  }

  /** Characters in front of an attribute never complete its name to a longer one. */
  lemma NoMatchAcross(p: string, name: string, q: char, x: string)
    requires p != "" && IsQuoteFree(p) && (name == "src" || name == "href") && IsQuote(q)
    ensures MatchLen(p + name + "=" + [q] + x) == 0
  {
    var c := p + name + "=";
    var s := c + [q] + x;
    assert s == p + name + "=" + [q] + x;
    forall j | 0 <= j < |c| ensures !IsQuote(s[j]) {
      assert s[j] == c[j];
      if j < |p| { assert c[j] == p[j] && p[j] in p; }
    }
    assert |c| == |p| + |name| + 1 && (name == "href" ==> |c| >= 6);
    assert |p| == 1 ==> s[1] == c[1] == name[0];
    assert StartsWith(s, "href=") ==> s[1] == "href="[1] == 'r';
    var n := NameLen(s);
    assert n > 0 && n + 1 < |c| ==> !IsQuote(s[n + 1]);
  }

  /** How many characters come before the first attribute. */
  function LeadingLits(tokens: seq<Token>): (k: nat)
    ensures k <= |tokens| && (forall j :: 0 <= j < k ==> tokens[j].Lit?) && (k < |tokens| ==> tokens[k].Attr?)
  {
    if tokens == [] || tokens[0].Attr? then 0 else 1 + LeadingLits(tokens[1..])
  }

  function LitText(tokens: seq<Token>, k: nat): (s: string)
    requires k <= |tokens| && forall j :: 0 <= j < k ==> tokens[j].Lit?
    ensures |s| == k
  {
    seq(k, i requires 0 <= i < k => tokens[i].c)
  }

  lemma {:induction false} PrintLits(tokens: seq<Token>, k: nat)
    requires k <= |tokens| && forall j :: 0 <= j < k ==> tokens[j].Lit?
    ensures Print(tokens) == LitText(tokens, k) + Print(tokens[k..])
  {
    if k == 0 {
      assert tokens[0..] == tokens;
    } else {
      PrintLits(tokens[1..], k - 1);
      assert tokens[1..][k - 1..] == tokens[k..];
      assert LitText(tokens, k) == [tokens[0].c] + LitText(tokens[1..], k - 1);
    }
  }

  lemma PrintAttr(tokens: seq<Token>, k: nat)
    requires k < |tokens| && tokens[k].Attr?
    ensures Print(tokens[k..]) == tokens[k].name + "=" + [tokens[k].quote]
              + (tokens[k].value + [tokens[k].quote] + Print(tokens[k + 1..]))
  {
    assert tokens[k..][0] == tokens[k] && tokens[k..][1..] == tokens[k + 1..];
    var t := tokens[k];
    assert PrintToken(t) == (t.name + "=" + [t.quote]) + (t.value + [t.quote]);
  }

  /** The text of tokens that begin with a character, up to and with the quote that opens their first attribute. */
  lemma CommonStart(p: string, name: string, q: char, x: string, y: string)
    requires p != "" && (name == "src" || name == "href") && IsQuote(q)
    requires MatchLen(p + (name + "=" + [q] + x)) == 0
    ensures MatchLen(p + (name + "=" + [q] + y)) == 0
  {
    var c := p + name + "=" + [q];
    assert p + (name + "=" + [q] + x) == c + x && p + (name + "=" + [q] + y) == c + y;
    if IsQuoteFree(p) {
      NoMatchAcross(p, name, q, y);
    } else {
      var f := QuoteAt(p, 0);
      QuoteIn(p, f);
      var g := QuoteAt(c, f + 1);
      assert c[|c| - 1] == q;
      assert forall j :: 0 <= j <= f ==> c[j] == p[j];
      TwoQuotes(c, f, g, x, y);
    }
  }

  lemma QuoteIn(p: string, f: nat)
    requires !IsQuoteFree(p) && f == QuoteAt(p, 0)
    ensures f < |p|
  {
    var c :| c in p && IsQuote(c);
    var i :| 0 <= i < |p| && p[i] == c;
  }

  lemma LitStays(filePath: string, tokens: seq<Token>)
    requires tokens != [] && tokens[0].Lit? && MatchLen(Print(tokens)) == 0
    requires forall t <- tokens :: t.Attr? ==> IsAttr(t)
    ensures MatchLen(Print(NewTokens(filePath, tokens))) == 0
  {
    var after := NewTokens(filePath, tokens);
    var k := LeadingLits(tokens);
    if k == |tokens| {
      assert after == tokens;
    } else {
      var t, u := tokens[k], after[k];
      assert t in tokens;
      PrintLits(tokens, k);
      PrintLits(after, k);
      assert LitText(after, k) == LitText(tokens, k);
      PrintAttr(tokens, k);
      PrintAttr(after, k);
      CommonStart(LitText(tokens, k), t.name, t.quote, t.value + [t.quote] + Print(tokens[k + 1..]),
                  u.value + [u.quote] + Print(after[k + 1..]));
    }
  }
}
