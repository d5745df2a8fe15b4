/** When rewriting URLs twice is the same as rewriting them once, for a given file. */
module UrlRewriteTwice {
  import opened PyText
  import opened Splitting
  import opened UrlPath
  import opened UrlRewriter
  import opened UrlRewriteLaws

  // ----- Resolving against a directory

  /** The components of a normalised path, after it has been followed by more parts. */
  function Follow(absolute: bool, comps: seq<string>, parts: seq<string>): seq<string> {
    if parts == [] then comps else NormStep(absolute, Follow(absolute, comps, parts[..|parts| - 1]), parts[|parts| - 1])
  }

  lemma {:induction false} NormCompsConcat(absolute: bool, a: seq<string>, b: seq<string>)
    ensures NormComps(absolute, a + b) == Follow(absolute, NormComps(absolute, a), b)
  {
    if b == [] {
      assert a + b == a;
    } else {
      assert (a + b)[..|a + b| - 1] == a + b[..|b| - 1];
      NormCompsConcat(absolute, a, b[..|b| - 1]);
    }
  }

  /** The components of `comps` are those of `base` up to some point, and quote-free from there on. */
  ghost predicate IsBasedOn(comps: seq<string>, base: seq<string>) {
    exists k: nat :: k <= |base| && k <= |comps| && comps[..k] == base[..k] && AreQuoteFree(comps[k..])
  }

  ghost predicate AreQuoteFree(comps: seq<string>) {
    forall c <- comps :: IsQuoteFree(c)
  }

  lemma StepIsBasedOn(absolute: bool, comps: seq<string>, base: seq<string>, comp: string)
    requires IsBasedOn(comps, base) && IsQuoteFree(comp)
    ensures IsBasedOn(NormStep(absolute, comps, comp), base)
  {
    var k: nat :| k <= |base| && k <= |comps| && comps[..k] == base[..k] && AreQuoteFree(comps[k..]);
    var after := NormStep(absolute, comps, comp);
    if |after| > |comps| {
      assert after[..k] == base[..k] && after[k..] == comps[k..] + [comp];
    } else if |after| < |comps| {
      var m := if k < |comps| then k else k - 1;
      assert after[..m] == comps[..m] && comps[..m] == comps[..k][..m] && base[..m] == base[..k][..m];
      assert forall c <- after[m..] :: c in comps[k..];
    }
  }

  lemma {:induction false} FollowIsBasedOn(absolute: bool, base: seq<string>, parts: seq<string>)
    requires AreQuoteFree(parts)
    ensures IsBasedOn(Follow(absolute, base, parts), base)
  {
    if parts == [] {
      assert base[..|base|] == base[..|base|] && AreQuoteFree(base[|base|..]);
    } else {
      assert parts[|parts| - 1] in parts && AreQuoteFree(parts[..|parts| - 1]);
      FollowIsBasedOn(absolute, base, parts[..|parts| - 1]);
      StepIsBasedOn(absolute, Follow(absolute, base, parts[..|parts| - 1]), base, parts[|parts| - 1]);
    }
  }

  function CompsOf(path: string): seq<string> {
    NormComps(InitialSlashes(path) != "", Split(path, '/'))
  }

  lemma NormPathIs(path: string)
    requires path != ""
    ensures NormPath(path) == if InitialSlashes(path) + Join(CompsOf(path), '/') == "" then "."
                              else InitialSlashes(path) + Join(CompsOf(path), '/')
  {
  }

  lemma CompsAreNormal(path: string)
    ensures Normal(InitialSlashes(path) != "", CompsOf(path))
  {
    SplitPartsHaveNo(path, '/');
    NormCompsAreNormal(InitialSlashes(path) != "", Split(path, '/'));
  }

  /** What `posixpath.join` puts behind the directory when the second path is relative. */
  lemma JoinedIs(base: string, relative: string)
    requires base != "" && !StartsWith(relative, "/")
    ensures var joined := JoinPath(base, relative);
            joined != "" && InitialSlashes(joined) == InitialSlashes(base)
            && CompsOf(joined) == Follow(InitialSlashes(base) != "", CompsOf(base), Split(relative, '/'))
  {
    var absolute := InitialSlashes(base) != "";
    JoinKeepsSlashes(base, relative);
    if EndsWith(base, "/") {
      var front := base[..|base| - 1];
      assert base == front + "/" && base == front + ['/'] + "";
      assert base + relative == front + ['/'] + relative;
      SplitConcat(front, "", '/');
      SplitConcat(front, relative, '/');
      NormCompsConcat(absolute, Split(front, '/'), Split(relative, '/'));
      NormCompsConcat(absolute, Split(front, '/'), [""]);
      assert Split("", '/') == [""];
      assert Follow(absolute, NormComps(absolute, Split(front, '/')), [""])
          == NormComps(absolute, Split(front, '/')) by {
        assert [""][..0] == [];
      }
    } else {
      SplitConcat(base, relative, '/');
      NormCompsConcat(absolute, Split(base, '/'), Split(relative, '/'));
    }
  }

  /** Whether there is a slash at one of the first positions. */
  predicate IsSlash(s: string, i: nat) {
    i < |s| && s[i] == '/'
  }

  lemma SlashesAre(s: string)
    ensures StartsWith(s, "/") <==> IsSlash(s, 0)
    ensures StartsWith(s, "//") <==> IsSlash(s, 0) && IsSlash(s, 1)
    ensures StartsWith(s, "///") <==> IsSlash(s, 0) && IsSlash(s, 1) && IsSlash(s, 2)
  {
  }

  /** Behind a directory, a relative path adds no slash at the beginning. */
  lemma JoinKeepsSlash(base: string, relative: string, i: nat)
    requires base != "" && !StartsWith(relative, "/")
    ensures i == 0 || IsSlash(base, i - 1) ==> IsSlash(JoinPath(base, relative), i) == IsSlash(base, i)
  {
    var joined := JoinPath(base, relative);
    assert base <= joined;
    if i < |base| {
      assert joined[i] == base[i];
    } else if i == |base| && IsSlash(base, i - 1) {
      assert base[|base| - 1..] == "/";
      assert joined == base + relative;
    }
  }

  lemma JoinKeepsSlashes(base: string, relative: string)
    requires base != "" && !StartsWith(relative, "/")
    ensures InitialSlashes(JoinPath(base, relative)) == InitialSlashes(base)
  {
    var joined := JoinPath(base, relative);
    JoinKeepsSlash(base, relative, 0);
    JoinKeepsSlash(base, relative, 1);
    JoinKeepsSlash(base, relative, 2);
    SlashesAre(base);
    SlashesAre(joined);
  }

  lemma {:induction false} JoinIsQuoteFree(comps: seq<string>)
    ensures AreQuoteFree(comps) ==> IsQuoteFree(Join(comps, '/'))
    ensures IsQuoteFree(Join(comps, '/')) ==> AreQuoteFree(comps)
  {
    if |comps| > 1 {
      var front, last := comps[..|comps| - 1], comps[|comps| - 1];
      assert comps == front + [last] && last in comps && forall c <- front :: c in comps;
      JoinIsQuoteFree(front);
      var text := Join(front, '/') + ['/'] + last;
      assert forall c <- Join(front, '/') :: c in text;
      assert forall c <- last :: c in text;
      assert forall c <- text :: c in Join(front, '/') || c == '/' || c in last;
    } else if |comps| == 1 {
      assert comps[0] in comps;
    }
  }

  // ----- The condition

  /** The directory that relative values are resolved against. */
  function BaseOf(filePath: string): string {
    NormPath(DirName(filePath))
  }

  /** The directory brings no quote into a value: it has none, or every path that keeps it is left alone. */
  predicate BringsNoQuotes(filePath: string) {
    IsQuoteFree(BaseOf(filePath)) || StartsWith(BaseOf(filePath), "..")
  }

  lemma PartsAreQuoteFree(s: string)
    requires IsQuoteFree(s)
    ensures AreQuoteFree(Split(s, '/'))
  {
    SplitPartsHaveNo(s, '/');
  }

  lemma NormIsQuoteFree(path: string)
    requires IsQuoteFree(path)
    ensures IsQuoteFree(NormPath(path))
  {
    NormPathChars(path);
  }

  /** A path whose components keep the first one of a directory starts with two dots if the directory does. */
  lemma DotsStay(comps: seq<string>, base: seq<string>)
    requires Normal(false, base) && base != [] && StartsWith(Join(base, '/'), "..")
    requires comps != [] && comps[0] == base[0]
    ensures StartsWith(Join(comps, '/'), "..")
  {
    JoinStart(base);
    JoinStart(comps);
    assert base[0] in base && base[0] != "" && base[0] != "." && '/' !in base[0];
    FirstDots(base);
  }

  lemma SingleDot(s: string)
    ensures |s| == 1 && s[0] == '.' ==> s == "."
  {
  }

  lemma FirstDots(base: seq<string>)
    requires Normal(false, base) && base != [] && StartsWith(Join(base, '/'), "..")
    ensures StartsWith(base[0], "..")
  {
    assert base[0] in base;
    JoinHead(base);
    var text := Join(base, '/');
    assert text[0] == '.' && text[1] == '.';
    assert base[0][0] == text[0] == '.';
    SingleDot(base[0]);
    assert base[0][1] == text[1];
  }

  /** A joined path is its first component, perhaps with a slash behind it. */
  lemma {:induction false} JoinHead(comps: seq<string>)
    requires comps != []
    ensures var text := Join(comps, '/');
            comps[0] <= text && (|text| > |comps[0]| ==> text[|comps[0]|] == '/')
  {
    if |comps| > 1 {
      JoinHead(comps[..|comps| - 1]);
    }
  }

  lemma InitialSlashesAreQuoteFree(path: string)
    ensures IsQuoteFree(InitialSlashes(path))
  {
  }

  lemma CommonCompsAreQuoteFree(comps: seq<string>, joined: seq<string>, k: nat)
    requires k <= |comps| && k <= |joined| && joined[..k] == comps[..k]
    requires AreQuoteFree(comps) && AreQuoteFree(joined[k..])
    ensures AreQuoteFree(joined)
  {
    assert joined == joined[..k] + joined[k..];
    forall c | c in joined[..k] ensures IsQuoteFree(c) {
      assert c in comps;
    }
  }

  /** Under the condition, a relative value resolves to a path without quotes, or to one that is left alone. */
  lemma ResolvedBelow(base: string, relative: string)
    requires base != "" && !StartsWith(relative, "/") && IsQuoteFree(relative)
    requires IsQuoteFree(NormPath(base)) || StartsWith(NormPath(base), "..")
    ensures var resolved := NormPath(JoinPath(base, relative)); IsQuoteFree(resolved) || StartsWith(resolved, "..")
  {
    var absolute, comps := InitialSlashes(base) != "", CompsOf(base);
    var joined := JoinPath(base, relative);
    JoinedIs(base, relative);
    PartsAreQuoteFree(relative);
    FollowIsBasedOn(absolute, comps, Split(relative, '/'));
    CompsAreNormal(base);
    InitialSlashesAreQuoteFree(base);
    var k: nat :| k <= |comps| && k <= |CompsOf(joined)| && CompsOf(joined)[..k] == comps[..k]
        && AreQuoteFree(CompsOf(joined)[k..]);
    if IsQuoteFree(NormPath(base)) {
      QuoteFreeComps(base);
      CommonCompsAreQuoteFree(comps, CompsOf(joined), k);
      CompsMakeQuoteFree(joined);
    } else if k == 0 {
      assert CompsOf(joined)[0..] == CompsOf(joined);
      CompsMakeQuoteFree(joined);
    } else {
      KeepsDots(base, joined, k);
    }
  }

  lemma QuoteFreeComps(path: string)
    requires path != "" && IsQuoteFree(NormPath(path))
    ensures AreQuoteFree(CompsOf(path))
  {
    JoinIsQuoteFree(CompsOf(path));
    var text := InitialSlashes(path) + Join(CompsOf(path), '/');
    assert forall c <- Join(CompsOf(path), '/') :: c in text;
    if text == "" {
      assert Join(CompsOf(path), '/') == "";
    }
  }

  lemma CompsMakeQuoteFree(path: string)
    requires path != "" && AreQuoteFree(CompsOf(path))
    ensures IsQuoteFree(NormPath(path))
  {
    JoinIsQuoteFree(CompsOf(path));
    InitialSlashesAreQuoteFree(path);
    var slashes, text := InitialSlashes(path), Join(CompsOf(path), '/');
    assert forall c <- slashes + text :: c in slashes || c in text;
  }

  lemma NormPathStart(path: string)
    requires path != ""
    ensures NormPath(path) != "" && (InitialSlashes(path) != "" ==> NormPath(path)[0] == '/')
  {
  }

  lemma KeepsDots(base: string, joined: string, k: nat)
    requires base != "" && joined != "" && StartsWith(NormPath(base), "..")
    requires InitialSlashes(joined) == InitialSlashes(base)
    requires 0 < k <= |CompsOf(base)| && k <= |CompsOf(joined)| && CompsOf(joined)[..k] == CompsOf(base)[..k]
    ensures StartsWith(NormPath(joined), "..")
  {
    var slashes := InitialSlashes(base);
    NormPathStart(base);
    assert slashes == "";
    CompsAreNormal(base);
    CompsAreNormal(joined);
    assert slashes + Join(CompsOf(base), '/') == Join(CompsOf(base), '/');
    assert slashes + Join(CompsOf(joined), '/') == Join(CompsOf(joined), '/');
    assert CompsOf(joined)[0] == CompsOf(joined)[..k][0] == CompsOf(base)[..k][0] == CompsOf(base)[0];
    DotsStay(CompsOf(joined), CompsOf(base));
  }

  lemma RelativeOf(value: string)
    requires IsQuoteFree(value)
    ensures IsQuoteFree(RemovePrefix(value, "./"))
  {
    assert forall c <- RemovePrefix(value, "./") :: c in value;
  }

  /** Under the condition, no value gets a quote. */
  lemma NewValueIsQuoteFree(filePath: string, value: string)
    requires BringsNoQuotes(filePath) && IsQuoteFree(value)
    ensures IsQuoteFree(NewValue(filePath, value))
  {
    var base, relative := DirName(filePath), RemovePrefix(value, "./");
    var resolved := Resolved(base, value);
    RelativeOf(value);
    if base == "" || StartsWith(relative, "/") {
      assert JoinPath(base, relative) == relative || JoinPath(base, relative) == "" + relative;
      NormIsQuoteFree(relative);
    } else {
      ResolvedBelow(base, relative);
    }
    if IsQuoteFree(resolved) {
      ShortIsQuoteFree(resolved);
    }
  }

  // ----- If the directory brings no quotes, once is enough

  lemma NewTokensSlice(filePath: string, tokens: seq<Token>, i: nat)
    requires i <= |tokens|
    ensures NewTokens(filePath, tokens)[i..] == NewTokens(filePath, tokens[i..])
  {
  }

  lemma CharStays(filePath: string, tokens: seq<Token>, i: nat)
    requires Canonical(tokens) && i < |tokens| && tokens[i].Lit?
    ensures MatchLen(Print(NewTokens(filePath, tokens)[i..])) == 0
  {
    NewTokensSlice(filePath, tokens, i);
    assert forall t <- tokens[i..] :: t in tokens;
    LitStays(filePath, tokens[i..]);
  }

  lemma NewAttrIsAttr(filePath: string, t: Token)
    requires BringsNoQuotes(filePath) && IsAttr(t)
    ensures IsAttr(NewToken(filePath, t))
  {
    NewValueIsQuoteFree(filePath, t.value);
  }

  lemma NewTokensAreCanonical(filePath: string, tokens: seq<Token>)
    requires BringsNoQuotes(filePath) && Canonical(tokens)
    ensures Canonical(NewTokens(filePath, tokens))
  {
    var after := NewTokens(filePath, tokens);
    forall i | 0 <= i < |after|
      ensures if after[i].Lit? then MatchLen(Print(after[i..])) == 0 else IsAttr(after[i])
    {
      if tokens[i].Lit? {
        CharStays(filePath, tokens, i);
      } else {
        NewAttrIsAttr(filePath, tokens[i]);
      }
    }
  }

  /** A scan of the rewritten text finds the same characters and the same attributes, with their new values. */
  ghost predicate OnlyValuesChangeIn(html: string, filePath: string) {
    Scan(RewriteRelativeUrls(html, filePath)) == NewTokens(filePath, Scan(html))
  }

  /** Rewriting the rewritten text changes nothing. */
  ghost predicate IsStable(html: string, filePath: string) {
    RewriteRelativeUrls(RewriteRelativeUrls(html, filePath), filePath) == RewriteRelativeUrls(html, filePath)
  }

  lemma SameMatches(html: string, filePath: string)
    requires BringsNoQuotes(filePath)
    ensures OnlyValuesChangeIn(html, filePath)
  {
    ScanFacts(html);
    NewTokensAreCanonical(filePath, Scan(html));
    ScanPrint(NewTokens(filePath, Scan(html)));
  }

  lemma SecondPassIsIdle(html: string, filePath: string)
    requires BringsNoQuotes(filePath)
    ensures IsStable(html, filePath)
  {
    SameMatches(html, filePath);
    var tokens := Scan(html);
    var after := NewTokens(filePath, tokens);
    forall i | 0 <= i < |after| ensures NewToken(filePath, after[i]) == after[i] {
      if tokens[i].Attr? {
        NewValueTwice(filePath, tokens[i].value);
      }
    }
    assert NewTokens(filePath, after) == after;
  }

  // ----- If it brings a quote, some text is rewritten twice

  /** `u` is `t`, or the same attribute with an absolute value instead of a relative one. */
  ghost predicate IsRooted(t: Token, u: Token) {
    || u == t
    || (t.Attr? && u.Attr? && u.name == t.name && u.quote == t.quote && IsQuote(t.quote)
        && StartsWith(u.value, "/") && !StartsWith(t.value, "/"))
  }

  /** A value that becomes absolute shows in the text. */
  lemma {:induction false} RootedShows(x: seq<Token>, y: seq<Token>, i: nat)
    requires i < |x| == |y| && x[i] != y[i] && forall k :: 0 <= k < |x| ==> IsRooted(x[k], y[k])
    ensures Print(x) != Print(y)
  {
    assert IsRooted(x[0], y[0]);
    if x[0] != y[0] {
      ValuesDiffer(x[0].name + "=" + [x[0].quote], x[0].quote, x[0].value, y[0].value, Print(x[1..]), Print(y[1..]));
    } else {
      RootedShows(x[1..], y[1..], i - 1);
      SameStart(PrintToken(x[0]), Print(x[1..]), Print(y[1..]));
    }
  }

  lemma NewTokenIsRooted(filePath: string, t: Token)
    requires t.Attr? ==> IsAttr(t)
    ensures IsRooted(t, NewToken(filePath, t))
  {
    if t.Attr? && NewValue(filePath, t.value) != t.value {
      ChangedWasRelative(filePath, t.value);
    }
  }

  /** The rewriting changes a text of which some attribute gets a new value: the new value starts with
      a slash where the old one does not. */
  lemma ChangeShows(filePath: string, tokens: seq<Token>, i: nat)
    requires i < |tokens| && (forall t <- tokens :: t.Attr? ==> IsAttr(t))
    requires NewToken(filePath, tokens[i]) != tokens[i]
    ensures Print(NewTokens(filePath, tokens)) != Print(tokens)
  {
    var after := NewTokens(filePath, tokens);
    forall k | 0 <= k < |tokens| ensures IsRooted(tokens[k], after[k]) {
      NewTokenIsRooted(filePath, tokens[k]);
    }
    RootedShows(tokens, after, i);
  }

  lemma SameStart(a: string, x: string, y: string)
    requires x != y
    ensures a + x != a + y
  {
    assert (a + x)[|a|..] == x && (a + y)[|a|..] == y;
  }

  lemma ChangedWasRelative(filePath: string, value: string)
    requires NewValue(filePath, value) != value
    ensures StartsWith(NewValue(filePath, value), "/") && !StartsWith(value, "/")
  {
    ChangedIsAbsolute(filePath, value);
    assert "/" in ["/", "#", "data:", "http:", "https:", "mailto:", "tel:"];
    assert !IsSkipped(value);
  }

  lemma ValuesDiffer(head: string, q: char, value: string, changed: string, x: string, y: string)
    requires StartsWith(changed, "/") && !StartsWith(value, "/") && IsQuote(q)
    ensures head + changed + [q] + y != head + value + [q] + x
  {
    assert (head + changed + [q] + y)[|head|] == changed[0] == '/';
    if value == "" {
      assert (head + value + [q] + x)[|head|] == q;
    } else {
      assert (head + value + [q] + x)[|head|] == value[0];
      assert value[..1] == [value[0]];
    }
  }

  /** A quoted value that stands behind `u` is found if the last quote in `u` is not its own:
      no match that begins in `u` can take its opening quote for a closing one. */
  ghost predicate EndsOtherwise(u: string, q: char) {
    forall i :: 0 <= i < |u| && u[i] == q ==> exists j :: i < j < |u| && IsQuote(u[j])
  }

  /** A match that begins in `u` ends in `u`. */
  lemma MatchEndsWithin(u: string, q: char, rest: string)
    requires u != "" && IsQuote(q) && EndsOtherwise(u, q)
    ensures MatchLen(u + ("src=" + [q] + rest)) <= |u|
  {
    var tail := "src=" + [q] + rest;
    var s := u + tail;
    var n := NameLen(s);
    OpensWithin(u, q, rest);
    if n > 0 && n + 1 < |u| && IsQuote(u[n + 1]) {
      assert s[n + 1] == u[n + 1];
      if j :| n + 1 < j < |u| && IsQuote(u[j]) {
        assert s[j] == u[j];
        assert QuoteAt(s, n + 2) <= j;
      } else {
        assert u[n + 1] != q;
        NextQuote(u, q, rest, n + 2);
      }
    }
  }

  /** Without quotes in `u` from `i` on, the next quote is the one behind the name. */
  lemma NextQuote(u: string, q: char, rest: string, i: nat)
    requires i <= |u| && IsQuote(q) && forall j :: i <= j < |u| ==> !IsQuote(u[j])
    ensures var s := u + ("src=" + [q] + rest); QuoteAt(s, i) == |u| + 4 && s[|u| + 4] == q
  {
    var tail := "src=" + [q] + rest;
    var s := u + tail;
    assert forall j :: 0 <= j < |tail| ==> s[|u| + j] == tail[j];
    assert tail[0] == 's' && tail[1] == 'r' && tail[2] == 'c' && tail[3] == '=' && tail[4] == q;
    assert s[|u| + 4] == q;
    assert forall j :: |u| <= j < |u| + 4 ==> s[j] == tail[j - |u|] && !IsQuote(tail[j - |u|]);
  }

  /** The name of a match that begins in `u` and the quote behind it lie in `u`. */
  lemma OpensWithin(u: string, q: char, rest: string)
    requires u != ""
    ensures var s := u + ("src=" + [q] + rest); var n := NameLen(s);
            n > 0 && n + 1 < |s| && IsQuote(s[n + 1]) ==> n + 1 < |u| && s[n + 1] == u[n + 1]
  {
    var tail := "src=" + [q] + rest;
    var s := u + tail;
    var n := NameLen(s);
    assert forall i :: 0 <= i < |tail| ==> s[|u| + i] == tail[i];
    assert tail[0] == 's' && tail[1] == 'r' && tail[2] == 'c' && tail[3] == '=';
    assert n == 4 ==> s[1] == "href="[1] == 'r';
  }

  lemma EndsOtherwiseLater(u: string, q: char, k: nat)
    requires EndsOtherwise(u, q) && k <= |u|
    ensures EndsOtherwise(u[k..], q)
  {
    var v := u[k..];
    forall i | 0 <= i < |v| && v[i] == q ensures exists j :: i < j < |v| && IsQuote(v[j]) {
      assert u[k + i] == q;
      var j :| k + i < j < |u| && IsQuote(u[j]);
      assert v[j - k] == u[j];
    }
  }

  /** The scan finds the attribute behind `u`. */
  lemma {:induction false} ScanReaches(u: string, q: char, value: string, rest: string) returns (i: nat)
    requires IsQuote(q) && EndsOtherwise(u, q) && IsQuoteFree(value)
    ensures var tokens := Scan(u + PrintToken(Attr("src", q, value)) + rest);
            i < |tokens| && tokens[i] == Attr("src", q, value)
    decreases |u|
  {
    var t := Attr("src", q, value);
    var s := u + PrintToken(t) + rest;
    if u == "" {
      assert s == PrintToken(t) + rest;
      AttrIsFirst(t, rest);
      i := 0;
    } else {
      assert s == u + ("src=" + [q] + (value + [q] + rest));
      MatchEndsWithin(u, q, value + [q] + rest);
      var k := FirstLen(s);
      assert s[k..] == u[k..] + PrintToken(t) + rest;
      EndsOtherwiseLater(u, q, k);
      i := ScanReaches(u[k..], q, value, rest);
      i := i + 1;
    }
  }

  // ----- The witness

  /** The quote that is not the last one in `s`. */
  function OtherQuote(s: string): (q: char)
    ensures IsQuote(q)
  {
    if s == "" then '"'
    else if s[|s| - 1] == '"' then '\''
    else if s[|s| - 1] == '\'' then '"'
    else OtherQuote(s[..|s| - 1])
  }

  lemma {:induction false} OtherQuoteEnds(s: string)
    requires !IsQuoteFree(s)
    ensures EndsOtherwise(s, OtherQuote(s))
  {
    var q := OtherQuote(s);
    var last := s[|s| - 1];
    if IsQuote(last) {
      forall i | 0 <= i < |s| && s[i] == q ensures exists j :: i < j < |s| && IsQuote(s[j]) {
        assert i < |s| - 1 && IsQuote(s[|s| - 1]);
      }
    } else {
      var front := s[..|s| - 1];
      assert s == front + [last];
      OtherQuoteEnds(front);
      forall i | 0 <= i < |s| && s[i] == q ensures exists j :: i < j < |s| && IsQuote(s[j]) {
        assert front[i] == q;
        var j :| i < j < |front| && IsQuote(front[j]);
        assert s[j] == front[j];
      }
    }
  }

  lemma StartsElsewhere(name: string)
    requires name != "" && '/' !in name
    ensures !StartsWith(name, "/")
  {
    assert name[0] in name;
  }

  lemma OneMoreComponent(base: string, name: string)
    requires base != "" && name != "" && name != "." && name != ".." && '/' !in name
    ensures var joined := JoinPath(base, name);
            joined != "" && InitialSlashes(joined) == InitialSlashes(base) && CompsOf(joined) == CompsOf(base) + [name]
  {
    StartsElsewhere(name);
    JoinedIs(base, name);
    SplitPart(name, '/');
    assert [name][..0] == [];
    assert Follow(InitialSlashes(base) != "", CompsOf(base), []) == CompsOf(base);
  }

  /** One more component. */
  lemma ResolvedComponent(base: string, name: string)
    requires base != "" && CompsOf(base) != [] && name != "" && name != "." && name != ".." && '/' !in name
    ensures NormPath(JoinPath(base, name)) == NormPath(base) + "/" + name
  {
    OneMoreComponent(base, name);
    JoinSnoc(CompsOf(base), name);
    CompsAreNormal(base);
    JoinIsNotEmpty(CompsOf(base));
    NormPathIs(base);
    NormPathIs(JoinPath(base, name));
    FourParts(InitialSlashes(base), Join(CompsOf(base), '/'), name);
  }

  lemma FourParts(slashes: string, path: string, name: string)
    ensures slashes + (path + "/" + name) == slashes + path + "/" + name
  {
  }

  lemma JoinSnoc(comps: seq<string>, name: string)
    requires comps != []
    ensures Join(comps + [name], '/') == Join(comps, '/') + "/" + name
  {
    assert (comps + [name])[..|comps|] == comps;
  }

  lemma JoinIsNotEmpty(comps: seq<string>)
    requires comps != [] && forall c <- comps :: c != ""
    ensures Join(comps, '/') != ""
  {
    JoinStart(comps);
    assert comps[0] in comps;
  }

  lemma NoComponents(base: string)
    ensures base == "" || CompsOf(base) == [] ==> IsQuoteFree(NormPath(base))
  {
    InitialSlashesAreQuoteFree(base);
    assert InitialSlashes(base) + "" == InitialSlashes(base);
  }

  /** A directory with a quote has components. */
  lemma QuoteNeedsComponents(base: string)
    requires !IsQuoteFree(NormPath(base))
    ensures base != "" && CompsOf(base) != []
  {
    NoComponents(base);
  }

  /** Where a plain name in the directory resolves to. */
  lemma PlainNameResolves(filePath: string, name: string)
    requires !BringsNoQuotes(filePath) && (name == "src=" || name == "y")
    ensures Resolved(DirName(filePath), name) == BaseOf(filePath) + "/" + name
    ensures !StartsWith(BaseOf(filePath) + "/" + name, "..") && !IsSkipped(name)
  {
    QuoteNeedsComponents(DirName(filePath));
    assert '/' !in name && name[0] != '.';
    assert RemovePrefix(name, "./") == name;
    ResolvedComponent(DirName(filePath), name);
    PlainNameIsNotSkipped(name);
    StaysOutside(BaseOf(filePath), name);
  }

  /** What a plain name in the directory is rewritten to: something with the directory's quotes, and the name at the
      end. */
  lemma PlainNameGetsQuotes(filePath: string, name: string, q: char) returns (front: string)
    requires !BringsNoQuotes(filePath) && (name == "src=" || name == "y") && EndsOtherwise(BaseOf(filePath), q)
             && IsQuote(q)
    ensures NewValue(filePath, name) == front + name && !IsQuoteFree(front) && StartsWith(front, "/")
              && EndsOtherwise(front, q)
  {
    PlainNameResolves(filePath, name);
    var dir := BaseOf(filePath);
    if IsDirectoryPostPath(filePath) && StartsWith(dir + "/" + name, "posts/") {
      front := PostFront(dir, name, q);
    } else {
      front := ContentFront(dir, name, q);
    }
  }

  lemma ContentFront(dir: string, name: string, q: char) returns (front: string)
    requires !IsQuoteFree(dir) && EndsOtherwise(dir, q) && IsQuote(q)
    ensures "/api/content/" + (dir + "/" + name) == front + name && !IsQuoteFree(front) && StartsWith(front, "/")
    ensures EndsOtherwise(front, q)
  {
    front := "/api/content/" + dir + "/";
    assert "/api/content/" + (dir + "/" + name) == front + name;
    QuoteStays("/api/content/", dir, "/");
    EndsOtherwiseBetween("/api/content/", dir, "/", q);
  }

  /** The quotes of a text whose ends have none. */
  lemma QuotesBetween(a: string, u: string, b: string, i: nat)
    requires IsQuoteFree(a) && IsQuoteFree(b) && i < |a + u + b|
    ensures IsQuote((a + u + b)[i]) ==> |a| <= i < |a| + |u| && u[i - |a|] == (a + u + b)[i]
  {
    var s := a + u + b;
    if i < |a| {
      assert s[i] == a[i] && a[i] in a;
    } else if i >= |a| + |u| {
      assert s[i] == b[i - |a| - |u|] && b[i - |a| - |u|] in b;
    }
  }

  lemma EndsOtherwiseBetween(a: string, u: string, b: string, q: char)
    requires IsQuoteFree(a) && IsQuoteFree(b) && EndsOtherwise(u, q) && IsQuote(q)
    ensures EndsOtherwise(a + u + b, q)
  {
    var s := a + u + b;
    forall i | 0 <= i < |s| && s[i] == q ensures exists j :: i < j < |s| && IsQuote(s[j]) {
      QuotesBetween(a, u, b, i);
      var j :| i - |a| < j < |u| && IsQuote(u[j]);
      assert s[|a| + j] == u[j];
    }
  }

  lemma PlainNameIsNotSkipped(name: string)
    requires name == "src=" || name == "y"
    ensures !IsSkipped(name)
  {
    var prefixes := ["/", "#", "data:", "http:", "https:", "mailto:", "tel:"];
    forall prefix | prefix in prefixes ensures !StartsWith(name, prefix) {
      assert prefix[0] != 's' && prefix[0] != 'y';
    }
  }

  lemma TwoDots(s: string)
    ensures |s| > 1 && s[0] == '.' && s[1] == '.' ==> StartsWith(s, "..")
  {
  }

  lemma StaysOutside(dir: string, name: string)
    requires !StartsWith(dir, "..") && !IsQuoteFree(dir)
    ensures !StartsWith(dir + "/" + name, "..")
  {
    var resolved := dir + "/" + name;
    assert |dir| == 1 ==> IsQuote(dir[0]);
    assert resolved[0] == dir[0] && (|dir| > 1 ==> resolved[1] == dir[1]);
    TwoDots(dir);
  }

  lemma QuoteStays(a: string, dir: string, b: string)
    requires !IsQuoteFree(dir)
    ensures !IsQuoteFree(a + dir + b)
  {
    var c :| c in dir && IsQuote(c);
    assert c in a + dir + b;
  }

  lemma PostFront(dir: string, name: string, q: char) returns (front: string)
    requires !IsQuoteFree(dir) && StartsWith(dir + "/" + name, "posts/") && (name == "src=" || name == "y")
    requires EndsOtherwise(dir, q) && IsQuote(q)
    ensures "/post/" + RemoveSuffix(RemovePrefix(dir + "/" + name, "posts/"), "/index.md") == front + name
    ensures !IsQuoteFree(front) && StartsWith(front, "/") && EndsOtherwise(front, q)
  {
    QuoteIsBehindPosts(dir, name);
    var short := dir[6..];
    PostPrefix(dir, short, name);
    PostText(short, name);
    EndsOtherwiseLater(dir, q, 6);
    front := PostQuotes(short, q);
  }

  lemma PostPrefix(dir: string, short: string, name: string)
    requires dir == "posts/" + short
    ensures RemovePrefix(dir + "/" + name, "posts/") == short + "/" + name
  {
    assert dir + "/" + name == "posts/" + (short + "/" + name);
    assert ("posts/" + (short + "/" + name))[6..] == short + "/" + name;
  }

  lemma PostQuotes(short: string, q: char) returns (front: string)
    requires !IsQuoteFree(short) && EndsOtherwise(short, q) && IsQuote(q)
    ensures front == "/post/" + short + "/"
    ensures !IsQuoteFree(front) && StartsWith(front, "/") && EndsOtherwise(front, q)
  {
    front := "/post/" + short + "/";
    QuoteStays("/post/", short, "/");
    EndsOtherwiseBetween("/post/", short, "/", q);
  }

  lemma LastChar(text: string, suffix: string)
    requires text != "" && suffix != ""
    ensures EndsWith(text, suffix) ==> text[|text| - 1] == suffix[|suffix| - 1]
  {
    if EndsWith(text, suffix) {
      assert text[|text| - |suffix|..][|suffix| - 1] == suffix[|suffix| - 1];
    }
  }

  lemma PostText(short: string, name: string)
    requires name == "src=" || name == "y"
    ensures "/post/" + RemoveSuffix(short + "/" + name, "/index.md") == "/post/" + short + "/" + name
  {
    var text := short + "/" + name;
    LastChar(text, "/index.md");
    assert text[|text| - 1] == name[|name| - 1];
    assert "/post/" + text == "/post/" + short + "/" + name;
  }

  lemma QuoteIsBehindPosts(dir: string, name: string)
    requires !IsQuoteFree(dir) && StartsWith(dir + "/" + name, "posts/")
    ensures |dir| >= 6 && dir == "posts/" + dir[6..] && !IsQuoteFree(dir[6..])
  {
    var resolved := dir + "/" + name;
    assert resolved[..6] == "posts/";
    var c :| c in dir && IsQuote(c);
    var i :| 0 <= i < |dir| && dir[i] == c;
    assert forall j :: 0 <= j < 6 ==> resolved[j] == "posts/"[j] && !IsQuote("posts/"[j]);
    assert resolved[i] == c && i >= 6;
    assert dir[..6] == resolved[..6];
    assert dir[6..][i - 6] == c;
  }

  /** `src` with the value `src=`, and `y` with one more quote behind it. */
  function Witness(q: char): string {
    "src=" + [q] + "src=" + [q] + "y" + [q]
  }

  lemma WitnessScan(q: char)
    requires IsQuote(q)
    ensures Scan(Witness(q)) == [Attr("src", q, "src="), Lit('y'), Lit(q)]
  {
    var t := Attr("src", q, "src=");
    var rest := "y" + [q];
    assert Witness(q) == PrintToken(t) + rest;
    AttrIsFirst(t, rest);
    assert MatchLen(rest) == 0 && rest[1..] == [q];
    assert MatchLen([q]) == 0 && [q][1..] == "";
    assert Scan([q]) == [Lit(q)];
    assert Scan(rest) == [Lit('y'), Lit(q)];
  }

  lemma NewTokensOfThree(filePath: string, t: Token, a: char, b: char)
    ensures NewTokens(filePath, [t, Lit(a), Lit(b)]) == [NewToken(filePath, t)] + [Lit(a), Lit(b)]
  {
  }

  lemma WitnessTokens(filePath: string, q: char)
    requires IsQuote(q)
    ensures NewTokens(filePath, Scan(Witness(q))) == [Attr("src", q, NewValue(filePath, "src="))] + [Lit('y'), Lit(q)]
  {
    WitnessScan(q);
    NewTokensOfThree(filePath, Attr("src", q, "src="), 'y', q);
  }

  lemma PrintTwo(a: char, b: char)
    ensures Print([Lit(a), Lit(b)]) == [a, b]
  {
    PrintCons(Lit(a), [Lit(b)]);
    PrintCons(Lit(b), []);
    assert [Lit(a)] + [Lit(b)] == [Lit(a), Lit(b)] && [Lit(b)] + [] == [Lit(b)];
  }

  /** What the first pass makes of the witness: the attribute's value gets the directory's quotes. */
  lemma WitnessRewritten(filePath: string, q: char, front: string)
    requires IsQuote(q) && NewValue(filePath, "src=") == front + "src="
    ensures RewriteRelativeUrls(Witness(q), filePath) == ("src=" + [q] + front) + PrintToken(Attr("src", q, "y")) + ""
  {
    WitnessTokens(filePath, q);
    PrintCons(Attr("src", q, front + "src="), [Lit('y'), Lit(q)]);
    PrintTwo('y', q);
    WitnessText(q, front);
  }

  lemma WitnessText(q: char, front: string)
    ensures "src" + "=" + [q] + (front + "src=") + [q] + ("y" + [q])
            == ("src=" + [q] + front) + ("src" + "=" + [q] + "y" + [q]) + ""
    ensures "y" + [q] == ['y', q]
  {
  }

  /** The quotes in front are those of the directory: the last one is not the witness's own. */
  lemma FrontEndsOtherwise(front: string, q: char)
    requires !IsQuoteFree(front) && EndsOtherwise(front, q)
    ensures EndsOtherwise("src=" + [q] + front, q)
  {
    var u := "src=" + [q] + front;
    var c :| c in front && IsQuote(c);
    var k :| 0 <= k < |front| && front[k] == c;
    assert u[5 + k] == c;
    forall i | 0 <= i < |u| && u[i] == q ensures exists j :: i < j < |u| && IsQuote(u[j]) {
      if i < 5 {
        assert i < 5 + k;
      } else {
        assert front[i - 5] == q;
        var j :| i - 5 < j < |front| && IsQuote(front[j]);
        assert u[5 + j] == front[j];
      }
    }
  }

  /** A directory that brings a quote: the witness is rewritten once more by the second pass,
      and its scan is not the one of the first pass. */
  lemma WitnessIsRewrittenTwice(filePath: string, q: char)
    requires !BringsNoQuotes(filePath) && IsQuote(q) && EndsOtherwise(BaseOf(filePath), q)
    ensures !IsStable(Witness(q), filePath) && !OnlyValuesChangeIn(Witness(q), filePath)
  {
    var front := PlainNameGetsQuotes(filePath, "src=", q);
    WitnessRewritten(filePath, q, front);
    FrontEndsOtherwise(front, q);
    var once := RewriteRelativeUrls(Witness(q), filePath);
    var i := ScanReaches("src=" + [q] + front, q, "y", "");
    SecondPassChanges(filePath, once, i, q);
    WitnessTokensDiffer(filePath, q, front, once);
  }

  lemma SecondPassChanges(filePath: string, once: string, i: nat, q: char)
    requires !BringsNoQuotes(filePath) && IsQuote(q) && EndsOtherwise(BaseOf(filePath), q)
    requires i < |Scan(once)| && Scan(once)[i] == Attr("src", q, "y")
    ensures RewriteRelativeUrls(once, filePath) != once
  {
    ScanFacts(once);
    var front := PlainNameGetsQuotes(filePath, "y", q);
    assert |front + "y"| > 1;
    assert NewToken(filePath, Attr("src", q, "y")) == Attr("src", q, front + "y");
    ChangeShows(filePath, Scan(once), i);
  }

  lemma CanonicalHead(tokens: seq<Token>)
    requires Canonical(tokens)
    ensures tokens != [] && tokens[0].Attr? ==> IsQuoteFree(tokens[0].value)
  {
  }

  lemma HeadDiffers(x: seq<Token>, y: seq<Token>)
    requires Canonical(x) && y != [] && y[0].Attr? && !IsQuoteFree(y[0].value)
    ensures x != y
  {
    CanonicalHead(x);
  }

  lemma WitnessTokensDiffer(filePath: string, q: char, front: string, once: string)
    requires IsQuote(q) && !IsQuoteFree(front) && NewValue(filePath, "src=") == front + "src="
    ensures Scan(once) != NewTokens(filePath, Scan(Witness(q)))
  {
    WitnessTokens(filePath, q);
    ScanFacts(once);
    QuoteStays("", front, "src=");
    NothingInFront(front);
    HeadDiffers(Scan(once), [Attr("src", q, NewValue(filePath, "src="))] + [Lit('y'), Lit(q)]);
  }

  lemma NothingInFront(front: string)
    ensures "" + front + "src=" == front + "src="
  {
  }

  // ----- The laws

  /** Exactly for which files nothing outside the matched values changes, whatever the text: the directory, once
      normalised, has no quote, or starts with two dots. */
  lemma OnlyValuesChangeIff(filePath: string)
    ensures (forall html :: OnlyValuesChangeIn(html, filePath)) <==> BringsNoQuotes(filePath)
  {
    if BringsNoQuotes(filePath) {
      forall html ensures OnlyValuesChangeIn(html, filePath) {
        SameMatches(html, filePath);
      }
    } else {
      OtherQuoteEnds(BaseOf(filePath));
      WitnessIsRewrittenTwice(filePath, OtherQuote(BaseOf(filePath)));
    }
  }

  /** For the same files, rewriting twice is rewriting once, whatever the text. */
  lemma RewriteTwiceIff(filePath: string)
    ensures (forall html :: IsStable(html, filePath)) <==> BringsNoQuotes(filePath)
  {
    if BringsNoQuotes(filePath) {
      forall html ensures IsStable(html, filePath) {
        SecondPassIsIdle(html, filePath);
      }
    } else {
      OtherQuoteEnds(BaseOf(filePath));
      WitnessIsRewrittenTwice(filePath, OtherQuote(BaseOf(filePath)));
    }
  }

  // ----- A real file

  lemma {:induction false} AfterLastSlashIn(dir: string, file: string, i: nat)
    requires '/' !in file && |dir| + 1 <= i <= |dir| + 1 + |file|
    ensures AfterLastSlash(dir + "/" + file, i) == |dir| + 1
  {
    var path := dir + "/" + file;
    if i > |dir| + 1 {
      assert path[i - 1] == file[i - |dir| - 2] && file[i - |dir| - 2] in file;
      AfterLastSlashIn(dir, file, i - 1);
    } else {
      assert path[|dir|] == '/';
    }
  }

  lemma StripOneSlash(dir: string)
    requires dir != "" && dir[|dir| - 1] != '/'
    ensures StripTrailingSlashes(dir + "/") == dir
  {
    assert (dir + "/")[..|dir + "/"| - 1] == dir;
    assert StripTrailingSlashes(dir) == dir;
  }

  lemma DirNameOf(dir: string, file: string)
    requires '/' !in file && dir != "" && dir[|dir| - 1] != '/'
    ensures DirName(dir + "/" + file) == dir
  {
    var path := dir + "/" + file;
    AfterLastSlashIn(dir, file, |path|);
    assert path[..|dir| + 1] == dir + "/";
    StripOneSlash(dir);
    assert (dir + "/")[|dir| - 1] == dir[|dir| - 1];
    assert dir[|dir| - 1] in dir + "/";
  }

  lemma TwoParts(a: string, b: string)
    requires '/' !in a && '/' !in b && a != "" && b != "" && a[0] != '.' && b[0] != '.'
    ensures NormComps(false, Split(a + "/" + b, '/')) == [a, b]
  {
    SplitConcat(a, b, '/');
    SplitPart(a, '/');
    SplitPart(b, '/');
    assert [a] + [b] == [a, b];
    assert [a, b][..1] == [a] && [a][..0] == [];
    assert NormComps(false, []) == [] && NormComps(false, [a]) == [a];
  }

  lemma TwoComponents(a: string, b: string)
    requires '/' !in a && '/' !in b && a != "" && b != "" && a[0] != '.' && b[0] != '.'
    ensures NormPath(a + "/" + b) == a + "/" + b
  {
    var path := a + "/" + b;
    TwoParts(a, b);
    assert path[0] == a[0] && a[0] in a;
    assert InitialSlashes(path) == "";
    assert [a, b][..1] == [a];
    assert Join([a, b], '/') == path;
    assert "" + path == path;
  }

  /** A post whose slug has an apostrophe: the second pass rewrites the witness with double quotes again. */
  lemma ApostropheInSlug(slug: string)
    requires slug != "" && slug[0] != '.' && '/' !in slug && '\'' in slug && '"' !in slug
    ensures var filePath := "posts" + "/" + slug + "/" + "index.md";
            !IsStable(Witness('"'), filePath) && !OnlyValuesChangeIn(Witness('"'), filePath)
  {
    var dir := "posts" + "/" + slug;
    assert dir[|dir| - 1] == slug[|slug| - 1] && slug[|slug| - 1] in slug;
    DirNameOf(dir, "index.md");
    TwoComponents("posts", slug);
    assert '\'' in dir && dir[0] == 'p';
    forall i | 0 <= i < |dir| ensures dir[i] != '"' {
      assert dir[i] in "posts/" || dir[i] in slug;
    }
    WitnessIsRewrittenTwice(dir + "/" + "index.md", '"');
  }
}