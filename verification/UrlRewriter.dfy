/** The single-pass rewriting of relative `src` and `href` values to absolute paths. */
module UrlRewriter {
  import opened PyText

  // ----- The pattern `(src|href)=(["'])([^"']*)\2`

  predicate IsQuote(c: char) { c == '"' || c == '\'' }

  predicate IsQuoteFree(s: string) {
    forall c <- s :: !IsQuote(c)
  }

  /** The length of the attribute name at the start of `s`, or zero. */
  function NameLen(s: string): (n: nat)
    ensures n == 0 || (n == 3 && "src=" <= s) || (n == 4 && "href=" <= s)
  {
    if StartsWith(s, "src=") then 3 else if StartsWith(s, "href=") then 4 else 0
  }

  /** The position of the first quote from `i` on, or the length. */
  function QuoteAt(s: string, i: nat): (k: nat)
    requires i <= |s|
    ensures i <= k <= |s| && (k < |s| ==> IsQuote(s[k])) && forall j :: i <= j < k ==> !IsQuote(s[j])
    decreases |s| - i
  {
    if i == |s| || IsQuote(s[i]) then i else QuoteAt(s, i + 1)
  }

  /** The length of the match at the start of `s`, or zero. */
  function MatchLen(s: string): (len: nat)
    ensures len <= |s|
  {
    var n := NameLen(s);
    if n == 0 || n + 1 >= |s| || !IsQuote(s[n + 1]) then 0
    else
      var k := QuoteAt(s, n + 2);
      if k < |s| && s[k] == s[n + 1] then k + 1 else 0
  }

  // ----- The text as a list of matches and characters between them

  datatype Token = Lit(c: char) | Attr(name: string, quote: char, value: string)

  function PrintToken(t: Token): string {
    match t
    case Lit(c) => [c]
    case Attr(name, quote, value) => name + "=" + [quote] + value + [quote]
  }

  function Print(tokens: seq<Token>): string {
    if tokens == [] then "" else PrintToken(tokens[0]) + Print(tokens[1..])
  }

  /** The match at the start of the text, or else its first character. */
  function FirstToken(s: string): Token
    requires s != ""
  {
    var n, len := NameLen(s), MatchLen(s);
    if len == 0 then Lit(s[0]) else Attr(s[..n], s[n + 1], s[n + 2..len - 1])
  }

  function FirstLen(s: string): (k: nat)
    requires s != ""
    ensures 0 < k <= |s|
  {
    if MatchLen(s) == 0 then 1 else MatchLen(s)
  }

  /** The leftmost, non-overlapping matches, as a scan from left to right finds them. */
  function Scan(s: string): seq<Token>
    decreases |s|
  {
    if s == "" then [] else [FirstToken(s)] + Scan(s[FirstLen(s)..])
  }

  ghost predicate IsAttr(t: Token) {
    t.Attr? && (t.name == "src" || t.name == "href") && IsQuote(t.quote) && IsQuoteFree(t.value)
  }

  /** Tokens that a scan of their own text finds again. */
  ghost predicate Canonical(tokens: seq<Token>) {
    forall i :: 0 <= i < |tokens| ==>
      if tokens[i].Lit? then MatchLen(Print(tokens[i..])) == 0 else IsAttr(tokens[i])
  }

  lemma CanonicalTail(tokens: seq<Token>)
    requires tokens != [] && Canonical(tokens)
    ensures Canonical(tokens[1..])
  {
    forall i | 0 <= i < |tokens| - 1 ensures tokens[1..][i..] == tokens[i + 1..] && tokens[1..][i] == tokens[i + 1] {}
  }

  lemma CanonicalCons(t: Token, tokens: seq<Token>)
    requires Canonical(tokens) && (if t.Lit? then MatchLen(Print([t] + tokens)) == 0 else IsAttr(t))
    ensures Canonical([t] + tokens)
  {
    var all := [t] + tokens;
    assert all[0..] == all;
    forall i | 1 <= i < |all| ensures all[i..] == tokens[i - 1..] && all[i] == tokens[i - 1] {}
  }

  /** An attribute token is matched as it stands, whatever follows. */
  lemma AttrMatches(t: Token, rest: string)
    requires IsAttr(t)
    ensures var s := PrintToken(t) + rest;
            && MatchLen(s) == |PrintToken(t)| && NameLen(s) == |t.name|
            && s[..|t.name|] == t.name && s[|t.name| + 1] == t.quote && s[|t.name| + 2..|PrintToken(t)| - 1] == t.value
            && s[|PrintToken(t)|..] == rest
  {
    var s := PrintToken(t) + rest;
    var n := |t.name|;
    var m := |PrintToken(t)|;
    assert m == n + |t.value| + 3;
    assert s[..n] == t.name && s[n] == '=';
    assert NameLen(s) == n by {
      if t.name == "href" {
        assert s[0] == 'h';
      } else {
        assert s[..4] == "src=";
      }
    }
    assert s[n + 1] == t.quote;
    assert s[n + 2..m - 1] == t.value;
    assert s[m - 1] == t.quote;
    forall j | n + 2 <= j < m - 1 ensures !IsQuote(s[j]) {
      assert s[j] == s[n + 2..m - 1][j - n - 2] && s[j] in t.value;
    }
    assert QuoteAt(s, n + 2) == m - 1;
  }

  /** Scanning loses nothing, and finds tokens that are found again. */
  lemma {:induction false} ScanFacts(s: string)
    ensures Print(Scan(s)) == s && Canonical(Scan(s))
    decreases |s|
  {
    if s != "" {
      var t, rest := FirstToken(s), s[FirstLen(s)..];
      FirstTokenFacts(s);
      ScanFacts(rest);
      PrintCons(t, Scan(rest));
      CutAt(s, FirstLen(s));
      CanonicalCons(t, Scan(rest));
    }
  }

  lemma CutAt(s: string, k: nat)
    requires k <= |s|
    ensures s == s[..k] + s[k..]
  {
  }

  lemma FirstTokenFacts(s: string)
    requires s != ""
    ensures PrintToken(FirstToken(s)) == s[..FirstLen(s)]
    ensures if FirstToken(s).Lit? then MatchLen(s) == 0 else IsAttr(FirstToken(s))
  {
    if MatchLen(s) > 0 {
      MatchedIsAttr(s);
    }
  }

  lemma Slices(s: string, n: nat, len: nat)
    requires n + 3 <= len <= |s|
    ensures s[..len] == s[..n] + [s[n]] + [s[n + 1]] + s[n + 2..len - 1] + [s[len - 1]]
  {
    assert s[..n + 1] == s[..n] + [s[n]];
    assert s[..n + 2] == s[..n + 1] + [s[n + 1]];
    assert s[..len - 1] == s[..n + 2] + s[n + 2..len - 1];
    assert s[..len] == s[..len - 1] + [s[len - 1]];
  }

  lemma PrintCons(t: Token, tokens: seq<Token>)
    ensures Print([t] + tokens) == PrintToken(t) + Print(tokens)
  {
    assert ([t] + tokens)[1..] == tokens;
  }

  lemma MatchedIsAttr(s: string)
    requires MatchLen(s) > 0
    ensures var n, len := NameLen(s), MatchLen(s);
            && n + 3 <= len <= |s|
            && IsAttr(Attr(s[..n], s[n + 1], s[n + 2..len - 1]))
            && PrintToken(Attr(s[..n], s[n + 1], s[n + 2..len - 1])) == s[..len]
  {
    var n, len := NameLen(s), MatchLen(s);
    assert len - 1 == QuoteAt(s, n + 2);
    var value := s[n + 2..len - 1];
    forall c | c in value ensures !IsQuote(c) {
      var j :| 0 <= j < |value| && value[j] == c;
      assert s[n + 2 + j] == c;
    }
    assert s[n] == '=';
    Slices(s, n, len);
    assert s[len - 1] == s[n + 1];
  }

  lemma AttrIsFirst(t: Token, rest: string)
    requires IsAttr(t)
    ensures var s := PrintToken(t) + rest;
            s != "" && FirstToken(s) == t && s[FirstLen(s)..] == rest
  {
    AttrMatches(t, rest);
  }

  lemma LitIsFirst(c: char, rest: string)
    requires MatchLen([c] + rest) == 0
    ensures var s := [c] + rest;
            s != "" && FirstToken(s) == Lit(c) && s[FirstLen(s)..] == rest
  {
  }

  /** Scanning the text of canonical tokens gives the tokens. */
  lemma {:induction false} ScanPrint(tokens: seq<Token>)
    requires Canonical(tokens)
    ensures Scan(Print(tokens)) == tokens
  {
    if tokens != [] {
      var t, rest := tokens[0], tokens[1..];
      assert tokens[0..] == tokens && tokens == [t] + rest;
      CanonicalTail(tokens);
      ScanPrint(rest);
      if t.Attr? {
        AttrIsFirst(t, Print(rest));
      } else {
        LitIsFirst(t.c, Print(rest));
      }
    }
  }
}
