/** The string operations of the host language that the modelled code relies on. */
module PyText {

  /** Whitespace as `str.strip` and `str.isspace` understand it. */
  predicate IsSpace(c: char) {
    || '\t' <= c <= '\r' || '\U{1c}' <= c <= ' '
    || c == '\U{85}' || c == '\U{a0}' || c == '\U{1680}'
    || '\U{2000}' <= c <= '\U{200a}' || c == '\U{2028}' || c == '\U{2029}'
    || c == '\U{202f}' || c == '\U{205f}' || c == '\U{3000}'
  }

  predicate IsBlank(s: string) {
    forall c <- s :: IsSpace(c)
  }

  /** The first position from `i` on that holds no whitespace, or the end. */
  function SkipSpaces(s: string, i: nat): (k: nat)
    requires i <= |s|
    ensures i <= k <= |s|
    ensures forall j :: i <= j < k ==> IsSpace(s[j])
    ensures k < |s| ==> !IsSpace(s[k])
    decreases |s| - i
  {
    if i < |s| && IsSpace(s[i]) then SkipSpaces(s, i + 1) else i
  }

  /** The last position from `from` up to `j` that follows no whitespace, or `from`. */
  function SkipSpacesBack(s: string, from: nat, j: nat): (k: nat)
    requires from <= j <= |s|
    ensures from <= k <= j
    ensures forall i :: k <= i < j ==> IsSpace(s[i])
    ensures k > from ==> !IsSpace(s[k - 1])
  {
    if from < j && IsSpace(s[j - 1]) then SkipSpacesBack(s, from, j - 1) else j
  }

  /** The end of the run of `c` at `i`. */
  function SkipChar(s: string, c: char, i: nat): (k: nat)
    requires i <= |s|
    ensures i <= k <= |s| && (forall j :: i <= j < k ==> s[j] == c) && (k < |s| ==> s[k] != c)
    decreases |s| - i
  {
    if i < |s| && s[i] == c then SkipChar(s, c, i + 1) else i
  }

  /** The first `c` from `i` on, or the end. */
  function FindChar(s: string, c: char, i: nat): (k: nat)
    requires i <= |s|
    ensures i <= k <= |s| && (forall j :: i <= j < k ==> s[j] != c) && (k < |s| ==> s[k] == c)
    decreases |s| - i
  {
    if i < |s| && s[i] != c then FindChar(s, c, i + 1) else i
  }

  /** `str.lstrip`. */
  function LStrip(s: string): string {
    s[SkipSpaces(s, 0)..]
  }

  /** `str.strip`. */
  function Strip(s: string): string {
    var from := SkipSpaces(s, 0);
    s[from..SkipSpacesBack(s, from, |s|)]
  }

  predicate IsStripped(s: string) {
    s == [] || (!IsSpace(s[0]) && !IsSpace(s[|s| - 1]))
  }

  /** `Strip` gives back exactly the strings without whitespace at either end, and is idempotent. */
  lemma StripFacts(s: string)
    ensures IsStripped(Strip(s))
    ensures Strip(s) == s <==> IsStripped(s)
    ensures Strip(Strip(s)) == Strip(s)
    ensures |Strip(s)| <= |s|
    ensures Strip(s) == [] <==> IsBlank(s)
  {
    StripIsStripped(s);
    StrippedIsFixed(Strip(s));
    if IsStripped(s) {
      StrippedIsFixed(s);
    }
    if IsBlank(s) {
      assert SkipSpaces(s, 0) == |s|;
    } else {
      var c :| c in s && !IsSpace(c);
      var i :| 0 <= i < |s| && s[i] == c;
      assert SkipSpaces(s, 0) <= i < SkipSpacesBack(s, SkipSpaces(s, 0), |s|);
    }
  }

  lemma StripIsStripped(s: string)
    ensures IsStripped(Strip(s))
  {
    var from := SkipSpaces(s, 0);
    var to := SkipSpacesBack(s, from, |s|);
    if from < to {
      assert Strip(s)[0] == s[from] && Strip(s)[to - from - 1] == s[to - 1];
    }
  }

  lemma StrippedIsFixed(s: string)
    requires IsStripped(s)
    ensures Strip(s) == s
  {
    if s != [] {
      assert SkipSpaces(s, 0) == 0 && SkipSpacesBack(s, 0, |s|) == |s|;
      assert s[0..|s|] == s;
    }
  }

  function LowerChar(c: char): char {
    if 'A' <= c <= 'Z' then (c as int + 32) as char else c
  }

  /** `str.lower` on the ASCII letters; other characters are left alone. */
  function Lower(s: string): (r: string)
    ensures |r| == |s| && forall i :: 0 <= i < |s| ==> r[i] == LowerChar(s[i])
  {
    seq(|s|, i requires 0 <= i < |s| => LowerChar(s[i]))
  }

  lemma LowerIdempotent(s: string)
    ensures Lower(Lower(s)) == Lower(s)
  {
  }

  predicate StartsWith(s: string, prefix: string) {
    prefix <= s
  }

  predicate EndsWith(s: string, suffix: string) {
    |suffix| <= |s| && s[|s| - |suffix|..] == suffix
  }

  lemma ConcatIsAssociative(a: string, b: string, c: string)
    ensures a + b + c == a + (b + c)
  {
  }

  /** `"".join(parts)`. */
  function Concat(parts: seq<string>): string {
    if parts == [] then "" else Concat(parts[..|parts| - 1]) + parts[|parts| - 1]
  }

  lemma ConcatSnoc(parts: seq<string>, s: string)
    ensures Concat(parts + [s]) == Concat(parts) + s
  {
    assert (parts + [s])[..|parts|] == parts;
  }

  lemma {:induction false} ConcatAppend(a: seq<string>, b: seq<string>)
    ensures Concat(a + b) == Concat(a) + Concat(b)
  {
    if b == [] {
      assert a + b == a;
    } else {
      var front, last := b[..|b| - 1], b[|b| - 1];
      assert b == front + [last];
      assert a + b == (a + front) + [last];
      ConcatSnoc(a + front, last);
      ConcatAppend(a, front);
      ConcatSnoc(front, last);
    }
  }

  // ----- Decimal numbers

  /** `str` of a number. */
  function Digits(n: nat): (s: string)
    ensures |s| > 0 && forall c <- s :: '0' <= c <= '9'
  {
    if n < 10 then [('0' as int + n) as char] else Digits(n / 10) + [('0' as int + n % 10) as char]
  }

  /** The number that some decimal digits stand for. */
  function Number(s: string): nat
    requires forall k :: 0 <= k < |s| ==> '0' <= s[k] <= '9'
  {
    if s == "" then 0 else Number(s[..|s| - 1]) * 10 + (s[|s| - 1] as int - '0' as int)
  }

  lemma {:induction false} DigitsReadBack(n: nat)
    ensures forall k :: 0 <= k < |Digits(n)| ==> '0' <= Digits(n)[k] <= '9'
    ensures Number(Digits(n)) == n
  {
    if n >= 10 {
      DigitsReadBack(n / 10);
      var last := ('0' as int + n % 10) as char;
      assert (Digits(n / 10) + [last])[..|Digits(n / 10)|] == Digits(n / 10);
    } else {
      assert Digits(n)[..0] == "";
    }
  }
}
