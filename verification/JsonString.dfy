/** JSON string literals (section 7 of RFC 8259) as the host language writes and reads them. */
module JsonString {
  import opened Options
  import opened PyText

  // ----- Writing: only printable ASCII is left as it is

  predicate IsPrintable(c: char) { ' ' <= c <= '~' }

  function HexDigit(n: nat): char
    requires n < 16
  {
    if n < 10 then ('0' as int + n) as char else ('a' as int + n - 10) as char
  }

  /** `\uXXXX`. */
  function UnicodeEscape(n: nat): (r: string)
    requires n < 0x10000
    ensures |r| == 6 && forall c <- r :: IsPrintable(c)
  {
    ['\\', 'u', HexDigit(n / 0x1000), HexDigit(n / 0x100 % 0x10), HexDigit(n / 0x10 % 0x10), HexDigit(n % 0x10)]
  }

  /** The letter after the backslash, for the characters that have one. */
  function EscapeLetter(c: char): (r: Option<char>)
    ensures r.Some? ==> IsPrintable(r.value)
  {
    match c
    case '"' => Some('"')
    case '\\' => Some('\\')
    case '\n' => Some('n')
    case '\r' => Some('r')
    case '\t' => Some('t')
    case '\U{c}' => Some('f')
    case '\U{8}' => Some('b')
    case _ => None
  }

  function DumpChar(c: char): (r: string)
    ensures r != [] && forall d <- r :: IsPrintable(d)
  {
    var letter := EscapeLetter(c);
    if letter.Some? then ['\\', letter.value]
    else if IsPrintable(c) then [c]
    else
      var n := c as int;
      if n < 0x10000 then UnicodeEscape(n) else SurrogatePair(n)
  }

  /** The two escapes of a character beyond the basic plane. */
  function SurrogatePair(n: nat): (r: string)
    requires 0x10000 <= n < 0x110000
    ensures forall d <- r :: IsPrintable(d)
    ensures |r| == 12
  {
    UnicodeEscape(0xD800 + (n - 0x10000) / 0x400) + UnicodeEscape(0xDC00 + (n - 0x10000) % 0x400)
  }

  function DumpChars(s: string): (r: string)
    ensures forall c <- r :: IsPrintable(c)
  {
    if s == "" then "" else DumpChar(s[0]) + DumpChars(s[1..])
  }

  /** `json.dumps` of a string. */
  function Dumps(s: string): (r: string)
    ensures forall c <- r :: IsPrintable(c)
    ensures |r| >= 2 && r[0] == '"' && r[|r| - 1] == '"'
  {
    "\"" + DumpChars(s) + "\""
  }

  // ----- Reading

  function HexValue(c: char): (r: Option<nat>)
    ensures r.Some? ==> r.value < 16
  {
    if '0' <= c <= '9' then Some(c as int - '0' as int)
    else if 'a' <= c <= 'f' then Some(c as int - 'a' as int + 10)
    else if 'A' <= c <= 'F' then Some(c as int - 'A' as int + 10)
    else None
  }

  /** The four hex digits at the start of `s`. */
  function Hex4(s: string): (r: Option<nat>)
    ensures r.Some? ==> r.value < 0x10000
  {
    if |s| < 4 || HexValue(s[0]).None? || HexValue(s[1]).None? || HexValue(s[2]).None? || HexValue(s[3]).None? then None
    else Some(((HexValue(s[0]).value * 16 + HexValue(s[1]).value) * 16 + HexValue(s[2]).value) * 16
        + HexValue(s[3]).value)
  }

  datatype Parsed = Parsed(value: string, rest: string)

  function Prepend(c: char, p: Option<Parsed>): Option<Parsed> {
    if p.None? then None else Some(Parsed([c] + p.value.value, p.value.rest))
  }

  function SimpleEscape(c: char): Option<char> {
    match c
    case '"' => Some('"')
    case '\\' => Some('\\')
    case '/' => Some('/')
    case 'b' => Some('\U{8}')
    case 'f' => Some('\U{c}')
    case 'n' => Some('\n')
    case 'r' => Some('\r')
    case 't' => Some('\t')
    case _ => None
  }

  /** Reads characters up to and including the closing quote. An unpaired surrogate, which
      the host language would keep, is not a character here and counts as an error. */
  function LoadChars(s: string): (r: Option<Parsed>)
    ensures r.Some? ==> |r.value.rest| < |s|
    decreases |s|
  {
    if s == "" then None
    else if s[0] == '"' then Some(Parsed("", s[1..]))
    else if s[0] < ' ' then None
    else if s[0] != '\\' then Prepend(s[0], LoadChars(s[1..]))
    else if |s| < 2 then None
    else if s[1] != 'u' then
      var e := SimpleEscape(s[1]);
      if e.None? then None else Prepend(e.value, LoadChars(s[2..]))
    else
      var high := Hex4(s[2..]);
      if high.None? then None
      else if !(0xD800 <= high.value < 0xE000) then Prepend(high.value as char, LoadChars(s[6..]))
      else if high.value < 0xDC00 && |s| >= 12 && s[6] == '\\' && s[7] == 'u' then
        var low := Hex4(s[8..]);
        if low.None? || !(0xDC00 <= low.value < 0xE000) then None
        else Prepend((0x10000 + (high.value - 0xD800) * 0x400 + (low.value - 0xDC00)) as char, LoadChars(s[12..]))
      else None
  }

  /** `json.loads` of a text that starts with a quote. */
  function Loads(s: string): Option<string> {
    if s == "" || s[0] != '"' then None
    else
      var p := LoadChars(s[1..]);
      if p.Some? && forall c <- p.value.rest :: c in " \t\n\r" then Some(p.value.value) else None
  }

  // ----- Reading undoes writing

  lemma HexDigitValue(n: nat)
    requires n < 16
    ensures HexValue(HexDigit(n)) == Some(n)
  {
  }

  lemma UnicodeEscapeReads(n: nat, rest: string)
    requires n < 0x10000
    ensures var s := UnicodeEscape(n) + rest;
            |s| >= 6 && s[0] == '\\' && s[1] == 'u' && s[6..] == rest && Hex4(s[2..]) == Some(n)
  {
    HexDigitValue(n / 0x1000);
    HexDigitValue(n / 0x100 % 0x10);
    HexDigitValue(n / 0x10 % 0x10);
    HexDigitValue(n % 0x10);
    HexPlaces(n);
    var s := UnicodeEscape(n) + rest;
    var t := s[2..];
    assert t[0] == HexDigit(n / 0x1000) && t[1] == HexDigit(n / 0x100 % 0x10);
    assert t[2] == HexDigit(n / 0x10 % 0x10) && t[3] == HexDigit(n % 0x10);
  }

  lemma HexPlaces(n: nat)
    requires n < 0x10000
    ensures ((n / 0x1000 * 16 + n / 0x100 % 0x10) * 16 + n / 0x10 % 0x10) * 16 + n % 0x10 == n
  {
    var a, b := n / 0x10, n / 0x100;
    Quotients(n);
    assert n == 16 * a + n % 16;
    assert a == 16 * b + a % 16;
    assert b == 16 * (n / 0x1000) + b % 16;
  }

  lemma Quotients(n: nat)
    ensures n / 0x100 == n / 0x10 / 0x10 && n / 0x1000 == n / 0x100 / 0x10
  {
  }

  lemma PairReads(s: string, high: nat, low: nat)
    requires |s| >= 12 && s[0] == s[6] == '\\' && s[1] == s[7] == 'u'
    requires Hex4(s[2..]) == Some(high) && Hex4(s[8..]) == Some(low)
    requires 0xD800 <= high < 0xDC00 <= low < 0xE000
    ensures LoadChars(s) == Prepend((0x10000 + (high - 0xD800) * 0x400 + (low - 0xDC00)) as char, LoadChars(s[12..]))
  {
  }

  lemma SurrogatesRead(n: nat, rest: string)
    requires 0x10000 <= n < 0x110000
    ensures LoadChars(SurrogatePair(n) + rest) == Prepend(n as char, LoadChars(rest))
  {
    var high, low := 0xD800 + (n - 0x10000) / 0x400, 0xDC00 + (n - 0x10000) % 0x400;
    var tail := UnicodeEscape(low) + rest;
    var s := SurrogatePair(n) + rest;
    assert s == UnicodeEscape(high) + tail;
    UnicodeEscapeReads(high, tail);
    UnicodeEscapeReads(low, rest);
    assert s[6] == tail[0] && s[7] == tail[1];
    assert s[8..] == s[6..][2..] && s[12..] == s[6..][6..];
    PairReads(s, high, low);
  }

  lemma PlainReads(c: char, rest: string)
    requires IsPrintable(c) && c != '"' && c != '\\'
    ensures LoadChars([c] + rest) == Prepend(c, LoadChars(rest))
  {
    assert ([c] + rest)[1..] == rest;
  }

  lemma LetterReads(c: char, rest: string)
    requires EscapeLetter(c).Some?
    ensures LoadChars(['\\', EscapeLetter(c).value] + rest) == Prepend(c, LoadChars(rest))
  {
    var e := EscapeLetter(c).value;
    var s := ['\\', e] + rest;
    assert SimpleEscape(e) == Some(c);
    assert s[0] == '\\' && s[1] == e && s[2..] == rest;
  }

  lemma UnicodeReads(c: char, rest: string)
    requires c as int < 0x10000
    ensures LoadChars(UnicodeEscape(c as int) + rest) == Prepend(c, LoadChars(rest))
  {
    UnicodeEscapeReads(c as int, rest);
  }

  lemma DumpCharReads(c: char, rest: string)
    ensures LoadChars(DumpChar(c) + rest) == Prepend(c, LoadChars(rest))
  {
    if EscapeLetter(c).Some? {
      LetterReads(c, rest);
    } else if IsPrintable(c) {
      PlainReads(c, rest);
    } else if c as int < 0x10000 {
      UnicodeReads(c, rest);
    } else {
      SurrogatesRead(c as int, rest);
    }
  }

  lemma {:induction false} DumpCharsRead(s: string, rest: string)
    ensures LoadChars(DumpChars(s) + "\"" + rest) == Some(Parsed(s, rest))
  {
    if s == "" {
      assert DumpChars(s) + "\"" + rest == "\"" + rest;
      assert ("\"" + rest)[1..] == rest;
    } else {
      var tail := DumpChars(s[1..]) + "\"" + rest;
      assert DumpChars(s) + "\"" + rest == DumpChar(s[0]) + tail;
      DumpCharReads(s[0], tail);
      DumpCharsRead(s[1..], rest);
      assert s == [s[0]] + s[1..];
    }
  }

  /** Every string comes back from its JSON literal. */
  lemma LoadsDumps(s: string)
    ensures Loads(Dumps(s)) == Some(s)
  {
    DumpCharsRead(s, "");
    assert Dumps(s)[1..] == DumpChars(s) + "\"" + "";
  }
}
