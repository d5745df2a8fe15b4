/** What a value with line breaks in it becomes when it is written without quotes. */
module EnvLines {
  import opened Options
  import opened PyText
  import opened EnvFile

  const SECRET_KEYS: set<string> := {"SECRET_KEY", "ADMIN_USERNAME", "ADMIN_PASSWORD", "ADMIN_DISPLAY_NAME"}

  /** The line reads as an entry under the name of a secret. */
  predicate NamesSecret(line: string) {
    var entry := ParseLine(line);
    entry.Some? && entry.value.key in SECRET_KEYS
  }

  predicate AreHarmless(lines: seq<string>) {
    forall l <- lines :: !NamesSecret(l)
  }

  /** No line but the first names a secret. */
  predicate LaterAreHarmless(lines: seq<string>) {
    forall i :: 0 < i < |lines| ==> !NamesSecret(lines[i])
  }

  /** No line of the text but the first reads as an entry under the name of a secret. */
  predicate LaterLinesAreHarmless(text: string) {
    LaterAreHarmless(SplitLines(text + "\n"))
  }

  lemma {:induction false} NamedSecretsAreRead(lines: seq<string>)
    ensures ParseLines(lines).Keys !! SECRET_KEYS <==> AreHarmless(lines)
  {
    if lines != [] {
      var front, last := lines[..|lines| - 1], lines[|lines| - 1];
      assert lines == front + [last];
      NamedSecretsAreRead(front);
      assert AreHarmless(lines) <==> AreHarmless(front) && !NamesSecret(last);
    }
  }

  lemma HarmlessParts(a: seq<string>, b: seq<string>)
    ensures AreHarmless(a + b) <==> AreHarmless(a) && AreHarmless(b)
  {
    forall l | l in a ensures l in a + b {}
    forall l | l in b ensures l in a + b {}
  }

  lemma LaterThanFirst(first: string, later: seq<string>)
    ensures LaterAreHarmless([first] + later) <==> AreHarmless(later)
    ensures AreHarmless([first] + later) <==> !NamesSecret(first) && AreHarmless(later)
  {
    var lines := [first] + later;
    assert forall i :: 0 <= i < |later| ==> lines[i + 1] == later[i];
    if AreHarmless(later) {
      assert forall i :: 0 < i < |lines| ==> lines[i] == later[i - 1];
    }
  }

  // ----- Lines within lines

  lemma ConcatHasNoBreak(a: string, b: string)
    requires HasNoBreak(a) && HasNoBreak(b)
    ensures HasNoBreak(a + b)
  {
  }

  lemma OneLine(line: string)
    requires HasNoBreak(line)
    ensures SplitLines(line + "\n") == [line]
  {
    SplitFirst(line, "");
    assert line + "\n" + "" == line + "\n" && [line] + [] == [line];
  }

  /** Where the line after the break at `k` begins. */
  function NextLine(s: string, k: nat): nat
    requires k < |s|
  {
    if s[k] == '\r' && k + 1 < |s| && s[k + 1] == '\n' then k + 2 else k + 1
  }

  /** The first break of `s` is at `k`. */
  predicate IsFirstBreak(s: string, k: nat) {
    k < |s| && IsLineBreak(s[k]) && forall j :: 0 <= j < k ==> !IsLineBreak(s[j])
  }

  lemma FirstBreak(s: string) returns (k: nat)
    requires !HasNoBreak(s)
    ensures IsFirstBreak(s, k)
  {
    var c :| c in s && IsLineBreak(c);
    var i :| 0 <= i < |s| && s[i] == c;
    k := BreakAt(s, 0);
  }

  lemma SplitAtBreak(s: string, k: nat)
    requires IsFirstBreak(s, k)
    ensures SplitLines(s) == [s[..k]] + SplitLines(s[NextLine(s, k)..])
  {
    assert BreakAt(s, 0) == k;
  }

  lemma SplitInto(s: string, k: nat, first: string, rest: string)
    requires IsFirstBreak(s, k) && first == s[..k] && rest == s[NextLine(s, k)..]
    ensures SplitLines(s) == [first] + SplitLines(rest)
  {
    SplitAtBreak(s, k);
  }

  lemma SplitInFront(a: string, more: string, k: nat)
    requires IsFirstBreak(a, k)
    ensures SplitLines(a + more) == [a[..k]] + SplitLines((a + more)[NextLine(a + more, k)..])
  {
    assert (a + more)[k] == a[k] && (a + more)[..k] == a[..k];
    SplitAtBreak(a + more, k);
  }

  /** The line after the first break of a text begins within the text, or behind the line feed that follows it. */
  lemma NextBeforeFeed(a: string, rest: string, k: nat)
    requires k < |a|
    ensures var next := NextLine(a + "\n", k);
            && next <= |a| + 1 && NextLine(a + "\n" + rest, k) == next
            && (a + "\n" + rest)[next..] == (a + "\n")[next..] + rest
            && (next <= |a| ==> (a + "\n")[next..] == a[next..] + "\n")
            && (next > |a| ==> (a + "\n")[next..] == "")
  {
  }

  lemma Regrouped(first: string, more: seq<string>, rest: seq<string>)
    ensures [first] + (more + rest) == [first] + more + rest
  {
  }

  lemma {:induction false} SplitAtFeed(a: string, rest: string)
    ensures SplitLines(a + "\n" + rest) == SplitLines(a + "\n") + SplitLines(rest)
    decreases |a|
  {
    if HasNoBreak(a) {
      OneLine(a);
      SplitFirst(a, rest);
    } else {
      var k := FirstBreak(a);
      var next := NextLine(a + "\n", k);
      NextBeforeFeed(a, rest, k);
      SplitInFront(a, "\n", k);
      SplitInFront(a, "\n" + rest, k);
      ConcatIsAssociative(a, "\n", rest);
      Regrouped(a[..k], SplitLines((a + "\n")[next..]), SplitLines(rest));
      if next <= |a| {
        SplitAtFeed(a[next..], rest);
      } else {
        assert "" + rest == rest && [] + SplitLines(rest) == SplitLines(rest);
      }
    }
  }

  lemma {:induction false} HarmlessLines(lines: seq<string>)
    ensures AreHarmless(SplitLines(Unlines(lines))) <==> forall l <- lines :: AreHarmless(SplitLines(l + "\n"))
  {
    if lines != [] {
      var head, tail := lines[0], lines[1..];
      assert lines == [head] + tail;
      HarmlessLines(tail);
      SplitAtFeed(head, Unlines(tail));
      HarmlessParts(SplitLines(head + "\n"), SplitLines(Unlines(tail)));
    }
  }

  lemma BreakBehindPrefix(prefix: string, s: string, k: nat)
    requires HasNoBreak(prefix) && IsFirstBreak(s, k)
    ensures IsFirstBreak(prefix + s, |prefix| + k)
    ensures (prefix + s)[..|prefix| + k] == prefix + s[..k]
    ensures NextLine(prefix + s, |prefix| + k) == |prefix| + NextLine(s, k)
    ensures (prefix + s)[|prefix| + NextLine(s, k)..] == s[NextLine(s, k)..]
  {
    forall j | 0 <= j < |prefix| + k ensures !IsLineBreak((prefix + s)[j]) {
      if j < |prefix| {
        assert prefix[j] in prefix;
      } else {
        assert (prefix + s)[j] == s[j - |prefix|];
      }
    }
  }

  lemma SplitBehindPrefix(prefix: string, s: string, k: nat)
    requires HasNoBreak(prefix) && IsFirstBreak(s, k)
    ensures SplitLines(prefix + s) == [prefix + s[..k]] + SplitLines(s[NextLine(s, k)..])
  {
    BreakBehindPrefix(prefix, s, k);
    SplitInto(prefix + s, |prefix| + k, prefix + s[..k], s[NextLine(s, k)..]);
  }

  /** A prefix goes to the first line. */
  lemma SplitAfterPrefix(prefix: string, text: string) returns (first: string, later: seq<string>)
    requires HasNoBreak(prefix)
    ensures SplitLines(text + "\n") == [first] + later
    ensures SplitLines(prefix + (text + "\n")) == [prefix + first] + later
  {
    var s := text + "\n";
    assert s[|text|] == '\n' && IsLineBreak('\n');
    assert s[|text|] in s;
    var k := FirstBreak(s);
    first, later := s[..k], SplitLines(s[NextLine(s, k)..]);
    SplitAtBreak(s, k);
    SplitBehindPrefix(prefix, s, k);
  }

  /** A line whose beginning settles that it names no secret. */
  lemma PrefixedLine(prefix: string, text: string)
    requires HasNoBreak(prefix)
    requires forall first: string :: !NamesSecret(prefix + first)
    ensures AreHarmless(SplitLines(prefix + text + "\n")) <==> LaterLinesAreHarmless(text)
  {
    var first, later := SplitAfterPrefix(prefix, text);
    ConcatIsAssociative(prefix, text, "\n");
    LaterThanFirst(first, later);
    LaterThanFirst(prefix + first, later);
  }

  // ----- The notes behind the values

  /** A note: it holds neither an equals sign nor a line break, and reads as a comment by itself. */
  predicate IsNote(note: string) {
    HasNoBreak(note) && '=' !in note && StartsWith(note, "  #")
  }

  /** The stripped line begins with the first character that is not a space. */
  lemma StrippedLine(raw: string) returns (end: nat)
    requires !IsBlank(raw)
    ensures var from := SkipSpaces(raw, 0);
            && from < end <= |raw| && Strip(raw) == raw[from..end] && forall j :: end <= j < |raw| ==> IsSpace(raw[j])
  {
    StripFacts(raw);
    end := SkipSpacesBack(raw, SkipSpaces(raw, 0), |raw|);
  }

  lemma NoEntry(raw: string)
    requires IsBlank(raw) || raw[SkipSpaces(raw, 0)] == '#' || '=' !in raw
    ensures ParseLine(raw).None?
  {
    StripFacts(raw);
    if !IsBlank(raw) {
      var end := StrippedLine(raw);
      assert forall c <- Strip(raw) :: c in raw;
    }
  }

  lemma FirstEquals(raw: string, from: nat, end: nat, eq: nat)
    requires from <= eq < end <= |raw| && raw[eq] == '=' && '=' !in raw[from..eq]
    ensures IndexOf(raw[from..end], '=', 0) == eq - from
  {
    var line := raw[from..end];
    assert line[eq - from] == '=';
    forall j | 0 <= j < eq - from ensures line[j] != '=' {
      assert line[j] == raw[from..eq][j];
    }
  }

  lemma FrontOfSlice(raw: string, from: nat, eq: nat, end: nat)
    requires from <= eq <= end <= |raw|
    ensures raw[from..end][..eq - from] == raw[from..eq]
  {
  }

  lemma KeyOfLine(raw: string, line: string, eq: nat)
    requires line == Strip(raw) && eq < |line| && line[0] != '#' && IndexOf(line, '=', 0) == eq
    ensures ParseLine(raw).Some? && ParseLine(raw).value.key == Strip(line[..eq])
  {
  }

  lemma KeyOfEntry(raw: string, eq: nat)
    requires SkipSpaces(raw, 0) <= eq < |raw| && raw[SkipSpaces(raw, 0)] != '#'
    requires raw[eq] == '=' && '=' !in raw[SkipSpaces(raw, 0)..eq]
    ensures ParseLine(raw).Some? && ParseLine(raw).value.key == Strip(raw[SkipSpaces(raw, 0)..eq])
  {
    var from := SkipSpaces(raw, 0);
    assert raw[eq] in raw;
    var end := StrippedLine(raw);
    FirstEquals(raw, from, end, eq);
    FrontOfSlice(raw, from, eq, end);
    KeyOfLine(raw, raw[from..end], eq - from);
  }

  /** A note behind a line does not change the name that the line assigns. */
  lemma NoteKeepsName(text: string, note: string)
    requires IsNote(note)
    ensures NamesSecret(text + note) <==> NamesSecret(text)
  {
    var raw, from := text + note, SkipSpaces(text, 0);
    if from == |text| {
      NoteBehindSpaces(text, note);
      NoEntry(raw);
      NoEntry(text);
    } else {
      SkipInFront(text, note);
      assert text[from] in text && raw[from] in raw;
      if text[from] == '#' || '=' !in text {
        NoEntry(raw);
        NoEntry(text);
      } else {
        var eq := IndexOf(text, '=', 0);
        FirstEqualsBehindSpaces(text, eq);
        SliceOfFront(text, note, from, eq);
        KeyOfEntry(text, eq);
        KeyOfEntry(raw, eq);
      }
    }
  }

  lemma SliceOfFront(text: string, note: string, from: nat, eq: nat)
    requires from <= eq <= |text|
    ensures (text + note)[from..eq] == text[from..eq]
  {
  }

  lemma SkipInFront(text: string, note: string)
    requires SkipSpaces(text, 0) < |text|
    ensures SkipSpaces(text + note, 0) == SkipSpaces(text, 0)
    ensures (text + note)[SkipSpaces(text, 0)] == text[SkipSpaces(text, 0)]
  {
    var raw := text + note;
    assert forall j :: 0 <= j < |text| ==> raw[j] == text[j];
    assert !(SkipSpaces(text, 0) < SkipSpaces(raw, 0));
    assert !(SkipSpaces(raw, 0) < SkipSpaces(text, 0));
  }

  lemma NoteBehindSpaces(text: string, note: string)
    requires IsNote(note) && SkipSpaces(text, 0) == |text|
    ensures IsBlank(text) && SkipSpaces(text + note, 0) == |text| + 2 && (text + note)[|text| + 2] == '#'
  {
    var raw := text + note;
    assert raw[|text|] == note[0] && raw[|text| + 1] == note[1] && raw[|text| + 2] == note[2];
    assert forall j :: 0 <= j < |text| ==> raw[j] == text[j];
  }

  lemma FirstEqualsBehindSpaces(text: string, eq: nat)
    requires '=' in text && eq == IndexOf(text, '=', 0)
    ensures SkipSpaces(text, 0) <= eq < |text| && text[eq] == '=' && '=' !in text[SkipSpaces(text, 0)..eq]
  {
    var i :| 0 <= i < |text| && text[i] == '=';
    forall c | c in text[SkipSpaces(text, 0)..eq] ensures c != '=' {
      var j :| 0 <= j < |text[SkipSpaces(text, 0)..eq]| && text[SkipSpaces(text, 0)..eq][j] == c;
      assert text[SkipSpaces(text, 0) + j] == c;
    }
  }

  /** Behind the first break of a text, a note changes nothing but the end of the last line. */
  lemma NextBeforeNote(a: string, note: string, k: nat)
    requires k < |a| && IsNote(note)
    ensures var next, noted := NextLine(a + "\n", k), NextLine(a + note + "\n", k);
            if next <= |a| then
              noted == next && (a + "\n")[next..] == a[next..] + "\n"
              && (a + note + "\n")[next..] == a[next..] + note + "\n"
            else (a + "\n")[next..] == "" && (a + note + "\n")[noted..] == note + "\n"
  {
    assert note[0] == ' ' && (a + note + "\n")[|a|] == note[0];
  }

  lemma NoteIsHarmless(note: string)
    requires IsNote(note)
    ensures AreHarmless(SplitLines(note + "\n"))
  {
    OneLine(note);
    NoEntry(note);
  }

  /** The lines that follow the first break, without the note and with it. */
  lemma NoteBehindBreak(text: string, note: string, k: nat) returns (later: seq<string>, noted: seq<string>)
    requires IsNote(note) && IsFirstBreak(text, k)
    ensures SplitLines(text + "\n") == [text[..k]] + later && SplitLines(text + note + "\n") == [text[..k]] + noted
    ensures var next := NextLine(text + "\n", k);
            k < next && later == (if next <= |text| then SplitLines(text[next..] + "\n") else [])
            && noted == SplitLines((if next <= |text| then text[next..] + note else note) + "\n")
  {
    SplitInFront(text, "\n", k);
    SplitInFront(text, note + "\n", k);
    ConcatIsAssociative(text, note, "\n");
    NextBeforeNote(text, note, k);
    later := SplitLines((text + "\n")[NextLine(text + "\n", k)..]);
    noted := SplitLines((text + note + "\n")[NextLine(text + note + "\n", k)..]);
  }

  lemma SameFirst(first: string, later: seq<string>, noted: seq<string>)
    requires AreHarmless(later) <==> AreHarmless(noted)
    ensures AreHarmless([first] + noted) <==> AreHarmless([first] + later)
    ensures LaterAreHarmless([first] + noted) <==> LaterAreHarmless([first] + later)
  {
    LaterThanFirst(first, later);
    LaterThanFirst(first, noted);
  }

  ghost predicate NoteIsIgnored(text: string, note: string) {
    && (AreHarmless(SplitLines(text + note + "\n")) <==> AreHarmless(SplitLines(text + "\n")))
    && (LaterLinesAreHarmless(text + note) <==> LaterLinesAreHarmless(text))
  }

  lemma NoteKeepsOneLine(text: string, note: string)
    requires IsNote(note) && HasNoBreak(text)
    ensures NoteIsIgnored(text, note)
  {
    ConcatHasNoBreak(text, note);
    OneLine(text);
    OneLine(text + note);
    NoteKeepsName(text, note);
    SameSingle(text + note, text);
  }

  lemma SameSingle(a: string, b: string)
    requires NamesSecret(a) <==> NamesSecret(b)
    ensures AreHarmless([a]) <==> AreHarmless([b])
    ensures LaterAreHarmless([a]) && LaterAreHarmless([b])
  {
  }

  lemma NoteKeepsBroken(text: string, note: string, k: nat)
    requires IsNote(note) && IsFirstBreak(text, k)
    requires var next := NextLine(text + "\n", k); next <= |text| ==> NoteIsIgnored(text[next..], note)
    ensures NoteIsIgnored(text, note)
  {
    var later, noted := NoteBehindBreak(text, note, k);
    NoteIsHarmless(note);
    SameFirst(text[..k], later, noted);
  }

  lemma {:induction false} NoteKeepsLines(text: string, note: string)
    requires IsNote(note)
    ensures NoteIsIgnored(text, note)
    decreases |text|
  {
    if HasNoBreak(text) {
      NoteKeepsOneLine(text, note);
    } else {
      var k := FirstBreak(text);
      var next := NextLine(text + "\n", k);
      if next <= |text| {
        NoteKeepsLines(text[next..], note);
      }
      NoteKeepsBroken(text, note, k);
    }
  }
}
