/** Taking the marks out of the text again, with nothing but the text to go by. */
module SentinelErase {
  import opened PyText
  import opened StableSort
  import opened SentinelLines
  import opened SentinelInjector

  const OPENING := "<span id=" + "\"agbpos-L"

  const ENDING := "\"></span>"

  /** The length of the mark that the text begins with, or zero. */
  function MarkLength(s: string): (n: nat)
    ensures n <= |s|
  {
    if StartsWith(s, OPENING) then
      var k := SkipDigits(s, |OPENING|);
      if k > |OPENING| && StartsWith(s[k..], ENDING) then k + |ENDING| else 0
    else 0
  }

  /** The text without its marks, from left to right. */
  function Erase(s: string): string
    decreases |s|
  {
    if s == "" then ""
    else if MarkLength(s) > 0 then Erase(s[MarkLength(s)..])
    else [s[0]] + Erase(s[1..])
  }

  /** No mark stands anywhere in the text. */
  predicate IsFree(s: string) {
    forall i :: 0 <= i < |s| ==> MarkLength(s[i..]) == 0
  }

  // ----- The shape of a mark

  lemma OpeningFacts()
    ensures |OPENING| == 18 && OPENING[0] == '<' && OPENING[1] == 's'
    ensures forall i :: 0 < i < 18 ==> OPENING[i] != '<'
  {
  }

  lemma EndingFacts()
    ensures |ENDING| == 9 && ENDING[0] == '"' && ENDING[2] == '<' && ENDING[3] == '/'
    ensures forall i :: 0 <= i < 9 && i != 2 ==> ENDING[i] != '<'
  {
  }

  lemma FragmentIs(line: nat)
    ensures Fragment(line) == OPENING + Digits(line) + ENDING
  {
  }

  lemma SkipAll(s: string, digits: string, rest: string)
    requires (forall c <- digits :: IsDigit(c)) && (rest == "" || !IsDigit(rest[0]))
    ensures SkipDigits(s + digits + rest, |s|) == |s| + |digits|
  {
    var t, k := s + digits + rest, SkipDigits(s + digits + rest, |s|);
    assert forall j :: 0 <= j < |digits| ==> t[|s| + j] == digits[j] && digits[j] in digits;
    assert forall j :: |s| <= j < |s| + |digits| ==> IsDigit(t[j]) by {
      forall j | |s| <= j < |s| + |digits| ensures IsDigit(t[j]) {
        assert t[j] == digits[j - |s|];
      }
    }
    assert !(k < |s| + |digits|);
    assert rest != "" ==> t[|s| + |digits|] == rest[0];
  }

  /** What is written for a mark is a mark, whatever follows. */
  lemma FragmentIsMark(line: nat, rest: string)
    ensures MarkLength(Fragment(line) + rest) == |Fragment(line)|
  {
    var digits := Digits(line);
    OpeningFacts();
    EndingFacts();
    FragmentIs(line);
    var s := OPENING + digits + (ENDING + rest);
    assert Fragment(line) + rest == s;
    assert OPENING <= s;
    SkipAll(OPENING, digits, ENDING + rest);
    assert s[|OPENING| + |digits|..] == ENDING + rest;
  }

  lemma FragmentIsErased(line: nat, rest: string)
    ensures Erase(Fragment(line) + rest) == Erase(rest)
  {
    FragmentIsMark(line, rest);
    OpeningFacts();
    FragmentIs(line);
    assert (Fragment(line) + rest)[|Fragment(line)|..] == rest;
  }

  // ----- No mark reaches over the beginning of another one

  /** The end of the text, or the beginning of a mark. */
  predicate IsBoundary(rest: string) {
    rest == "" || (|rest| > 1 && rest[0] == '<' && rest[1] == 's')
  }

  lemma PrefixInFront(text: string, rest: string, prefix: string)
    requires IsBoundary(rest)
    requires forall i :: (text != "" ==> i > 0) && 0 <= i < |prefix| && prefix[i] == '<' ==>
             i + 1 < |prefix| && prefix[i + 1] != 's'
    requires text == "" ==> prefix == "" || prefix[0] != '<'
    ensures StartsWith(text + rest, prefix) <==> StartsWith(text, prefix)
  {
    if |prefix| <= |text| {
      assert (text + rest)[..|prefix|] == text[..|prefix|];
    } else if rest == "" {
      assert text + rest == text;
    } else {
      var t, i := text + rest, |text|;
      assert t[i] == rest[0] && t[i + 1] == rest[1];
      NotPrefix(t, prefix, if prefix[i] == '<' then i + 1 else i);
    }
  }

  lemma NotPrefix(s: string, prefix: string, i: nat)
    requires i < |s| && i < |prefix| && prefix[i] != s[i]
    ensures !StartsWith(s, prefix)
  {
  }

  lemma DigitsInFront(text: string, rest: string, i: nat)
    requires i <= |text| && IsBoundary(rest)
    ensures SkipDigits(text + rest, i) == SkipDigits(text, i)
  {
    var t, k, m := text + rest, SkipDigits(text, i), SkipDigits(text + rest, i);
    assert forall j :: 0 <= j < |text| ==> t[j] == text[j];
    assert k == |text| && rest != "" ==> t[k] == rest[0];
    assert !(m < k) && !(k < m);
  }

  lemma MarkInFront(text: string, rest: string)
    requires text != "" && IsBoundary(rest)
    ensures MarkLength(text + rest) == MarkLength(text)
  {
    OpeningFacts();
    EndingFacts();
    PrefixInFront(text, rest, OPENING);
    if StartsWith(text, OPENING) {
      DigitsInFront(text, rest, |OPENING|);
      var k := SkipDigits(text, |OPENING|);
      assert (text + rest)[k..] == text[k..] + rest;
      PrefixInFront(text[k..], rest, ENDING);
    }
  }

  /** Erasing works on the text before a mark, and from the mark on, separately. */
  lemma {:induction false} EraseInFront(text: string, rest: string)
    requires IsBoundary(rest)
    ensures Erase(text + rest) == Erase(text) + Erase(rest)
    decreases |text|
  {
    if text == "" {
      assert text + rest == rest;
    } else {
      MarkInFront(text, rest);
      var n := if MarkLength(text) > 0 then MarkLength(text) else 1;
      assert (text + rest)[n..] == text[n..] + rest;
      EraseInFront(text[n..], rest);
      EraseStep(text, n);
      EraseStep(text + rest, n);
      if MarkLength(text) == 0 {
        ConcatIsAssociative([text[0]], Erase(text[n..]), Erase(rest));
      }
    }
  }

  lemma EraseStep(s: string, n: nat)
    requires s != "" && n == if MarkLength(s) > 0 then MarkLength(s) else 1
    ensures Erase(s) == (if MarkLength(s) > 0 then "" else [s[0]]) + Erase(s[n..])
  {
  }

  /** Erasing never adds anything, and takes away nothing exactly if there is no mark. */
  lemma {:induction false} EraseShrinks(s: string)
    ensures |Erase(s)| <= |s|
    ensures |Erase(s)| == |s| <==> IsFree(s)
    ensures IsFree(s) ==> Erase(s) == s
    decreases |s|
  {
    if s != "" {
      assert s[0..] == s;
      if MarkLength(s) > 0 {
        EraseShrinks(s[MarkLength(s)..]);
      } else {
        EraseShrinks(s[1..]);
        FreeTail(s);
      }
    }
  }

  lemma FreeTail(s: string)
    requires s != "" && MarkLength(s) == 0
    ensures IsFree(s) <==> IsFree(s[1..])
  {
    assert s[0..] == s;
    assert forall i :: 0 <= i < |s| - 1 ==> s[1..][i..] == s[i + 1..];
    if IsFree(s[1..]) {
      forall i | 0 <= i < |s| ensures MarkLength(s[i..]) == 0 {
        if i > 0 {
          assert s[1..][i - 1..] == s[i..];
        }
      }
    }
  }

  // ----- All parts

  function TextOf(p: Part): string {
    if p.Original? then p.text else ""
  }

  lemma {:induction false} WrittenHead(parts: seq<Part>)
    requires parts != []
    ensures WrittenAll(parts) == Written(parts[0]) + WrittenAll(parts[1..])
  {
    if |parts| == 1 {
      assert parts[1..] == [] && parts[..0] == [];
      assert "" + Written(parts[0]) == Written(parts[0]) + "";
    } else {
      var front, rest, last := parts[..|parts| - 1], parts[1..], parts[|parts| - 1];
      WrittenHead(front);
      assert rest[..|rest| - 1] == front[1..] && rest[|rest| - 1] == last && front[0] == parts[0];
      ConcatIsAssociative(Written(parts[0]), WrittenAll(front[1..]), Written(last));
    }
  }

  lemma {:induction false} OriginalHead(parts: seq<Part>)
    requires parts != []
    ensures OriginalText(parts) == TextOf(parts[0]) + OriginalText(parts[1..])
  {
    if |parts| == 1 {
      assert parts[1..] == [] && parts[..0] == [];
      assert "" + TextOf(parts[0]) == TextOf(parts[0]) + "";
    } else {
      var front, rest, last := parts[..|parts| - 1], parts[1..], parts[|parts| - 1];
      OriginalHead(front);
      assert rest[..|rest| - 1] == front[1..] && rest[|rest| - 1] == last && front[0] == parts[0];
      ConcatIsAssociative(TextOf(parts[0]), OriginalText(front[1..]), TextOf(last));
    }
  }

  /** A stretch of the text is followed by a mark, or is the last part. */
  predicate AreAlternating(parts: seq<Part>) {
    forall i :: 0 <= i < |parts| - 1 && parts[i].Original? ==> parts[i + 1].Inserted?
  }

  predicate AreFree(parts: seq<Part>) {
    forall i :: 0 <= i < |parts| && parts[i].Original? ==> IsFree(parts[i].text)
  }

  lemma BeginsAtBoundary(parts: seq<Part>)
    requires parts != [] ==> parts[0].Inserted?
    ensures IsBoundary(WrittenAll(parts))
  {
    if parts != [] {
      WrittenHead(parts);
      FragmentIs(parts[0].mark.line);
      OpeningFacts();
    }
  }

  /** Erasing what was written gives the original text exactly if no stretch of it has a mark. */
  lemma {:induction false} ErasePartsIff(parts: seq<Part>)
    requires AreAlternating(parts)
    ensures |Erase(WrittenAll(parts))| <= |OriginalText(parts)|
    ensures |Erase(WrittenAll(parts))| == |OriginalText(parts)| <==> AreFree(parts)
    ensures AreFree(parts) ==> Erase(WrittenAll(parts)) == OriginalText(parts)
    decreases |parts|
  {
    if parts != [] {
      var rest := parts[1..];
      WrittenHead(parts);
      OriginalHead(parts);
      assert forall i :: 0 <= i < |rest| ==> rest[i] == parts[i + 1];
      ErasePartsIff(rest);
      FreeHead(parts);
      if parts[0].Original? {
        BeginsAtBoundary(rest);
        EraseInFront(parts[0].text, WrittenAll(rest));
        EraseShrinks(parts[0].text);
      } else {
        FragmentIsErased(parts[0].mark.line, WrittenAll(rest));
      }
    }
  }

  lemma FreeHead(parts: seq<Part>)
    requires parts != []
    ensures AreFree(parts) <==> (parts[0].Original? ==> IsFree(parts[0].text)) && AreFree(parts[1..])
  {
    var rest := parts[1..];
    assert forall i :: 0 <= i < |rest| ==> rest[i] == parts[i + 1];
    if AreFree(rest) && (parts[0].Original? ==> IsFree(parts[0].text)) {
      forall i | 0 <= i < |parts| && parts[i].Original? ensures IsFree(parts[i].text) {
        if i > 0 {
          assert rest[i - 1] == parts[i];
        }
      }
    }
  }

  // ----- The written text

  lemma {:induction false} PartsAlternate(html: string, insertions: seq<Insertion>, n: nat)
    requires n <= |insertions| && AreInsertions(html, insertions)
    ensures var parts := PartsBefore(html, insertions, n);
            AreAlternating(parts) && (parts != [] ==> parts[|parts| - 1].Inserted?)
  {
    if n > 0 {
      PartsAlternate(html, insertions, n - 1);
    }
  }

  /** A stretch of a text without marks has none. */
  lemma SliceIsFree(s: string, from: nat, to: nat)
    requires from <= to <= |s| && IsFree(s)
    ensures IsFree(s[from..to])
  {
    forall i | 0 <= i < to - from ensures MarkLength(s[from..to][i..]) == 0 {
      assert MarkLength(s[from + i..]) == 0;
      assert s[from + i..] == s[from..to][i..] + s[to..];
      MarkStaysMark(s[from..to][i..], s[to..]);
    }
  }

  lemma MarkStaysMark(text: string, rest: string)
    ensures MarkLength(text) > 0 ==> MarkLength(text + rest) > 0
  {
    if MarkLength(text) > 0 {
      var k := SkipDigits(text, |OPENING|);
      EndingFacts();
      assert (text + rest)[..|OPENING|] == text[..|OPENING|];
      SameDigits(text, rest, k);
      assert (text + rest)[k..] == text[k..] + rest;
      assert ((text + rest)[k..])[..|ENDING|] == text[k..][..|ENDING|];
    }
  }

  lemma SameDigits(text: string, rest: string, k: nat)
    requires |OPENING| <= |text| && k == SkipDigits(text, |OPENING|) && k < |text|
    ensures SkipDigits(text + rest, |OPENING|) == k
  {
    var t, m := text + rest, SkipDigits(text + rest, |OPENING|);
    assert forall j :: 0 <= j < |text| ==> t[j] == text[j];
    assert !(m < k) && !(k < m);
  }

  lemma {:induction false} PartsAreFree(html: string, insertions: seq<Insertion>, n: nat)
    requires n <= |insertions| && AreInsertions(html, insertions) && IsFree(html)
    ensures AreFree(PartsBefore(html, insertions, n))
  {
    if n > 0 {
      PartsAreFree(html, insertions, n - 1);
      CopiedInRange(html, insertions, n);
      assert insertions[n - 1] in insertions;
      SliceIsFree(html, CopiedTo(insertions, n - 1), insertions[n - 1].key);
    }
  }

  /** Erasing the marks from the written text gives the text back exactly if no stretch
      between two insertions holds a mark of its own. */
  lemma ErasingRestoresIff(html: string, insertions: seq<Insertion>)
    requires AreInsertions(html, insertions)
    ensures Erase(WrittenAll(Parts(html, insertions))) == html <==> AreFree(Parts(html, insertions))
  {
    PartsAlternate(html, insertions, |insertions|);
    ErasePartsIff(Parts(html, insertions));
    DeletingMarksRestores(html, insertions);
  }

  /** In particular for every text that holds no mark itself. */
  lemma ErasingRestores(html: string, insertions: seq<Insertion>)
    requires AreInsertions(html, insertions) && IsFree(html)
    ensures Erase(WrittenAll(Parts(html, insertions))) == html
  {
    var n := |insertions|;
    PartsAreFree(html, insertions, n);
    CopiedInRange(html, insertions, n);
    SliceIsFree(html, CopiedTo(insertions, n), |html|);
    assert html[CopiedTo(insertions, n)..] == html[CopiedTo(insertions, n)..|html|];
    ErasingRestoresIff(html, insertions);
  }
}
