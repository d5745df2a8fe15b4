/** Masking of inline code and escapes before footnotes are looked for. */
module SentinelMask {
  import opened Options
  import opened PyText

  /** ASCII punctuation: what a backslash can escape. */
  predicate IsPunctuation(c: char) {
    '!' <= c <= '/' || ':' <= c <= '@' || '[' <= c <= '`' || '{' <= c <= '~'
  }

  predicate IsEscape(text: string, i: nat) {
    i + 1 < |text| && text[i] == '\\' && IsPunctuation(text[i + 1])
  }

  ghost predicate AllTicks(text: string, p: nat, n: nat) {
    p + n <= |text| && forall j :: p <= j < p + n ==> text[j] == '`'
  }

  /** At `p` stands a run of exactly `n` backticks. */
  ghost predicate IsExactRun(text: string, p: nat, n: nat) {
    AllTicks(text, p, n) && (p == 0 || text[p - 1] != '`') && (p + n == |text| || text[p + n] != '`')
  }

  /** `p` is the first run of exactly `n` backticks from `from` on, or there is none. */
  ghost predicate IsClosing(text: string, from: nat, n: nat, p: Option<nat>) {
    if p.Some? then
      from <= p.value && IsExactRun(text, p.value, n) && forall q :: from <= q < p.value ==> !IsExactRun(text, q, n)
    else
      forall q :: from <= q ==> !IsExactRun(text, q, n)
  }

  ghost function Closing(text: string, from: nat, n: nat): (p: Option<nat>)
    requires from <= |text|
    ensures IsClosing(text, from, n, p)
    decreases |text| - from
  {
    if IsExactRun(text, from, n) then Some(from)
    else if from == |text| then None
    else Closing(text, from + 1, n)
  }

  lemma ClosingIsUnique(text: string, from: nat, n: nat, p: Option<nat>, q: Option<nat>)
    requires IsClosing(text, from, n, p) && IsClosing(text, from, n, q)
    ensures p == q
  {
    if p.Some? && q.Some? {
      assert IsExactRun(text, p.value, n) && IsExactRun(text, q.value, n);
    }
  }

  function Blank(c: char): char {
    if c == '\n' then c else ' '
  }

  // ----- The meaning of masking

  /** Where the scan goes on after position `i`, and whether what lies between is masked. */
  datatype Stretch = Stretch(end: nat, masked: bool)

  ghost function StretchAt(text: string, i: nat): (s: Stretch)
    requires i < |text|
    ensures i < s.end <= |text|
  {
    if IsEscape(text, i) then Stretch(i + 2, true)
    else if text[i] != '`' then Stretch(i + 1, false)
    else
      var runEnd := SkipChar(text, '`', i);
      var close := Closing(text, runEnd, runEnd - i);
      if close.None? then Stretch(runEnd, false)
      else Stretch(close.value + (runEnd - i), true)
  }

  /** What one stretch becomes. */
  ghost function Written(text: string, i: nat, s: Stretch): (part: string)
    requires i <= s.end <= |text|
    ensures |part| == s.end - i
    ensures forall k :: i <= k < s.end ==> part[k - i] == if s.masked then Blank(text[k]) else text[k]
  {
    seq(s.end - i, k requires 0 <= k < s.end - i => if s.masked then Blank(text[i + k]) else text[i + k])
  }

  /** The masked form of the text from `i` on: escapes and code spans are blanked, the rest stays. */
  ghost function MaskedFrom(text: string, i: nat): (m: string)
    requires i <= |text|
    ensures |m| == |text| - i
    decreases |text| - i
  {
    if i == |text| then ""
    else
      var s := StretchAt(text, i);
      Written(text, i, s) + MaskedFrom(text, s.end)
  }

  ghost function Masked(text: string): string {
    MaskedFrom(text, 0)
  }

  /** Position `k` is part of an escape or of a code span, the latter closed by a run
      of exactly the opening length. */
  ghost predicate InMaskedSyntax(text: string, k: nat) {
    || (exists i: nat :: IsEscape(text, i) && i <= k < i + 2)
    || (exists i: nat, n: nat, close: nat ::
          0 < n && AllTicks(text, i, n) && i + n < |text| && text[i + n] != '`'
          && i + n <= close && IsExactRun(text, close, n) && i <= k < close + n)
  }

  lemma StretchIsSyntax(text: string, i: nat, k: nat)
    requires i < |text| && StretchAt(text, i).masked && i <= k < StretchAt(text, i).end
    ensures InMaskedSyntax(text, k)
  {
    if !IsEscape(text, i) {
      var runEnd := SkipChar(text, '`', i);
      var close := Closing(text, runEnd, runEnd - i);
      assert AllTicks(text, i, runEnd - i) && IsExactRun(text, close.value, runEnd - i);
      assert text[close.value] == '`' && close.value > runEnd;
    }
  }

  lemma {:induction false} MaskedFromFacts(text: string, i: nat, k: nat)
    requires i <= k < |text|
    ensures var c := MaskedFrom(text, i)[k - i];
            && (c == text[k] || (c == ' ' && text[k] != '\n' && InMaskedSyntax(text, k)))
    decreases |text| - i
  {
    var s := StretchAt(text, i);
    if k < s.end {
      assert MaskedFrom(text, i)[k - i] == Written(text, i, s)[k - i];
      if s.masked {
        StretchIsSyntax(text, i, k);
      }
    } else {
      MaskedFromFacts(text, s.end, k);
      assert MaskedFrom(text, i)[k - i] == MaskedFrom(text, s.end)[k - s.end];
    }
  }

  /** Masking keeps positions: the length and the line breaks stay, characters change only to spaces,
      and only in escapes and in code spans that are closed by a run of the opening length. */
  lemma MaskingKeepsPositions(text: string)
    ensures |Masked(text)| == |text|
    ensures forall k :: 0 <= k < |text| ==>
              && (Masked(text)[k] == '\n' <==> text[k] == '\n')
              && (Masked(text)[k] != text[k] ==> Masked(text)[k] == ' ' && InMaskedSyntax(text, k))
  {
    forall k | 0 <= k < |text|
      ensures (Masked(text)[k] == '\n' <==> text[k] == '\n')
              && (Masked(text)[k] != text[k] ==> Masked(text)[k] == ' ' && InMaskedSyntax(text, k))
    {
      MaskedFromFacts(text, 0, k);
    }
  }

  // ----- The scan

  /** `text.find` of `n` backticks, from `from` on. */
  method FindTicks(text: string, n: nat, from: nat) returns (p: Option<nat>)
    requires n > 0
    ensures p.Some? ==>
              && from <= p.value
              && AllTicks(text, p.value, n)
              && forall q :: from <= q < p.value ==> !AllTicks(text, q, n)
    ensures p.None? ==> forall q :: from <= q ==> !AllTicks(text, q, n)
  {
    var q := from;
    while q + n <= |text|
      invariant from <= q && forall r :: from <= r < q ==> !AllTicks(text, r, n)
    {
      var k := q;
      while k < q + n && text[k] == '`'
        invariant q <= k <= q + n && forall j :: q <= j < k ==> text[j] == '`'
      {
        k := k + 1;
      }
      if k == q + n {
        return Some(q);
      }
      q := q + 1;
    }
    return None;
  }

  /** The search for the closing run: finds that touch another backtick are skipped. */
  method FindClosing(text: string, runEnd: nat, n: nat) returns (close: Option<nat>)
    requires 0 < n && runEnd <= |text|
    ensures close == Closing(text, runEnd, n)
  {
    close := FindTicks(text, n, runEnd);
    while close.Some? && ((close.value > 0 && text[close.value - 1] == '`')
                          || (close.value + n < |text| && text[close.value + n] == '`'))
      invariant close.Some? ==> runEnd <= close.value && AllTicks(text, close.value, n)
      invariant close.Some? ==> forall q :: runEnd <= q < close.value ==> !IsExactRun(text, q, n)
      invariant close.None? ==> forall q :: runEnd <= q ==> !IsExactRun(text, q, n)
      decreases if close.Some? then |text| - close.value else -1
    {
      var found := close.value;
      close := FindTicks(text, n, found + n);
      forall q | found <= q < found + n ensures !IsExactRun(text, q, n) {
        if q > found {
          assert text[q - 1] == '`';
        }
      }
      assert forall q :: found + n <= q && (close.Some? ==> q < close.value) ==> !AllTicks(text, q, n);
    }
    ClosingIsUnique(text, runEnd, n, close, Closing(text, runEnd, n));
  }

  /** Everything but line breaks becomes a space. */
  method BlankOut(masked: array<char>, markdown: string, start: nat, end: nat)
    requires start <= end <= |markdown| == masked.Length
    requires forall k :: start <= k < end ==> masked[k] == markdown[k]
    modifies masked
    ensures forall k :: start <= k < end ==> masked[k] == Blank(markdown[k])
    ensures forall k :: 0 <= k < start || end <= k < |markdown| ==> masked[k] == old(masked[k])
  {
    for pos := start to end
      invariant forall k :: start <= k < pos ==> masked[k] == Blank(markdown[k])
      invariant forall k :: pos <= k < end ==> masked[k] == markdown[k]
      invariant forall k :: 0 <= k < start || end <= k < |markdown| ==> masked[k] == old(masked[k])
    {
      if markdown[pos] != '\n' {
        masked[pos] := ' ';
      }
    }
  }

  /** Masks the stretch at `i` and moves on. */
  method MaskStretch(masked: array<char>, markdown: string, i: nat) returns (next: nat)
    requires i < |markdown| == masked.Length
    requires forall k :: i <= k < |markdown| ==> masked[k] == markdown[k]
    modifies masked
    ensures next == StretchAt(markdown, i).end
    ensures forall k :: i <= k < next ==>
              masked[k] == if StretchAt(markdown, i).masked then Blank(markdown[k]) else markdown[k]
    ensures forall k :: 0 <= k < i || next <= k < |markdown| ==> masked[k] == old(masked[k])
  {
    if IsEscape(markdown, i) {
      masked[i] := ' ';
      masked[i + 1] := ' ';
      return i + 2;
    }
    if markdown[i] != '`' {
      return i + 1;
    }
    var runEnd := i + 1;
    while runEnd < |markdown| && markdown[runEnd] == '`'
      invariant i < runEnd <= |markdown| && SkipChar(markdown, '`', i) == SkipChar(markdown, '`', runEnd)
    {
      runEnd := runEnd + 1;
    }
    var close := FindClosing(markdown, runEnd, runEnd - i);
    if close.None? {
      return runEnd;
    }
    BlankOut(masked, markdown, i, close.value + (runEnd - i));
    return close.value + (runEnd - i);
  }

  method MaskInlineCodeAndEscapes(markdown: string) returns (result: string)
    ensures result == Masked(markdown)
  {
    var masked := new char[|markdown|](k requires 0 <= k < |markdown| => markdown[k]);
    var i := 0;
    while i < |markdown|
      invariant i <= |markdown| == masked.Length
      invariant forall k :: i <= k < |markdown| ==> masked[k] == markdown[k]
      invariant masked[..i] + MaskedFrom(markdown, i) == Masked(markdown)
    {
      ghost var start, before := i, masked[..i];
      i := MaskStretch(masked, markdown, i);
      StretchWritten(markdown, start, before, masked[..i]);
    }
    result := masked[..];
    assert masked[..i] == result && MaskedFrom(markdown, i) == "";
  }

  /** One more stretch has been written. */
  lemma StretchWritten(text: string, start: nat, before: string, after: string)
    requires start < |text| && |before| == start
    requires var s := StretchAt(text, start);
             && |after| == s.end && after[..start] == before
             && forall k :: start <= k < s.end ==> after[k] == if s.masked then Blank(text[k]) else text[k]
    ensures after + MaskedFrom(text, StretchAt(text, start).end) == before + MaskedFrom(text, start)
  {
    var s := StretchAt(text, start);
    assert after == before + Written(text, start, s);
    ConcatIsAssociative(before, Written(text, start, s), MaskedFrom(text, s.end));
  }
}
