/** Masking what has been masked: when it changes nothing. */
module SentinelMaskTwice {
  import opened Options
  import opened PyText
  import opened SentinelMask

  /** The scan from `from` on comes to position `i`. */
  ghost predicate Visits(text: string, from: nat, i: nat)
    requires from <= |text|
    decreases |text| - from
  {
    from == i || (from < |text| && Visits(text, StretchAt(text, from).end, i))
  }

  lemma {:induction false} VisitsNext(text: string, from: nat, i: nat)
    requires from <= |text| && i < |text| && Visits(text, from, i)
    ensures Visits(text, from, StretchAt(text, i).end)
    decreases |text| - from
  {
    if from != i {
      VisitsNext(text, StretchAt(text, from).end, i);
    }
  }

  lemma {:induction false} VisitedIsBehind(text: string, from: nat, i: nat)
    requires from <= |text| && Visits(text, from, i)
    ensures from <= i <= |text| && (from < i ==> StretchAt(text, from).end <= i)
    decreases |text| - from
  {
    if from != i {
      VisitedIsBehind(text, StretchAt(text, from).end, i);
    }
  }

  /** Two positions the scan comes to: the stretch of the earlier one ends before the later one. */
  lemma {:induction false} VisitedInOrder(text: string, from: nat, i: nat, j: nat)
    requires from <= |text| && Visits(text, from, i) && Visits(text, from, j) && i < j
    ensures i < |text| && StretchAt(text, i).end <= j
    decreases |text| - from
  {
    VisitedIsBehind(text, from, i);
    VisitedIsBehind(text, from, j);
    if from != i {
      VisitedInOrder(text, StretchAt(text, from).end, i, j);
    }
  }

  /** The stretch that a position belongs to, and what becomes of the character there. */
  lemma {:induction false} StretchOf(text: string, from: nat, k: nat) returns (i: nat)
    requires from <= k < |text|
    ensures i <= k < StretchAt(text, i).end && Visits(text, from, i)
    ensures MaskedFrom(text, from)[k - from] == if StretchAt(text, i).masked then Blank(text[k]) else text[k]
    decreases |text| - from
  {
    var s := StretchAt(text, from);
    if k < s.end {
      i := from;
      assert MaskedFrom(text, from)[k - from] == Written(text, from, s)[k - from];
    } else {
      i := StretchOf(text, s.end, k);
      assert MaskedFrom(text, from)[k - from] == MaskedFrom(text, s.end)[k - s.end];
    }
  }

  // ----- The texts that masking leaves alone

  ghost predicate AreTwins(text: string, p: nat, q: nat, n: nat) {
    n > 0 && p < q && IsExactRun(text, p, n) && IsExactRun(text, q, n)
  }

  /** No escape, and no two runs of backticks of the same length. */
  ghost predicate IsPlain(text: string) {
    && (forall i: nat :: !IsEscape(text, i))
    && (forall p: nat, q: nat, n: nat :: !AreTwins(text, p, q, n))
  }

  /** A masked stretch begins with a character that it blanks. */
  lemma MaskedStretchChanges(text: string, i: nat)
    requires i < |text| && StretchAt(text, i).masked
    ensures Blank(text[i]) != text[i]
  {
  }

  lemma UnchangedMasksNothing(text: string, i: nat)
    requires Masked(text) == text && i < |text| && Visits(text, 0, i)
    ensures !StretchAt(text, i).masked
  {
    if StretchAt(text, i).masked {
      var x := StretchOf(text, 0, i);
      SameStretch(text, x, i);
      MaskedStretchChanges(text, i);
    }
  }

  lemma SameStretch(text: string, i: nat, j: nat)
    requires Visits(text, 0, i) && Visits(text, 0, j) && i <= j < |text| && j < StretchAt(text, i).end
    ensures i == j
  {
    if i < j {
      VisitedInOrder(text, 0, i, j);
    }
  }

  /** In an unmasked stretch, only the first character can be anything but a backtick. */
  lemma UnmaskedStretch(text: string, i: nat, k: nat)
    requires i < k < |text| && k < StretchAt(text, i).end && !StretchAt(text, i).masked
    ensures text[k] == '`' && text[k - 1] == '`'
  {
  }

  /** The scan of a text that stays comes to every position that does not follow a backtick or holds none. */
  lemma UnchangedVisits(text: string, k: nat)
    requires Masked(text) == text && k < |text| && (text[k] != '`' || k == 0 || text[k - 1] != '`')
    ensures Visits(text, 0, k)
  {
    var i := StretchOf(text, 0, k);
    UnchangedMasksNothing(text, i);
    if i < k {
      UnmaskedStretch(text, i, k);
    }
  }

  lemma UnchangedIsPlain(text: string)
    requires Masked(text) == text
    ensures IsPlain(text)
  {
    forall i: nat ensures !IsEscape(text, i) {
      if IsEscape(text, i) {
        UnchangedVisits(text, i);
        UnchangedMasksNothing(text, i);
      }
    }
    forall p: nat, q: nat, n: nat ensures !AreTwins(text, p, q, n) {
      if AreTwins(text, p, q, n) {
        UnchangedVisits(text, p);
        UnchangedMasksNothing(text, p);
        ExactRunEnds(text, p, n);
        TwinCloses(text, p, q, n);
      }
    }
  }

  lemma ExactRunEnds(text: string, p: nat, n: nat)
    requires n > 0 && IsExactRun(text, p, n)
    ensures p < |text| && text[p] == '`' && SkipChar(text, '`', p) == p + n
  {
    var k := SkipChar(text, '`', p);
    assert k >= p + n by {
      assert !(k < p + n);
    }
    assert k <= p + n by {
      assert !(k > p + n);
    }
  }

  lemma TwinCloses(text: string, p: nat, q: nat, n: nat)
    requires AreTwins(text, p, q, n)
    ensures p + n <= q && Closing(text, p + n, n).Some?
  {
    assert !(q < p + n);
  }

  /** In a plain text every stretch is left alone. */
  lemma PlainStretch(text: string, i: nat)
    requires IsPlain(text) && i < |text| && (i > 0 ==> text[i] != '`' || text[i - 1] != '`')
    ensures !StretchAt(text, i).masked
    ensures var e := StretchAt(text, i).end; e < |text| ==> text[e] != '`' || text[e - 1] != '`'
  {
    if text[i] == '`' {
      var runEnd := SkipChar(text, '`', i);
      var close := Closing(text, runEnd, runEnd - i);
      assert IsExactRun(text, i, runEnd - i);
      if close.Some? {
        assert AreTwins(text, i, close.value, runEnd - i);
      }
    }
  }

  lemma {:induction false} PlainStays(text: string, i: nat)
    requires IsPlain(text) && i <= |text| && (0 < i < |text| ==> text[i] != '`' || text[i - 1] != '`')
    ensures MaskedFrom(text, i) == text[i..]
    decreases |text| - i
  {
    if i < |text| {
      PlainStretch(text, i);
      var s := StretchAt(text, i);
      PlainStays(text, s.end);
      assert Written(text, i, s) == text[i..s.end];
      assert text[i..] == text[i..s.end] + text[s.end..];
    }
  }

  /** The texts that masking leaves alone are those without an escape and without two runs of the same length. */
  lemma UnchangedIff(text: string)
    ensures Masked(text) == text <==> IsPlain(text)
  {
    if Masked(text) == text {
      UnchangedIsPlain(text);
    }
    if IsPlain(text) {
      PlainStays(text, 0);
      assert text[0..] == text;
    }
  }

  // ----- The runs of a masked text

  /** The scan comes to a run of `n` backticks that nothing closes. */
  ghost predicate IsOpenRun(text: string, i: nat, n: nat) {
    && n > 0 && i < |text| && Visits(text, 0, i)
    && text[i] == '`' && SkipChar(text, '`', i) == i + n && Closing(text, i + n, n).None?
  }

  lemma OpenRunStays(text: string, i: nat, n: nat)
    requires IsOpenRun(text, i, n)
    ensures IsExactRun(Masked(text), i, n)
  {
    var m := Masked(text);
    forall k | i <= k < i + n ensures m[k] == '`' {
      TickStays(text, i, k);
    }
    if i + n < |text| {
      MaskedMakesNoTick(text, i + n);
    }
    if i > 0 {
      NothingBeforeRun(text, i);
    }
  }

  lemma MaskedMakesNoTick(text: string, k: nat)
    requires k < |text| && text[k] != '`'
    ensures Masked(text)[k] != '`'
  {
    var x := StretchOf(text, 0, k);
  }

  lemma StretchBefore(text: string, j: nat) returns (x: nat)
    requires 0 < j < |text| && Visits(text, 0, j)
    ensures x < j && StretchAt(text, x).end == j
    ensures Masked(text)[j - 1] == if StretchAt(text, x).masked then Blank(text[j - 1]) else text[j - 1]
  {
    x := StretchOf(text, 0, j - 1);
    VisitedInOrder(text, 0, x, j);
  }

  /** Before a position the scan comes to with a backtick, the masked text has none. */
  lemma NothingBeforeRun(text: string, i: nat)
    requires 0 < i < |text| && Visits(text, 0, i) && text[i] == '`'
    ensures Masked(text)[i - 1] != '`'
  {
    var x := StretchBefore(text, i);
    if !StretchAt(text, x).masked {
      UnmaskedEnds(text, x);
    }
  }

  /** An unmasked stretch does not end with a backtick before another one. */
  lemma UnmaskedEnds(text: string, x: nat)
    requires x < |text| && !StretchAt(text, x).masked && StretchAt(text, x).end < |text|
    ensures var e := StretchAt(text, x).end; text[e - 1] != '`' || text[e] != '`'
  {
  }

  /** A backtick of the masked text that follows none begins an unmasked stretch. */
  lemma RunBegins(text: string, p: nat)
    requires p < |text| && Masked(text)[p] == '`' && (p > 0 ==> Masked(text)[p - 1] != '`')
    ensures Visits(text, 0, p) && text[p] == '`' && !StretchAt(text, p).masked
  {
    var i := StretchOf(text, 0, p);
    if i < p {
      UnmaskedStretch(text, i, p);
      TickStays(text, i, p - 1);
    }
  }

  lemma OpenStretch(text: string, p: nat)
    requires p < |text| && text[p] == '`' && !StretchAt(text, p).masked
    ensures var e := StretchAt(text, p).end; e == SkipChar(text, '`', p) && Closing(text, e, e - p).None?
  {
  }

  lemma RunWasOpen(text: string, p: nat, n: nat)
    requires n > 0 && IsExactRun(Masked(text), p, n)
    ensures IsOpenRun(text, p, n)
  {
    assert Masked(text)[p] == '`';
    RunBegins(text, p);
    OpenStretch(text, p);
    var e := StretchAt(text, p).end;
    if p + n < e {
      TickStays(text, p, p + n);
    }
    if e < p + n {
      MaskedMakesNoTick(text, e);
    }
  }

  lemma TickStays(text: string, i: nat, k: nat)
    requires i <= k < |text| && Visits(text, 0, i) && k < StretchAt(text, i).end && !StretchAt(text, i).masked
    ensures Masked(text)[k] == text[k]
  {
    StretchIsWritten(text, 0, i, k);
  }

  lemma {:induction false} StretchIsWritten(text: string, from: nat, i: nat, k: nat)
    requires from <= |text| && Visits(text, from, i) && i <= k < |text| && k < StretchAt(text, i).end
    ensures from <= i
    ensures MaskedFrom(text, from)[k - from] == if StretchAt(text, i).masked then Blank(text[k]) else text[k]
    decreases |text| - from
  {
    var s := StretchAt(text, from);
    if from == i {
      assert MaskedFrom(text, from)[k - from] == Written(text, from, s)[k - from];
    } else {
      StretchIsWritten(text, s.end, i, k);
      assert MaskedFrom(text, from)[k - from] == MaskedFrom(text, s.end)[k - s.end];
    }
  }

  /** A masked text holds no escape. */
  lemma MaskedHasNoEscape(text: string, i: nat)
    ensures !IsEscape(Masked(text), i)
  {
    var m := Masked(text);
    if i + 1 < |m| && m[i] == '\\' {
      var x := StretchOf(text, 0, i);
      var y := StretchOf(text, 0, i + 1);
      assert text[i] == '\\' && !StretchAt(text, x).masked;
      if x < i {
        UnmaskedStretch(text, x, i);
      }
      assert !IsEscape(text, i);
      assert m[i + 1] == text[i + 1] || m[i + 1] == Blank(text[i + 1]);
    }
  }

  // ----- The laws

  ghost predicate HasOpenTwins(text: string) {
    exists i: nat, j: nat, n: nat :: i < j && IsOpenRun(text, i, n) && IsOpenRun(text, j, n)
  }

  /** Masking twice is masking once exactly if no two runs that nothing closes have the same length. */
  lemma MaskingTwiceIff(text: string)
    ensures Masked(Masked(text)) == Masked(text) <==> !HasOpenTwins(text)
  {
    var m := Masked(text);
    UnchangedIff(m);
    forall i: nat ensures !IsEscape(m, i) {
      MaskedHasNoEscape(text, i);
    }
    forall p: nat, q: nat, n: nat | AreTwins(m, p, q, n) ensures IsOpenRun(text, p, n) && IsOpenRun(text, q, n) {
      RunWasOpen(text, p, n);
      RunWasOpen(text, q, n);
    }
    forall i: nat, j: nat, n: nat | i < j && IsOpenRun(text, i, n) && IsOpenRun(text, j, n)
      ensures AreTwins(m, i, j, n)
    {
      OpenRunStays(text, i, n);
      OpenRunStays(text, j, n);
    }
  }

  lemma LaterTwinFollowsTick(text: string, i: nat, j: nat, n: nat)
    requires IsOpenRun(text, i, n) && IsOpenRun(text, j, n) && i + n <= j
    ensures text[j - 1] == '`'
  {
    assert !IsExactRun(text, j, n);
    assert AllTicks(text, j, n) && (j + n < |text| ==> text[j + n] != '`');
  }

  /** The later one of such two runs stands directly behind an escaped backtick, which hides it from the
      earlier one in the first pass only. */
  lemma LaterTwinIsBehindEscape(text: string, i: nat, j: nat, n: nat)
    requires i < j && IsOpenRun(text, i, n) && IsOpenRun(text, j, n)
    ensures j >= 2 && IsEscape(text, j - 2) && text[j - 1] == '`'
  {
    VisitedInOrder(text, 0, i, j);
    LaterTwinFollowsTick(text, i, j, n);
    var x := StretchBefore(text, j);
    if !IsEscape(text, x) {
      NoEscapeNoTick(text, x);
    }
  }

  /** A stretch that is no escape does not end inside a run. */
  lemma NoEscapeNoTick(text: string, x: nat)
    requires x < |text| && !IsEscape(text, x) && StretchAt(text, x).end < |text|
    ensures var e := StretchAt(text, x).end; text[e - 1] != '`' || text[e] != '`'
  {
  }

  /** Two backticks, a backslash, three backticks: the first pass takes the first backtick of the three for an
      escaped one, and the second pass takes what is left for a code span. */
  lemma EscapedTick()
    ensures Masked("``\\```") == "``  ``"
    ensures Masked("``  ``") == "      "
  {
    FirstPass();
    SecondPass();
  }

  lemma FirstPass()
    ensures Masked("``\\```") == "``  ``"
  {
    var t := "``\\```";
    assert t[0] == t[1] == t[3] == t[4] == t[5] == '`' && t[2] == '\\' && |t| == 6;
    OpenPair(t);
    LastPair(t);
    FirstPassOf(t);
    assert t[..2] + "  " + t[4..] == "``  ``";
  }

  lemma OpenPair(t: string)
    requires |t| == 6 && t[0] == t[1] == t[3] == t[4] == t[5] == '`' && t[2] == '\\'
    ensures StretchAt(t, 0) == Stretch(2, false)
  {
    RunAt(t, 0, 2);
    NoPairOfTwo(t);
  }

  lemma LastPair(t: string)
    requires |t| == 6 && t[4] == t[5] == '`'
    ensures StretchAt(t, 4) == Stretch(6, false)
  {
    RunAt(t, 4, 2);
    assert forall q :: 6 <= q ==> !IsExactRun(t, q, 2);
  }

  lemma FirstPassOf(t: string)
    requires |t| == 6 && t[2] == '\\' && t[3] == '`'
    requires StretchAt(t, 0) == Stretch(2, false) && StretchAt(t, 4) == Stretch(6, false)
    ensures Masked(t) == t[..2] + "  " + t[4..]
  {
    assert IsEscape(t, 2) && StretchAt(t, 2) == Stretch(4, true);
    assert MaskedFrom(t, 6) == "";
    assert MaskedFrom(t, 4) == t[4..];
    assert MaskedFrom(t, 2) == "  " + t[4..];
  }

  lemma RunAt(t: string, i: nat, n: nat)
    requires n > 0 && AllTicks(t, i, n) && (i + n < |t| ==> t[i + n] != '`')
    ensures SkipChar(t, '`', i) == i + n
  {
    assert !(SkipChar(t, '`', i) < i + n) && !(SkipChar(t, '`', i) > i + n);
  }

  lemma NoPairOfTwo(t: string)
    requires |t| == 6 && t[2] != '`' && t[3] == t[4] == t[5] == '`'
    ensures forall q :: 2 <= q ==> !IsExactRun(t, q, 2)
  {
    forall q | 2 <= q ensures !IsExactRun(t, q, 2) {
      assert q == 2 || q == 3 || q == 4 || q >= 5;
      if AllTicks(t, q, 2) {
        assert t[q] == '`' && q + 2 <= 6;
        assert q == 3 || q == 4;
      }
    }
  }

  lemma SecondPass()
    ensures Masked("``  ``") == "      "
  {
    var t := "``  ``";
    assert t[0] == t[1] == t[4] == t[5] == '`' && t[2] == t[3] == ' ' && |t| == 6;
    RunAt(t, 0, 2);
    assert IsExactRun(t, 4, 2);
    assert forall q :: 2 <= q < 4 ==> !IsExactRun(t, q, 2) by {
      assert forall q :: 2 <= q < 4 ==> !AllTicks(t, q, 2) by {
        assert forall q :: 2 <= q < 4 ==> t[q] == ' ';
      }
    }
    ClosingIsUnique(t, 2, 2, Closing(t, 2, 2), Some(4));
    assert StretchAt(t, 0) == Stretch(6, true);
    assert MaskedFrom(t, 6) == "";
  }
}
