/** The source lines of the footnotes, in the order in which they are referred to. */
module SentinelFootnotes {
  import opened Options
  import opened PyText
  import opened Splitting
  import opened SentinelLines
  import opened SentinelMask
  import opened StableSort

  // ----- Definitions

  /** Line `n` comes directly after a definition or the text that belongs to one. */
  predicate FollowsNote(lines: seq<string>, n: nat)
    requires n <= |lines|
    decreases n, 0
  {
    n > 0 && (IsNoteText(lines, n - 1) || FootnoteDef(lines[n - 1]).Some?)
  }

  /** Line `j` is more text of the definition above it. */
  predicate IsNoteText(lines: seq<string>, j: nat)
    requires j < |lines|
    decreases j, 1
  {
    FollowsNote(lines, j) && ContinuesNote(lines[j])
  }

  /** Line `j` defines the label. */
  predicate Defines(lines: seq<string>, j: nat, name: Label)
    requires j < |lines|
  {
    !IsNoteText(lines, j) && FootnoteDef(lines[j]) == Some(name)
  }

  /** The first line that defines each label, among the first `n`. */
  function Definitions(lines: seq<string>, n: nat): map<Label, nat>
    requires n <= |lines|
  {
    if n == 0 then map[]
    else
      var before, name := Definitions(lines, n - 1), FootnoteDef(lines[n - 1]);
      if name.Some? && !IsNoteText(lines, n - 1) && name.value !in before then before[name.value := n - 1] else before
  }

  /** A label has a definition exactly if a line defines it; and that is the first such line. */
  lemma {:induction false} DefinitionsAreFirst(lines: seq<string>, n: nat, name: Label)
    requires n <= |lines|
    ensures name in Definitions(lines, n) <==> exists j: nat :: j < n && Defines(lines, j, name)
    ensures var defs := Definitions(lines, n);
            name in defs ==> defs[name] < n && Defines(lines, defs[name], name)
                             && forall j: nat :: j < defs[name] ==> !Defines(lines, j, name)
  {
    if n > 0 {
      DefinitionsAreFirst(lines, n - 1, name);
      assert Defines(lines, n - 1, name) <==> !IsNoteText(lines, n - 1) && FootnoteDef(lines[n - 1]) == Some(name);
    }
  }

  lemma NoteTextIsNoDefinition(line: string)
    requires ContinuesNote(line) && !StartsWith(line, "\t")
    ensures FootnoteDef(line).None?
  {
    var i := SkipSpaces(line, 0);
    if !IsBlank(line) {
      assert forall j :: 0 <= j < 4 ==> line[j] == "    "[j] == ' ';
      assert i >= 4;
    }
  }

  /** Only a definition indented by a tab can be taken for more text of the definition above it. */
  lemma OnlyTabsHide(lines: seq<string>, j: nat, name: Label)
    requires j < |lines| && FootnoteDef(lines[j]) == Some(name) && !StartsWith(lines[j], "\t")
    ensures Defines(lines, j, name)
  {
    if IsNoteText(lines, j) {
      NoteTextIsNoDefinition(lines[j]);
    }
  }

  lemma {:induction false} NoteTextDefinesNothing(lines: seq<string>, i: nat, k: nat)
    requires i <= k <= |lines| && FollowsNote(lines, i) && k == SkipNote(lines, i)
    ensures Definitions(lines, k) == Definitions(lines, i)
    ensures k < |lines| ==> !IsNoteText(lines, k)
    decreases k - i
  {
    if i < |lines| && ContinuesNote(lines[i]) {
      assert IsNoteText(lines, i) && FollowsNote(lines, i + 1);
      NoteTextDefinesNothing(lines, i + 1, k);
    }
  }

  lemma DefinitionsAreInRange(lines: seq<string>)
    ensures forall name <- Definitions(lines, |lines|) :: Definitions(lines, |lines|)[name] < |lines|
  {
    forall name | name in Definitions(lines, |lines|) ensures Definitions(lines, |lines|)[name] < |lines| {
      DefinitionsAreFirst(lines, |lines|, name);
    }
  }

  method CollectDefinitions(lines: seq<string>) returns (definitions: map<Label, nat>)
    ensures definitions == Definitions(lines, |lines|)
  {
    definitions := map[];
    var i := 0;
    while i < |lines|
      invariant i <= |lines| && definitions == Definitions(lines, i)
      invariant i < |lines| ==> !IsNoteText(lines, i)
    {
      var name := FootnoteDef(lines[i]);
      if name.Some? {
        if name.value !in definitions {
          definitions := definitions[name.value := i];
        }
        var next := SkipContinuation(lines, i + 1);
        NoteTextDefinesNothing(lines, i + 1, next);
        i := next;
      } else {
        i := i + 1;
      }
    }
  }

  // ----- The references of one line

  /** The reference `[^label]` at `p`, unless a colon makes it a definition; and where it ends. */
  function RefAt(line: string, p: nat): (r: Option<(Label, nat)>)
    requires p <= |line|
    ensures r.Some? ==> p < r.value.1 <= |line|
  {
    if p + 1 < |line| && line[p] == '[' && line[p + 1] == '^' then
      var q := FindChar(line, ']', p + 2);
      if p + 2 < q < |line| && (q + 1 == |line| || line[q + 1] != ':') then Some((Label(line[p + 2..q]), q + 1))
          else None
    else None
  }

  /** The references from `p` on that do not overlap an earlier one, each at its column. */
  function RefsFrom(line: string, p: nat): (refs: seq<Keyed<Label>>)
    requires p <= |line|
    decreases |line| - p
  {
    if p == |line| then []
    else
      var r := RefAt(line, p);
      if r.Some? then [Keyed(p, r.value.0)] + RefsFrom(line, r.value.1) else RefsFrom(line, p + 1)
  }

  predicate IsInlineNote(line: string, p: nat) {
    p + 1 < |line| && line[p] == '^' && line[p + 1] == '['
  }

  predicate HasInlineNote(line: string) {
    exists p | 0 <= p < |line| :: IsInlineNote(line, p)
  }

  /** The lines of the defined references among the first `n`. */
  function DefinedRefs(refs: seq<Keyed<Label>>, defs: map<Label, nat>, n: nat): seq<Keyed<nat>>
    requires n <= |refs|
  {
    if n == 0 then []
    else
      var ref := refs[n - 1];
      DefinedRefs(refs, defs, n - 1) + if ref.value in defs then [Keyed(ref.key, defs[ref.value])] else []
  }

  /** The inline footnotes that start before column `p`. */
  function InlineNotes(line: string, idx: nat, p: nat): seq<Keyed<nat>>
    requires p <= |line|
  {
    if p == 0 then []
    else InlineNotes(line, idx, p - 1) + if IsInlineNote(line, p - 1) then [Keyed(p - 1, idx)] else []
  }

  /** What one line contributes, with columns. */
  function NotesOfLine(line: string, idx: nat, defs: map<Label, nat>): seq<Keyed<nat>> {
    var refs := RefsFrom(line, 0);
    Sort(DefinedRefs(refs, defs, |refs|) + InlineNotes(line, idx, |line|))
  }

  function Values(notes: seq<Keyed<nat>>): (r: seq<nat>)
    ensures |r| == |notes| && forall i :: 0 <= i < |r| ==> r[i] == notes[i].value
  {
    seq(|notes|, i requires 0 <= i < |notes| => notes[i].value)
  }

  lemma {:induction false} NoInlineNotesBetween(line: string, idx: nat, p: nat, q: nat)
    requires p <= q <= |line| && forall k: nat :: p <= k < q ==> !IsInlineNote(line, k)
    ensures InlineNotes(line, idx, q) == InlineNotes(line, idx, p)
  {
    if p < q {
      NoInlineNotesBetween(line, idx, p, q - 1);
    }
  }

  /** `raw.find("^[", from)`. */
  method FindInlineNote(line: string, from: nat) returns (p: Option<nat>)
    requires from <= |line|
    ensures p.Some? ==> from <= p.value && IsInlineNote(line, p.value)
    ensures forall k: nat :: from <= k && (p.Some? ==> k < p.value) ==> !IsInlineNote(line, k)
  {
    var k := from;
    while k < |line|
      invariant from <= k <= |line| && forall j: nat :: from <= j < k ==> !IsInlineNote(line, j)
    {
      if IsInlineNote(line, k) {
        return Some(k);
      }
      k := k + 1;
    }
    return None;
  }

  method CollectNotesOfLine(raw: string, idx: nat, definitions: map<Label, nat>)
    returns (lineOccurrences: seq<Keyed<nat>>)
    ensures lineOccurrences == NotesOfLine(raw, idx, definitions)
  {
    lineOccurrences := [];
    var refs := RefsFrom(raw, 0);
    for n := 0 to |refs|
      invariant lineOccurrences == DefinedRefs(refs, definitions, n)
    {
      if refs[n].value in definitions {
        lineOccurrences := lineOccurrences + [Keyed(refs[n].key, definitions[refs[n].value])];
      }
    }
    ghost var found := lineOccurrences;
    var start := FindInlineNote(raw, 0);
    ghost var seen: nat := 0;
    while start.Some?
      invariant seen <= |raw| && lineOccurrences == found + InlineNotes(raw, idx, seen)
      invariant start.Some? ==> seen <= start.value && IsInlineNote(raw, start.value)
      invariant forall k: nat :: seen <= k && (start.Some? ==> k < start.value) ==> !IsInlineNote(raw, k)
      decreases if start.Some? then |raw| - start.value else -1
    {
      var at := start.value;
      lineOccurrences := lineOccurrences + [Keyed(at, idx)];
      NoInlineNotesBetween(raw, idx, seen, at);
      NoInlineNotesBetween(raw, idx, at + 1, at + 2);
      start := FindInlineNote(raw, at + 2);
      seen := at + 2;
    }
    NoInlineNotesBetween(raw, idx, seen, |raw|);
    lineOccurrences := Sort(lineOccurrences);
  }

  // ----- All lines

  /** The fence that is open before line `i`. */
  function FenceBefore(lines: seq<string>, i: nat): Fence
    requires i <= |lines|
  {
    if i == 0 then Outside else NextFence(FenceBefore(lines, i - 1), lines[i - 1])
  }

  /** A line in which references count: outside of code fences, and no definition. */
  predicate IsLive(masked: seq<string>, i: nat) {
    && i < |masked| && FenceBefore(masked, i).Outside? && FenceRun(masked[i]) == 0
    && FootnoteDef(masked[i]).None?
  }

  function NotesBefore(masked: seq<string>, defs: map<Label, nat>, n: nat): seq<nat>
    requires n <= |masked|
  {
    if n == 0 then []
    else
      NotesBefore(masked, defs, n - 1)
      + if IsLive(masked, n - 1) then Values(NotesOfLine(masked[n - 1], n - 1, defs)) else []
  }

  /** The source with escapes and code masked, line by line. */
  ghost function MaskedLines(lines: seq<string>): seq<string> {
    Split(Masked(Join(lines, '\n')), '\n')
  }

  /** The masked lines are as many as the source lines, and as long. */
  lemma MaskedLinesMatch(lines: seq<string>)
    requires lines != [] && forall l <- lines :: '\n' !in l
    ensures |MaskedLines(lines)| == |lines|
    ensures forall i :: 0 <= i < |lines| ==> |MaskedLines(lines)[i]| == |lines[i]|
  {
    var text := Join(lines, '\n');
    MaskingKeepsPositions(text);
    SameSeparatorsSameShape(text, Masked(text), '\n');
    SplitJoin(lines, '\n');
  }

  /** What the live lines contribute, with the definitions that the lines hold. */
  ghost function FootnoteLines(lines: seq<string>): seq<nat> {
    NotesBefore(MaskedLines(lines), Definitions(lines, |lines|), |MaskedLines(lines)|)
  }

  /** One entry for each reference to a definition and for each inline footnote, in document order. */
  method CollectFootnoteLines(lines: seq<string>) returns (occurrences: seq<nat>)
    requires lines != [] && forall l <- lines :: '\n' !in l
    ensures occurrences == FootnoteLines(lines)
    ensures forall v <- occurrences :: v < |lines|
  {
    var definitions := CollectDefinitions(lines);
    occurrences := [];
    var text := MaskInlineCodeAndEscapes(Join(lines, '\n'));
    var occurrenceLines := Split(text, '\n');
    var fence := Outside;
    for idx := 0 to |occurrenceLines|
      invariant fence == FenceBefore(occurrenceLines, idx)
      invariant occurrences == NotesBefore(occurrenceLines, definitions, idx)
    {
      var raw := occurrenceLines[idx];
      if fence.Inside? {
        if ClosesFence(raw, fence) {
          fence := Outside;
        }
      } else if FenceRun(raw) > 0 {
        fence := Inside(raw[0], FenceRun(raw));
      } else if FootnoteDef(raw).None? {
        var notes := CollectNotesOfLine(raw, idx, definitions);
        occurrences := occurrences + Values(notes);
      }
    }
    MaskedLinesMatch(lines);
    forall v | v in occurrences ensures v < |lines| {
      NotesAreReferences(occurrenceLines, definitions, |occurrenceLines|, v);
      DefinitionsAreInRange(lines);
    }
  }

  // ----- What the entries are

  /** Line `i` refers to a label defined in line `v`, or is line `v` and has an inline footnote. */
  ghost predicate Mentions(line: string, i: nat, defs: map<Label, nat>, v: nat) {
    || (v == i && HasInlineNote(line))
    || (exists ref <- RefsFrom(line, 0) :: ref.value in defs && defs[ref.value] == v)
  }

  lemma {:induction false} DefinedRefsAre(refs: seq<Keyed<Label>>, defs: map<Label, nat>, n: nat, v: nat)
    requires n <= |refs|
    ensures (exists x <- DefinedRefs(refs, defs, n) :: x.value == v)
            <==> exists ref <- refs[..n] :: ref.value in defs && defs[ref.value] == v
  {
    if n > 0 {
      DefinedRefsAre(refs, defs, n - 1, v);
      assert refs[..n] == refs[..n - 1] + [refs[n - 1]];
      var ref := refs[n - 1];
      var front := DefinedRefs(refs, defs, n - 1);
      if ref.value in defs {
        assert DefinedRefs(refs, defs, n) == front + [Keyed(ref.key, defs[ref.value])];
      } else {
        assert DefinedRefs(refs, defs, n) == front;
      }
    }
  }

  lemma {:induction false} InlineNotesAre(line: string, idx: nat, p: nat)
    requires p <= |line|
    ensures forall x <- InlineNotes(line, idx, p) :: x.value == idx
    ensures InlineNotes(line, idx, p) != [] <==> exists k: nat :: k < p && IsInlineNote(line, k)
  {
    if p > 0 {
      InlineNotesAre(line, idx, p - 1);
    }
  }

  lemma NotesOfLineAre(line: string, idx: nat, defs: map<Label, nat>, v: nat)
    ensures v in Values(NotesOfLine(line, idx, defs)) <==> Mentions(line, idx, defs, v)
  {
    var refs := RefsFrom(line, 0);
    var a, b := DefinedRefs(refs, defs, |refs|), InlineNotes(line, idx, |line|);
    DefinedRefsAre(refs, defs, |refs|, v);
    assert refs[..|refs|] == refs;
    InlineNotesAre(line, idx, |line|);
    SortFacts(a + b);
    ValuesOfSorted(a, b, v);
    if b != [] {
      assert b[0] in b;
    }
  }

  lemma ValuesOfSorted(a: seq<Keyed<nat>>, b: seq<Keyed<nat>>, v: nat)
    requires multiset(Sort(a + b)) == multiset(a + b)
    ensures v in Values(Sort(a + b)) <==> (exists x <- a :: x.value == v) || (exists x <- b :: x.value == v)
  {
    var s := Sort(a + b);
    assert forall x :: x in s <==> x in multiset(s);
    assert forall x :: x in a + b <==> x in multiset(a + b);
    assert v in Values(s) <==> exists x <- s :: x.value == v by {
      if v in Values(s) {
        var i :| 0 <= i < |s| && Values(s)[i] == v;
        assert s[i] in s;
      }
      if x :| x in s && x.value == v {
        var i :| 0 <= i < |s| && s[i] == x;
        assert Values(s)[i] == v;
      }
    }
  }

  /** Line `i` is live and mentions line `v`. */
  ghost predicate Gives(masked: seq<string>, defs: map<Label, nat>, i: nat, v: nat) {
    IsLive(masked, i) && Mentions(masked[i], i, defs, v)
  }

  ghost predicate GivenBefore(masked: seq<string>, defs: map<Label, nat>, n: nat, v: nat) {
    exists i: nat :: i < n && Gives(masked, defs, i, v)
  }

  ghost predicate Unfold(k: nat) { true }

  /** `v` is an entry of the first `n` lines. This and the next predicate are kept folded: they can be used only
      where `Unfold` is mentioned. */
  ghost predicate InNotes(masked: seq<string>, defs: map<Label, nat>, n: nat, v: nat)
    requires n <= |masked|
  {
    forall k: nat {:trigger Unfold(k)} :: Unfold(k) ==> v in NotesBefore(masked, defs, n)
  }

  ghost predicate IsGiven(masked: seq<string>, defs: map<Label, nat>, n: nat, v: nat) {
    forall k: nat {:trigger Unfold(k)} :: Unfold(k) ==> GivenBefore(masked, defs, n, v)
  }

  lemma InNotesNext(masked: seq<string>, defs: map<Label, nat>, n: nat, v: nat)
    requires n < |masked|
    ensures InNotes(masked, defs, n + 1, v) <==> InNotes(masked, defs, n, v) || Gives(masked, defs, n, v)
  {
    assert Unfold(0);
    LineMentions(masked, defs, n, v);
    var notes := if IsLive(masked, n) then Values(NotesOfLine(masked[n], n, defs)) else [];
    InEither(NotesBefore(masked, defs, n), notes, v);
    assert NotesBefore(masked, defs, n + 1) == NotesBefore(masked, defs, n) + notes;
  }

  lemma InEither(a: seq<nat>, b: seq<nat>, v: nat)
    ensures v in a + b <==> v in a || v in b
  {
  }

  lemma IsGivenNext(masked: seq<string>, defs: map<Label, nat>, n: nat, v: nat)
    ensures IsGiven(masked, defs, n + 1, v) <==> IsGiven(masked, defs, n, v) || Gives(masked, defs, n, v)
  {
    assert Unfold(0);
    if Gives(masked, defs, n, v) {
      assert n < n + 1;
    }
  }

  lemma NothingGiven(masked: seq<string>, defs: map<Label, nat>, v: nat)
    ensures !InNotes(masked, defs, 0, v) && !IsGiven(masked, defs, 0, v)
  {
    assert Unfold(0);
  }

  lemma {:induction false} NotesAreGiven(masked: seq<string>, defs: map<Label, nat>, n: nat, v: nat)
    requires n <= |masked|
    ensures InNotes(masked, defs, n, v) <==> IsGiven(masked, defs, n, v)
  {
    if n == 0 {
      NothingGiven(masked, defs, v);
    } else {
      NotesAreGiven(masked, defs, n - 1, v);
      InNotesNext(masked, defs, n - 1, v);
      IsGivenNext(masked, defs, n - 1, v);
    }
  }

  /** The entries are exactly the lines mentioned by live lines: the definitions of the labels they
      refer to, and the lines themselves where they hold an inline footnote. */
  lemma NotesAreReferences(masked: seq<string>, defs: map<Label, nat>, n: nat, v: nat)
    requires n <= |masked|
    ensures v in NotesBefore(masked, defs, n) <==> GivenBefore(masked, defs, n, v)
  {
    assert Unfold(0);
    NotesAreGiven(masked, defs, n, v);
  }

  lemma LineMentions(masked: seq<string>, defs: map<Label, nat>, i: nat, v: nat)
    requires i < |masked|
    ensures v in (if IsLive(masked, i) then Values(NotesOfLine(masked[i], i, defs)) else [])
            <==> Gives(masked, defs, i, v)
  {
    if IsLive(masked, i) {
      NotesOfLineAre(masked[i], i, defs, v);
    }
  }
}
