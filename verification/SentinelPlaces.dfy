/** Which mark stands where in the marked HTML: one for each slot that blocks, items and notes offer, and no other. */
module SentinelPlaces {
  import opened Options
  import opened PyText
  import opened StableSort
  import F = SentinelFinder
  import opened SentinelScanner
  import opened SentinelInjector
  import SentinelLines
  import opened SentinelErase
  import opened SentinelPreview

  /** Where a mark belongs: before the `k`th block, in the `i`th item of it, before the notes, or in the `i`th note. */
  datatype Slot = BeforeBlock(k: nat) | InItem(k: nat, i: nat) | BeforeNotes | InNote(i: nat)

  /** The tag that begins at `o` ends at `e`. */
  predicate EndsTag(html: string, o: nat, e: nat) {
    o <= e < |html| && html[e] == '>' && forall j :: o <= j < e ==> html[j] != '>'
  }

  ghost predicate HasEnd(html: string, o: nat) {
    exists e: nat :: EndsTag(html, o, e)
  }

  /** The slots there are. Blocks are paired with anchors, and items with lines, up to the shorter list; a tag
      that does not end has none. */
  ghost predicate IsSlot(html: string, st: F.State, anchors: seq<Anchor>, notes: seq<nat>, s: Slot) {
    match s
    case BeforeBlock(k) => k < |st.blocks| && k < |anchors|
    case InItem(k, i) =>
      && k < |st.blocks| && k < |anchors| && (st.blocks[k].tag == "ul" || st.blocks[k].tag == "ol")
      && i < |st.blocks[k].items| && i < |anchors[k].items| && HasEnd(html, st.blocks[k].items[i])
    case BeforeNotes => st.section.Some? && notes != []
    case InNote(i) =>
      st.section.Some? && i < |st.section.value.items| && i < |notes| && HasEnd(html, st.section.value.items[i])
  }

  /** What stands in a slot: the mark of its line, directly before the block or behind the tag of the item. */
  ghost predicate StandsIn(html: string, st: F.State, anchors: seq<Anchor>, notes: seq<nat>, s: Slot, x: Insertion)
    requires IsSlot(html, st, anchors, notes, s)
  {
    match s
    case BeforeBlock(k) => x == Keyed(st.blocks[k].offset, Mark(anchors[k].line, true))
    case InItem(k, i) =>
      MarksItem(html, st.blocks[k].items[i], anchors[k].items[i], true, x)
    case BeforeNotes => x == Keyed(st.section.value.offset, Mark(notes[0], false))
    case InNote(i) =>
      MarksItem(html, st.section.value.items[i], notes[i], false, x)
  }

  ghost predicate AreDistinct<T>(s: seq<T>) {
    forall i, j :: 0 <= i < j < |s| ==> s[i] != s[j]
  }

  /** The marks stand in these slots, one in each. */
  ghost predicate Fill(html: string, st: F.State, anchors: seq<Anchor>, notes: seq<nat>, slots: seq<Slot>,
                       marks: seq<Insertion>)
  {
    && |slots| == |marks| && AreDistinct(slots)
    && forall n :: 0 <= n < |slots| ==>
         IsSlot(html, st, anchors, notes, slots[n]) && StandsIn(html, st, anchors, notes, slots[n], marks[n])
  }

  // ----- The marks as they are collected

  lemma TagEndIs(html: string, o: nat)
    requires o <= |html|
    ensures F.TagEnd(html, o) < |html| <==> HasEnd(html, o)
    ensures F.TagEnd(html, o) < |html| ==> EndsTag(html, o, F.TagEnd(html, o))
  {
    if F.TagEnd(html, o) < |html| {
      assert EndsTag(html, o, F.TagEnd(html, o));
    }
    if HasEnd(html, o) {
      var e: nat :| EndsTag(html, o, e);
      assert !(F.TagEnd(html, o) > e);
    }
  }

  /** The mark of one item: of its line, and directly behind its tag. */
  ghost predicate MarksItem(html: string, o: nat, line: nat, inFlow: bool, x: Insertion) {
    x.value == Mark(line, inFlow) && x.key > 0 && EndsTag(html, o, x.key - 1)
  }

  /** `marked` are the items below `n` that have a mark, in order, and `marks` their marks. */
  ghost predicate ItemsHave(html: string, offsets: seq<nat>, lines: seq<nat>, n: nat, inFlow: bool, marked: seq<nat>,
                            marks: seq<Insertion>)
    requires n <= |offsets| && n <= |lines|
  {
    && |marked| == |marks| && AreDistinct(marked)
    && (forall j :: 0 <= j < |marked| ==> marked[j] < n)
    && (forall j :: 0 <= j < |marked| ==> MarksItem(html, offsets[marked[j]], lines[marked[j]], inFlow, marks[j]))
    && forall i: nat :: i < n && HasEnd(html, offsets[i]) ==> i in marked
  }

  lemma AddsItem(html: string, offsets: seq<nat>, lines: seq<nat>, n: nat, inFlow: bool, marked: seq<nat>,
                 marks: seq<Insertion>, x: Insertion, m: nat, all: seq<nat>, allMarks: seq<Insertion>)
    requires n < |offsets| && n < |lines| && ItemsHave(html, offsets, lines, n, inFlow, marked, marks)
    requires MarksItem(html, offsets[n], lines[n], inFlow, x)
    requires m == n + 1 && all == marked + [n] && allMarks == marks + [x]
    ensures ItemsHave(html, offsets, lines, m, inFlow, all, allMarks)
  {
    forall j | 0 <= j < |all|
      ensures all[j] <= n && MarksItem(html, offsets[all[j]], lines[all[j]], inFlow, allMarks[j])
      ensures j < |marked| ==> all[j] < n
    {
      if j < |marked| {
        assert all[j] == marked[j] && allMarks[j] == marks[j];
      }
    }
    assert all[|marked|] == n;
    forall i: nat | i < n && HasEnd(html, offsets[i]) ensures i in all {
      assert i in marked;
    }
  }

  lemma SkipsItem(html: string, offsets: seq<nat>, lines: seq<nat>, n: nat, inFlow: bool, marked: seq<nat>,
                  marks: seq<Insertion>, m: nat, allMarks: seq<Insertion>)
    requires n < |offsets| && n < |lines| && ItemsHave(html, offsets, lines, n, inFlow, marked, marks)
    requires !HasEnd(html, offsets[n]) && m == n + 1 && allMarks == marks
    ensures ItemsHave(html, offsets, lines, m, inFlow, marked, allMarks)
  {
    forall i: nat | i < n + 1 && HasEnd(html, offsets[i]) ensures i in marked {
      assert i < n;
    }
  }

  lemma {:induction false} ItemsMarked(html: string, offsets: seq<nat>, lines: seq<nat>, n: nat, inFlow: bool,
                                       marks: seq<Insertion>)
    returns (marked: seq<nat>)
    requires n <= |offsets| && n <= |lines| && AreOffsets(html, offsets)
    requires marks == ItemMarks(html, offsets, lines, n, inFlow)
    ensures ItemsHave(html, offsets, lines, n, inFlow, marked, marks)
  {
    marked := [];
    if n > 0 {
      var o, front := offsets[n - 1], ItemMarks(html, offsets, lines, n - 1, inFlow);
      assert o in offsets;
      var before := ItemsMarked(html, offsets, lines, n - 1, inFlow, front);
      TagEndIs(html, o);
      if F.TagEnd(html, o) < |html| {
        var x: Insertion := Keyed(F.TagEnd(html, o) + 1, Mark(lines[n - 1], inFlow));
        marked := before + [n - 1];
        AddsItem(html, offsets, lines, n - 1, inFlow, before, front, x, n, marked, marks);
      } else {
        marked := before;
        SkipsItem(html, offsets, lines, n - 1, inFlow, before, front, n, marks);
      }
    }
  }

  // ----- From items to slots

  /** The slots of the first `n` blocks are filled by these marks, and all of them are. */
  ghost predicate FlowIsFilled(html: string, st: F.State, anchors: seq<Anchor>, notes: seq<nat>, n: nat,
                               slots: seq<Slot>, marks: seq<Insertion>)
  {
    && Fill(html, st, anchors, notes, slots, marks)
    && (forall s <- slots :: InFlow(s, n))
    && forall s :: InFlow(s, n) && IsSlot(html, st, anchors, notes, s) ==> s in slots
  }

  predicate InFlow(s: Slot, n: nat) {
    match s
    case BeforeBlock(k) => k < n
    case InItem(k, _) => k < n
    case _ => false
  }

  lemma FillBoth(html: string, st: F.State, anchors: seq<Anchor>, notes: seq<nat>, a: seq<Slot>, x: seq<Insertion>,
                 b: seq<Slot>, y: seq<Insertion>)
    requires Fill(html, st, anchors, notes, a, x) && Fill(html, st, anchors, notes, b, y)
    requires forall s <- a :: s !in b
    ensures Fill(html, st, anchors, notes, a + b, x + y)
  {
    forall i, j | 0 <= i < j < |a + b| ensures (a + b)[i] != (a + b)[j] {
      if i < |a| <= j {
        assert a[i] in a && b[j - |a|] in b;
      }
    }
  }

  /** The slots of the items of block `k`. */
  lemma ItemsFill(html: string, st: F.State, anchors: seq<Anchor>, notes: seq<nat>, k: nat) returns (slots: seq<Slot>)
    requires k < |st.blocks| && k < |anchors| && F.IsListTag(st.blocks[k].tag) && AreOffsets(html, st.blocks[k].items)
    ensures Fill(html, st, anchors, notes, slots,
                 ItemMarks(html, st.blocks[k].items, anchors[k].items,
                           Least(|st.blocks[k].items|, |anchors[k].items|), true))
    ensures forall s <- slots :: s.InItem? && s.k == k
    ensures forall i: nat :: IsSlot(html, st, anchors, notes, InItem(k, i)) ==> InItem(k, i) in slots
  {
    var offsets, lines := st.blocks[k].items, anchors[k].items;
    var n := Least(|offsets|, |lines|);
    var marks := ItemMarks(html, offsets, lines, n, true);
    var marked := ItemsMarked(html, offsets, lines, n, true, marks);
    slots := seq(|marked|, j requires 0 <= j < |marked| => InItem(k, marked[j]));
    forall j | 0 <= j < |slots|
      ensures IsSlot(html, st, anchors, notes, slots[j]) && StandsIn(html, st, anchors, notes, slots[j], marks[j])
    {
      assert MarksItem(html, offsets[marked[j]], lines[marked[j]], true, marks[j]);
    }
    forall i: nat | IsSlot(html, st, anchors, notes, InItem(k, i)) ensures InItem(k, i) in slots {
      var j :| 0 <= j < |marked| && marked[j] == i;
      assert slots[j] == InItem(k, i);
    }
  }

  /** The same for the notes. */
  lemma NotesFill(html: string, st: F.State, anchors: seq<Anchor>, notes: seq<nat>) returns (slots: seq<Slot>)
    requires st.section.Some? && AreOffsets(html, st.section.value.items)
    ensures Fill(html, st, anchors, notes, slots,
                 ItemMarks(html, st.section.value.items, notes, Least(|st.section.value.items|, |notes|), false))
    ensures forall s <- slots :: s.InNote?
    ensures forall i: nat :: IsSlot(html, st, anchors, notes, InNote(i)) ==> InNote(i) in slots
  {
    var offsets := st.section.value.items;
    var n := Least(|offsets|, |notes|);
    var marks := ItemMarks(html, offsets, notes, n, false);
    var marked := ItemsMarked(html, offsets, notes, n, false, marks);
    slots := seq(|marked|, j requires 0 <= j < |marked| => InNote(marked[j]));
    forall j | 0 <= j < |slots|
      ensures IsSlot(html, st, anchors, notes, slots[j]) && StandsIn(html, st, anchors, notes, slots[j], marks[j])
    {
      assert MarksItem(html, offsets[marked[j]], notes[marked[j]], false, marks[j]);
    }
    forall i: nat | IsSlot(html, st, anchors, notes, InNote(i)) ensures InNote(i) in slots {
      var j :| 0 <= j < |marked| && marked[j] == i;
      assert slots[j] == InNote(i);
    }
  }

  /** The slots of block `k`: the one before it, and those of its items if it is a list. */
  lemma BlockFills(html: string, st: F.State, anchors: seq<Anchor>, notes: seq<nat>, k: nat, marks: seq<Insertion>)
    returns (slots: seq<Slot>)
    requires k < |st.blocks| && k < |anchors| && HasOffsets(html, st.blocks[k])
    requires marks == BlockMarks(html, st.blocks[k], anchors[k])
    ensures Fill(html, st, anchors, notes, slots, marks)
    ensures forall s <- slots :: (s.BeforeBlock? || s.InItem?) && s.k == k
    ensures BeforeBlock(k) in slots
    ensures forall i: nat :: IsSlot(html, st, anchors, notes, InItem(k, i)) ==> InItem(k, i) in slots
  {
    var own: seq<Slot>, mark: seq<Insertion> :=
      [BeforeBlock(k)], [Keyed(st.blocks[k].offset, Mark(anchors[k].line, true))];
    assert Fill(html, st, anchors, notes, own, mark);
    if anchors[k].items != [] && F.IsListTag(st.blocks[k].tag) {
      var items := ItemsFill(html, st, anchors, notes, k);
      var rest := ItemMarks(html, st.blocks[k].items, anchors[k].items,
                            Least(|st.blocks[k].items|, |anchors[k].items|), true);
      FillBoth(html, st, anchors, notes, own, mark, items, rest);
      slots := own + items;
    } else {
      assert mark + [] == mark;
      slots := own;
    }
  }

  lemma {:induction false} FlowFills(html: string, st: F.State, anchors: seq<Anchor>, notes: seq<nat>, n: nat,
                                     marks: seq<Insertion>)
    returns (slots: seq<Slot>)
    requires n <= |st.blocks| && n <= |anchors| && FitsText(html, st)
    requires marks == FlowMarks(html, st.blocks, anchors, n)
    ensures FlowIsFilled(html, st, anchors, notes, n, slots, marks)
  {
    slots := [];
    if n > 0 {
      var front := FlowMarks(html, st.blocks, anchors, n - 1);
      assert st.blocks[n - 1] in st.blocks;
      var own := BlockMarks(html, st.blocks[n - 1], anchors[n - 1]);
      var before := FlowFills(html, st, anchors, notes, n - 1, front);
      var block := BlockFills(html, st, anchors, notes, n - 1, own);
      slots := before + block;
      FillBoth(html, st, anchors, notes, before, front, block, own);
      MoreFlow(html, st, anchors, notes, n - 1, before, block);
    }
  }

  lemma MoreFlow(html: string, st: F.State, anchors: seq<Anchor>, notes: seq<nat>, k: nat, before: seq<Slot>,
                 block: seq<Slot>)
    requires forall s <- before :: InFlow(s, k)
    requires forall s <- block :: (s.BeforeBlock? || s.InItem?) && s.k == k
    requires forall s :: InFlow(s, k) && IsSlot(html, st, anchors, notes, s) ==> s in before
    requires BeforeBlock(k) in block
    requires forall i: nat :: IsSlot(html, st, anchors, notes, InItem(k, i)) ==> InItem(k, i) in block
    ensures forall s <- before + block :: InFlow(s, k + 1)
    ensures forall s :: InFlow(s, k + 1) && IsSlot(html, st, anchors, notes, s) ==> s in before + block
  {
    forall s | InFlow(s, k + 1) && IsSlot(html, st, anchors, notes, s) ensures s in before + block {
      if InFlow(s, k) {
        assert s in before;
      } else {
        assert s in block;
      }
    }
  }

  // ----- All marks

  /** Every slot is filled, once. */
  ghost predicate AllFilled(html: string, st: F.State, anchors: seq<Anchor>, notes: seq<nat>, slots: seq<Slot>,
                            marks: seq<Insertion>)
  {
    && Fill(html, st, anchors, notes, slots, marks)
    && forall s :: IsSlot(html, st, anchors, notes, s) ==> s in slots
  }

  lemma NoteSlots(html: string, st: F.State, anchors: seq<Anchor>, notes: seq<nat>, marks: seq<Insertion>)
    returns (slots: seq<Slot>)
    requires FitsText(html, st) && marks == NoteMarks(html, st.section, notes)
    ensures Fill(html, st, anchors, notes, slots, marks)
    ensures forall s <- slots :: s.BeforeNotes? || s.InNote?
    ensures forall s :: IsSlot(html, st, anchors, notes, s) && (s.BeforeNotes? || s.InNote?) ==> s in slots
  {
    slots := [];
    if st.section.Some? && notes != [] {
      var own: seq<Slot>, mark: seq<Insertion> :=
        [BeforeNotes], [Keyed(st.section.value.offset, Mark(notes[0], false))];
      assert Fill(html, st, anchors, notes, own, mark);
      var items := NotesFill(html, st, anchors, notes);
      var rest := ItemMarks(html, st.section.value.items, notes, Least(|st.section.value.items|, |notes|), false);
      FillBoth(html, st, anchors, notes, own, mark, items, rest);
      slots := own + items;
      assert slots[0] == BeforeNotes;
    }
  }

  lemma MarksFill(html: string, st: F.State, anchors: seq<Anchor>, notes: seq<nat>, marks: seq<Insertion>)
    returns (slots: seq<Slot>)
    requires FitsText(html, st) && marks == AllMarks(html, st, anchors, notes)
    ensures AllFilled(html, st, anchors, notes, slots, marks)
  {
    var n := Least(|st.blocks|, |anchors|);
    var flow, rest := FlowMarks(html, st.blocks, anchors, n), NoteMarks(html, st.section, notes);
    var a := FlowFills(html, st, anchors, notes, n, flow);
    var b := NoteSlots(html, st, anchors, notes, rest);
    FillBoth(html, st, anchors, notes, a, flow, b, rest);
    slots := a + b;
    forall s | IsSlot(html, st, anchors, notes, s) ensures s in slots {
      if InFlow(s, n) {
        assert s in a;
      } else {
        assert s in b;
      }
    }
  }

  // ----- Sorting moves marks and slots alike

  /** `p` is a permutation of the indices of `a` that gives `b`. */
  ghost predicate Rearranges<T>(p: seq<nat>, a: seq<T>, b: seq<T>) {
    && |p| == |a| == |b| && AreDistinct(p)
    && (forall n :: 0 <= n < |p| ==> p[n] < |a| && b[n] == a[p[n]])
    && forall i: nat :: i < |a| ==> i in p
  }

  lemma {:induction false} PermutationOf<T>(a: seq<T>, b: seq<T>) returns (p: seq<nat>)
    requires multiset(a) == multiset(b)
    ensures Rearranges(p, a, b)
    decreases |b|
  {
    SameLength(a, b);
    p := [];
    if b != [] {
      var i := IndexOfLast(a, b);
      var rest := a[..i] + a[i + 1..];
      RestMatches(a, b, i, rest);
      var q := PermutationOf(rest, b[..|b| - 1]);
      p := seq(|q|, n requires 0 <= n < |q| => if q[n] < i then q[n] else q[n] + 1) + [i];
      PutBack(a, b, i, rest, q, p);
    }
  }

  lemma SameLength<T>(a: seq<T>, b: seq<T>)
    requires multiset(a) == multiset(b)
    ensures |a| == |b|
  {
    assert |multiset(a)| == |a| && |multiset(b)| == |b|;
  }

  lemma IndexOfLast<T>(a: seq<T>, b: seq<T>) returns (i: nat)
    requires multiset(a) == multiset(b) && b != []
    ensures i < |a| && a[i] == b[|b| - 1]
  {
    assert b[|b| - 1] in multiset(b);
    assert b[|b| - 1] in a;
    i :| i < |a| && a[i] == b[|b| - 1];
  }

  lemma RestMatches<T>(a: seq<T>, b: seq<T>, i: nat, rest: seq<T>)
    requires multiset(a) == multiset(b) && b != [] && i < |a| && a[i] == b[|b| - 1]
    requires rest == a[..i] + a[i + 1..]
    ensures multiset(rest) == multiset(b[..|b| - 1])
  {
    WithoutOne(a, i);
    assert b == b[..|b| - 1] + [b[|b| - 1]];
    assert multiset(b) == multiset(b[..|b| - 1]) + multiset{a[i]};
    assert multiset(rest) == multiset(a) - multiset{a[i]};
  }

  lemma WithoutOne<T>(a: seq<T>, i: nat)
    requires i < |a|
    ensures multiset(a) == multiset(a[..i] + a[i + 1..]) + multiset{a[i]}
  {
    assert a == a[..i] + ([a[i]] + a[i + 1..]);
  }

  lemma PutBack<T>(a: seq<T>, b: seq<T>, i: nat, rest: seq<T>, q: seq<nat>, p: seq<nat>)
    requires b != [] && i < |a| && a[i] == b[|b| - 1] && rest == a[..i] + a[i + 1..]
    requires Rearranges(q, rest, b[..|b| - 1])
    requires |p| == |q| + 1 && p[|q|] == i
    requires forall n :: 0 <= n < |q| ==> p[n] == if q[n] < i then q[n] else q[n] + 1
    ensures Rearranges(p, a, b)
  {
    forall n | 0 <= n < |p| ensures p[n] < |a| && b[n] == a[p[n]] {
      if n < |q| {
        assert b[..|b| - 1][n] == b[n] && rest[q[n]] == b[n];
      }
    }
    forall k: nat | k < |a| ensures k in p {
      if k == i {
        assert p[|q|] == k;
      } else {
        var m: nat := if k < i then k else k - 1;
        assert m in q;
        var n :| 0 <= n < |q| && q[n] == m;
        assert p[n] == k;
      }
    }
  }

  lemma FillRearranged(html: string, st: F.State, anchors: seq<Anchor>, notes: seq<nat>, slots: seq<Slot>,
                       marks: seq<Insertion>, p: seq<nat>, sorted: seq<Insertion>)
    returns (moved: seq<Slot>)
    requires AllFilled(html, st, anchors, notes, slots, marks) && Rearranges(p, marks, sorted)
    ensures AllFilled(html, st, anchors, notes, moved, sorted)
  {
    moved := seq(|p|, n requires 0 <= n < |p| => slots[p[n]]);
    forall s | IsSlot(html, st, anchors, notes, s) ensures s in moved {
      var i: nat :| i < |slots| && slots[i] == s;
      assert i in p;
      var n :| 0 <= n < |p| && p[n] == i;
      assert moved[n] == s;
    }
    forall i, j | 0 <= i < j < |moved| ensures moved[i] != moved[j] {
      assert p[i] != p[j] && (p[i] < p[j] || p[j] < p[i]);
    }
  }

  // ----- The marks in the output

  /** Each mark of the output with its place: the length of the original text before it. */
  function Places(parts: seq<Part>): seq<Insertion> {
    if parts == [] then []
    else
      var front, last := parts[..|parts| - 1], parts[|parts| - 1];
      Places(front) + if last.Inserted? then [Keyed(|OriginalText(front)|, last.mark)] else []
  }

  lemma PlacesOfText(parts: seq<Part>, text: string, more: seq<Part>)
    requires more == parts + [Original(text)]
    ensures Places(more) == Places(parts)
  {
    assert more[..|parts|] == parts;
  }

  lemma PlacesOfMark(parts: seq<Part>, mark: Mark, more: seq<Part>)
    requires more == parts + [Inserted(mark)]
    ensures Places(more) == Places(parts) + [Keyed(|OriginalText(parts)|, mark)]
  {
    assert more[..|parts|] == parts;
  }

  lemma OffsetAfter(html: string, parts: seq<Part>, from: nat, to: nat, more: seq<Part>)
    requires from <= to <= |html| && |OriginalText(parts)| == from && more == parts + [Original(html[from..to])]
    ensures |OriginalText(more)| == to
  {
    assert more[..|parts|] == parts;
  }

  lemma PlaceOfCopied(html: string, parts: seq<Part>, from: nat, to: nat, mark: Mark, all: seq<Part>)
    requires from <= to <= |html| && |OriginalText(parts)| == from
    requires all == parts + [Original(html[from..to]), Inserted(mark)]
    ensures Places(all) == Places(parts) + [Keyed(to, mark)]
  {
    var more := parts + [Original(html[from..to])];
    PlacesOfText(parts, html[from..to], more);
    OffsetAfter(html, parts, from, to, more);
    PlacesOfMark(more, mark, all);
  }

  lemma LastParts(html: string, insertions: seq<Insertion>, n: nat, parts: seq<Part>, all: seq<Part>)
    returns (from: nat, to: nat)
    requires 0 < n <= |insertions| && AreInsertions(html, insertions)
    requires parts == PartsBefore(html, insertions, n - 1) && all == PartsBefore(html, insertions, n)
    ensures from <= to <= |html| && |OriginalText(parts)| == from && to == insertions[n - 1].key
    ensures all == parts + [Original(html[from..to]), Inserted(insertions[n - 1].value)]
  {
    PartsBeforeAre(html, insertions, n - 1);
    CopiedInRange(html, insertions, n);
    from, to := CopiedTo(insertions, n - 1), insertions[n - 1].key;
  }

  lemma {:induction false} PlacesBefore(html: string, insertions: seq<Insertion>, n: nat, parts: seq<Part>)
    requires n <= |insertions| && AreInsertions(html, insertions) && parts == PartsBefore(html, insertions, n)
    ensures Places(parts) == insertions[..n]
  {
    if n > 0 {
      var front, x := PartsBefore(html, insertions, n - 1), insertions[n - 1];
      PlacesBefore(html, insertions, n - 1, front);
      var from, to := LastParts(html, insertions, n, front, parts);
      PlaceOfCopied(html, front, from, to, x.value, parts);
      assert insertions[..n] == insertions[..n - 1] + [x];
    }
  }

  lemma PlacesAreInsertions(html: string, insertions: seq<Insertion>)
    requires AreInsertions(html, insertions)
    ensures Places(Parts(html, insertions)) == insertions
  {
    var n := |insertions|;
    PlacesBefore(html, insertions, n, PartsBefore(html, insertions, n));
    PlacesOfText(PartsBefore(html, insertions, n), html[CopiedTo(insertions, n)..], Parts(html, insertions));
    assert insertions[..n] == insertions;
  }

  /** The marks of the output are exactly those that belong there: each slot that the blocks, their items, the notes
      section and the notes offer holds the mark of its line, at its place, once; and there is no other mark. */
  lemma MarksAreWhereTheyBelong(html: string, st: F.State, anchors: seq<Anchor>, notes: seq<nat>)
    returns (slots: seq<Slot>)
    requires FitsText(html, st)
    ensures var marks := Places(Parts(html, Insertions(html, st, anchors, notes)));
            && |slots| == |marks| && AreDistinct(slots)
            && (forall s :: s in slots <==> IsSlot(html, st, anchors, notes, s))
            && forall n :: 0 <= n < |slots| ==> StandsIn(html, st, anchors, notes, slots[n], marks[n])
  {
    var all := AllMarks(html, st, anchors, notes);
    var sorted := Insertions(html, st, anchors, notes);
    slots := MarksFill(html, st, anchors, notes, all);
    SortFacts(all);
    var p := PermutationOf(all, sorted);
    slots := FillRearranged(html, st, anchors, notes, slots, all, p, sorted);
    PlacesAreInsertions(html, sorted);
  }

  // ----- What a mark says

  /** The line of the mark that a text begins with. */
  function LineOf(s: string): nat
    requires MarkLength(s) > 0
  {
    var k := SentinelLines.SkipDigits(s, |OPENING|);
    Number(s[|OPENING|..k])
  }

  /** What is written for a mark says its line, whatever follows it. */
  lemma FragmentSaysLine(line: nat, rest: string)
    ensures MarkLength(Fragment(line) + rest) == |Fragment(line)| > 0
    ensures LineOf(Fragment(line) + rest) == line
  {
    var digits := Digits(line);
    DigitsReadBack(line);
    FragmentIsMark(line, rest);
    FragmentIs(line);
    EndingFacts();
    var s := OPENING + digits + (ENDING + rest);
    assert Fragment(line) + rest == s;
    SkipAll(OPENING, digits, ENDING + rest);
    assert s[|OPENING|..|OPENING| + |digits|] == digits;
  }
}
