/** Laws of the sanitizer for every event sequence: end tags match, and no text is lost. */
module SanitizerLaws {
  import opened Options
  import opened PyText
  import opened Html
  import opened Sanitizer
  import opened SanitizerTree

  // ----- End tags match, whatever the events

  /** `at` gives, for each open tag that was written, the position of its start tag. */
  ghost predicate Tracked(s: State, at: seq<nat>, m: map<nat, nat>) {
    && |at| == |s.open|
    && LifoMatched(s.pieces, m)
    && (forall i :: 0 <= i < |at| && s.open[i].Some? ==>
          at[i] < |s.pieces| && s.pieces[at[i]].Open? && s.pieces[at[i]].tag == s.open[i].value)
    && (forall i, j :: 0 <= i < j < |at| && s.open[i].Some? && s.open[j].Some? ==> at[i] < at[j])
    && (forall e, i :: e in m && 0 <= i < |at| && s.open[i].Some? ==> at[i] < m[e] || at[i] > e)
  }

  lemma WritePlain(s: State, p: Piece, at: seq<nat>, m: map<nat, nat>)
    requires Tracked(s, at, m) && !p.Close?
    ensures Tracked(State(s.pieces + [p], s.open), at, m)
  {
  }

  lemma WriteOpen(s: State, p: Piece, at: seq<nat>, m: map<nat, nat>)
    requires Tracked(s, at, m) && p.Open?
    ensures Tracked(State(s.pieces + [p], s.open + [Some(p.tag)]), at + [|s.pieces|], m)
  {
  }

  lemma OpenNothing(s: State, at: seq<nat>, m: map<nat, nat>)
    requires Tracked(s, at, m)
    ensures Tracked(State(s.pieces, s.open + [None]), at + [0], m)
  {
  }

  lemma CloseNothing(s: State, at: seq<nat>, m: map<nat, nat>)
    requires Tracked(s, at, m) && s.open != []
    ensures Tracked(State(s.pieces, s.open[..|s.open| - 1]), at[..|at| - 1], m)
  {
  }

  lemma WriteClose(s: State, tag: string, at: seq<nat>, m: map<nat, nat>)
    requires Tracked(s, at, m) && s.open != [] && s.open[|s.open| - 1] == Some(tag) && tag !in VOID_TAGS
    ensures Tracked(State(s.pieces + [Close(tag)], s.open[..|s.open| - 1]), at[..|at| - 1],
              m[|s.pieces| := at[|at| - 1]])
  {
    var start := at[|at| - 1];
    assert forall e :: e in m ==> start < m[e] || start > e;
    LifoClose(s.pieces, tag, m, start);
    KeysAreBelow(s.pieces, m);
  }

  lemma KeysAreBelow(pieces: seq<Piece>, m: map<nat, nat>)
    requires LifoMatched(pieces, m)
    ensures forall e :: e in m ==> e < |pieces|
  {
  }

  /** An end tag that is matched with an open start tag outside of all matched pairs after it. */
  lemma LifoClose(pieces: seq<Piece>, tag: string, m: map<nat, nat>, start: nat)
    requires LifoMatched(pieces, m) && tag !in VOID_TAGS
    requires start < |pieces| && pieces[start].Open? && pieces[start].tag == tag
    requires forall e :: e in m ==> start < m[e] || start > e
    ensures LifoMatched(pieces + [Close(tag)], m[|pieces| := start])
  {
    var last, m' := |pieces|, m[|pieces| := start];
    KeysAreBelow(pieces, m);
    forall e, f | e in m' && f in m' && e < f ensures m'[f] > e || m'[f] < m'[e] {
      if f == last {
        assert start < m[e] || start > e;
      }
    }
  }

  lemma OpenNotice(s: State, at: seq<nat>, m: map<nat, nat>)
    requires Tracked(s, at, m)
    ensures Tracked(State(s.pieces + [Open("p", []), Open("em", []), Text(NOTICE_TEXT)],
                          s.open + [Some("p"), Some("em")]),
                    at + [|s.pieces|, |s.pieces| + 1], m)
  {
    var p, em, text := Open("p", []), Open("em", []), Text(NOTICE_TEXT);
    var s1 := State(s.pieces + [p], s.open + [Some("p")]);
    WriteOpen(s, p, at, m);
    var at1 := at + [|s.pieces|];
    var s2 := State(s1.pieces + [em], s1.open + [Some("em")]);
    WriteOpen(s1, em, at1, m);
    var at2 := at1 + [|s1.pieces|];
    WritePlain(s2, text, at2, m);
    assert s2.pieces + [text] == s.pieces + [p, em, text];
    assert s2.open == s.open + [Some("p"), Some("em")];
    assert at2 == at + [|s.pieces|, |s.pieces| + 1];
  }

  /** Closes the two innermost open tags, which stand on top of `rest`. */
  lemma WriteTwoCloses(s: State, inner: string, outer: string, rest: seq<Option<string>>, at: seq<nat>, a: nat, b: nat,
                       m: map<nat, nat>)
    returns (m': map<nat, nat>)
    requires s.open == rest + [Some(outer), Some(inner)] && |at| == |rest|
    requires Tracked(s, at + [a, b], m) && inner !in VOID_TAGS && outer !in VOID_TAGS
    ensures Tracked(State(s.pieces + [Close(inner), Close(outer)], rest), at, m')
  {
    WriteClose(s, inner, at + [a, b], m);
    var m1 := m[|s.pieces| := b];
    var s1 := State(s.pieces + [Close(inner)], rest + [Some(outer)]);
    assert s.open[..|s.open| - 1] == s1.open && (at + [a, b])[..|at| + 1] == at + [a];
    WriteClose(s1, outer, at + [a], m1);
    m' := m1[|s1.pieces| := a];
    assert s1.open[..|s1.open| - 1] == rest && (at + [a])[..|at|] == at;
    assert s1.pieces + [Close(outer)] == s.pieces + [Close(inner), Close(outer)];
  }

  lemma WriteNotice(s: State, at: seq<nat>, m: map<nat, nat>) returns (m': map<nat, nat>)
    requires Tracked(s, at, m)
    ensures Tracked(State(s.pieces + NOTICE, s.open), at, m')
  {
    OpenNotice(s, at, m);
    var mid := State(s.pieces + [Open("p", []), Open("em", []), Text(NOTICE_TEXT)], s.open + [Some("p"), Some("em")]);
    m' := WriteTwoCloses(mid, "em", "p", s.open, at, |s.pieces|, |s.pieces| + 1, m);
    assert mid.pieces + [Close("em"), Close("p")] == s.pieces + NOTICE;
  }

  /** The notice, and the entry of a refused iframe that is still open. */
  lemma TrackNotice(s: State, selfClosing: bool, at: seq<nat>, m: map<nat, nat>)
    returns (at': seq<nat>, m': map<nat, nat>)
    requires Tracked(s, at, m)
    ensures Tracked(State(s.pieces + NOTICE, if selfClosing then s.open else s.open + [None]), at', m')
  {
    at' := at;
    m' := WriteNotice(s, at, m);
    if !selfClosing {
      OpenNothing(State(s.pieces + NOTICE, s.open), at, m');
      at' := at + [0];
    }
  }

  /** A tag that is closed as soon as it is opened. */
  lemma TrackEmpty(s: State, name: string, attrs: seq<SafeAttr>, at: seq<nat>, m: map<nat, nat>)
    returns (m': map<nat, nat>)
    requires Tracked(s, at, m) && name !in VOID_TAGS
    ensures Tracked(State(s.pieces + [Open(name, attrs), Close(name)], s.open), at, m')
  {
    var p := Open(name, attrs);
    WriteOpen(s, p, at, m);
    var s1, at1 := State(s.pieces + [p], s.open + [Some(name)]), at + [|s.pieces|];
    WriteClose(s1, name, at1, m);
    m' := m[|s1.pieces| := |s.pieces|];
    assert s1.pieces + [Close(name)] == s.pieces + [p, Close(name)];
    assert s1.open[..|s1.open| - 1] == s.open && at1[..|at1| - 1] == at;
  }

  lemma TrackIframe(policy: Policy, s: State, attrs: seq<Attr>, selfClosing: bool, at: seq<nat>, m: map<nat, nat>)
    returns (at': seq<nat>, m': map<nat, nat>)
    requires Tracked(s, at, m)
    ensures Tracked(Iframe(policy, s, attrs, selfClosing), at', m')
  {
    at', m' := at, m;
    var src := IframeSrc(attrs);
    if !policy.allowIframes {
      if !selfClosing {
        OpenNothing(s, at, m);
        at' := at + [0];
      }
    } else if src.None? || !policy.isVideo(src.value) {
      at', m' := TrackNotice(s, selfClosing, at, m);
    } else if selfClosing {
      m' := TrackEmpty(s, "iframe", IframeAttrs(src.value), at, m);
    } else {
      WriteOpen(s, Open("iframe", IframeAttrs(src.value)), at, m);
      at' := at + [|s.pieces|];
    }
  }

  lemma TrackStep(policy: Policy, s: State, event: Event, at: seq<nat>, m: map<nat, nat>)
    returns (at': seq<nat>, m': map<nat, nat>)
    requires Tracked(s, at, m)
    ensures Tracked(Step(policy, s, event), at', m')
  {
    at', m' := at, m;
    match event {
      case StartTag(tag, attrs) =>
        var name := Lower(tag);
        if name == "iframe" {
          at', m' := TrackIframe(policy, s, attrs, false, at, m);
        } else if name !in policy.allowedTags {
          OpenNothing(s, at, m);
          at' := at + [0];
        } else {
          WriteOpen(s, Open(name, FilterAttrs(policy, name, attrs)), at, m);
          at' := at + [|s.pieces|];
        }
      case EndTag(tag) =>
        var name := Lower(tag);
        if s.open != [] {
          at' := at[..|at| - 1];
          if s.open[|s.open| - 1] == Some(name) && name !in VOID_TAGS {
            WriteClose(s, name, at, m);
            m' := m[|s.pieces| := at[|at| - 1]];
          } else {
            CloseNothing(s, at, m);
          }
        }
      case StartEndTag(tag, attrs) =>
        var name := Lower(tag);
        if name == "iframe" {
          at', m' := TrackIframe(policy, s, attrs, true, at, m);
        } else if name in policy.allowedTags {
          WritePlain(s, SelfClosed(name, FilterAttrs(policy, name, attrs)), at, m);
        }
      case Data(text) => WritePlain(s, Text(text), at, m);
      case EntityRef(name) => WritePlain(s, Entity(name), at, m);
      case NumericRef(name) => WritePlain(s, CharRef(name), at, m);
      case Unhandled =>
    }
  }

  lemma {:induction false} TrackRun(policy: Policy, s: State, events: seq<Event>, at: seq<nat>, m: map<nat, nat>)
    returns (at': seq<nat>, m': map<nat, nat>)
    requires Tracked(s, at, m)
    ensures Tracked(Run(policy, s, events), at', m')
    decreases |events|
  {
    at', m' := at, m;
    if events != [] {
      at', m' := TrackStep(policy, s, events[0], at, m);
      at', m' := TrackRun(policy, Step(policy, s, events[0]), events[1..], at', m');
    }
  }

  /** For every event sequence, well nested or not: the end tags of the output
      can be matched with distinct earlier start tags of the same name, in LIFO order. */
  lemma EndTagsMatch(policy: Policy, events: seq<Event>)
    ensures exists m :: LifoMatched(Sanitized(policy, events), m)
  {
    var at, m := TrackRun(policy, State([], []), events, [], map[]);
    assert LifoMatched(Sanitized(policy, events), m);
  }

  // ----- No text is lost, whatever the events

  /** The character data among the pieces, in order. */
  function TextOf(pieces: seq<Piece>): seq<Piece> {
    if pieces == [] then []
    else
      var last := pieces[|pieces| - 1];
      TextOf(pieces[..|pieces| - 1]) + if last.Text? || last.Entity? || last.CharRef? then [last] else []
  }

  predicate IsRejectedIframe(policy: Policy, event: Event) {
    && (event.StartTag? || event.StartEndTag?)
    && Lower(event.tag) == "iframe"
    && policy.allowIframes
    && (IframeSrc(event.attrs).None? || !policy.isVideo(IframeSrc(event.attrs).value))
  }

  /** The character data a reader should see: the document's, with a notice for each refused iframe. */
  function ExpectedText(policy: Policy, events: seq<Event>): seq<Piece> {
    if events == [] then []
    else ExpectedText(policy, events[..|events| - 1]) + EventText(policy, events[|events| - 1])
  }

  lemma TextOfSnoc(pieces: seq<Piece>, p: Piece)
    ensures TextOf(pieces + [p]) == TextOf(pieces) + if p.Text? || p.Entity? || p.CharRef? then [p] else []
  {
    assert (pieces + [p])[..|pieces|] == pieces;
  }

  lemma {:induction false} TextOfAppend(a: seq<Piece>, b: seq<Piece>)
    ensures TextOf(a + b) == TextOf(a) + TextOf(b)
  {
    if b == [] {
      assert a + b == a;
    } else {
      var front, last := b[..|b| - 1], b[|b| - 1];
      assert b == front + [last] && a + b == (a + front) + [last];
      TextOfSnoc(a + front, last);
      TextOfSnoc(front, last);
      TextOfAppend(a, front);
    }
  }

  lemma TextOfPair(a: Piece, b: Piece)
    requires !a.Text? && !a.Entity? && !a.CharRef? && !b.Text? && !b.Entity? && !b.CharRef?
    ensures TextOf([a, b]) == []
  {
    TextOfSnoc([], a);
    TextOfSnoc([a], b);
    assert [] + [a] == [a] && [a] + [b] == [a, b];
  }

  lemma TextOfNotice(pieces: seq<Piece>)
    ensures TextOf(pieces + NOTICE) == TextOf(pieces) + [Text(NOTICE_TEXT)]
  {
    var start, middle, end := [Open("p", []), Open("em", [])], [Text(NOTICE_TEXT)], [Close("em"), Close("p")];
    TextOfAppend(pieces, NOTICE);
    TextOfAppend(start + middle, end);
    TextOfAppend(start, middle);
    TextOfPair(Open("p", []), Open("em", []));
    TextOfPair(Close("em"), Close("p"));
    TextOfSnoc([], Text(NOTICE_TEXT));
    assert [] + middle == middle;
  }

  /** The character data an event stands for. */
  function EventText(policy: Policy, event: Event): seq<Piece> {
    match event
    case Data(text) => [Text(text)]
    case EntityRef(name) => [Entity(name)]
    case NumericRef(name) => [CharRef(name)]
    case _ => if IsRejectedIframe(policy, event) then [Text(NOTICE_TEXT)] else []
  }

  lemma TextOfIframe(policy: Policy, s: State, attrs: seq<Attr>, selfClosing: bool)
    ensures var refused := policy.allowIframes && (IframeSrc(attrs).None? || !policy.isVideo(IframeSrc(attrs).value));
            TextOf(Iframe(policy, s, attrs, selfClosing).pieces) ==
            TextOf(s.pieces) + if refused then [Text(NOTICE_TEXT)] else []
  {
    var src := IframeSrc(attrs);
    if policy.allowIframes {
      if src.None? || !policy.isVideo(src.value) {
        TextOfNotice(s.pieces);
      } else {
        var player := Open("iframe", IframeAttrs(src.value));
        TextOfSnoc(s.pieces, player);
        TextOfSnoc(s.pieces + [player], Close("iframe"));
        assert s.pieces + [player, Close("iframe")] == s.pieces + [player] + [Close("iframe")];
      }
    }
  }

  lemma TextOfStartTag(policy: Policy, s: State, tag: string, attrs: seq<Attr>)
    ensures TextOf(Step(policy, s, StartTag(tag, attrs)).pieces) ==
            TextOf(s.pieces) + EventText(policy, StartTag(tag, attrs))
  {
    if Lower(tag) == "iframe" {
      TextOfIframe(policy, s, attrs, false);
    } else {
      TextOfSnoc(s.pieces, Open(Lower(tag), FilterAttrs(policy, Lower(tag), attrs)));
    }
  }

  lemma TextOfStartEndTag(policy: Policy, s: State, tag: string, attrs: seq<Attr>)
    ensures TextOf(Step(policy, s, StartEndTag(tag, attrs)).pieces) ==
            TextOf(s.pieces) + EventText(policy, StartEndTag(tag, attrs))
  {
    if Lower(tag) == "iframe" {
      TextOfIframe(policy, s, attrs, true);
    } else {
      TextOfSnoc(s.pieces, SelfClosed(Lower(tag), FilterAttrs(policy, Lower(tag), attrs)));
    }
  }

  lemma TextOfStep(policy: Policy, s: State, event: Event)
    ensures TextOf(Step(policy, s, event).pieces) == TextOf(s.pieces) + EventText(policy, event)
  {
    match event {
      case StartTag(tag, attrs) => TextOfStartTag(policy, s, tag, attrs);
      case StartEndTag(tag, attrs) => TextOfStartEndTag(policy, s, tag, attrs);
      case EndTag(tag) => TextOfSnoc(s.pieces, Close(Lower(tag)));
      case Data(text) => TextOfSnoc(s.pieces, Text(text));
      case EntityRef(name) => TextOfSnoc(s.pieces, Entity(name));
      case NumericRef(name) => TextOfSnoc(s.pieces, CharRef(name));
      case Unhandled =>
    }
  }

  lemma {:induction false} TextOfRun(policy: Policy, events: seq<Event>, i: nat)
    requires i <= |events|
    ensures TextOf(Run(policy, State([], []), events[..i]).pieces) == ExpectedText(policy, events[..i])
  {
    if i > 0 {
      TextOfRun(policy, events, i - 1);
      RunPrefix(policy, State([], []), events, i - 1);
      TextOfStep(policy, Run(policy, State([], []), events[..i - 1]), events[i - 1]);
      assert events[..i][..i - 1] == events[..i - 1];
    }
  }

  /** For every event sequence: all character data of the document is in the output, in order. */
  lemma TextIsKept(policy: Policy, events: seq<Event>)
    ensures TextOf(Sanitized(policy, events)) == ExpectedText(policy, events)
  {
    TextOfRun(policy, events, |events|);
    assert events[..|events|] == events;
  }
}
