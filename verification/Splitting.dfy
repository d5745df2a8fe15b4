/** `str.split` and `str.join` with a one-character separator. */
module Splitting {

  /** The parts between the separators. */
  function Split(s: string, sep: char): (parts: seq<string>)
    ensures |parts| > 0
  {
    if s == "" then [""]
    else
      var rest := Split(s[1..], sep);
      if s[0] == sep then [""] + rest else [[s[0]] + rest[0]] + rest[1..]
  }

  function Join(parts: seq<string>, sep: char): string {
    if parts == [] then ""
    else if |parts| == 1 then parts[0]
    else Join(parts[..|parts| - 1], sep) + [sep] + parts[|parts| - 1]
  }

  lemma {:induction false} SplitConcat(a: string, b: string, sep: char)
    ensures Split(a + [sep] + b, sep) == Split(a, sep) + Split(b, sep)
  {
    if a == "" {
      assert a + [sep] + b == [sep] + b && ([sep] + b)[1..] == b;
    } else {
      assert (a + [sep] + b)[1..] == a[1..] + [sep] + b;
      SplitConcat(a[1..], b, sep);
    }
  }

  lemma {:induction false} SplitPart(s: string, sep: char)
    requires sep !in s
    ensures Split(s, sep) == [s]
  {
    if s != "" {
      assert forall c <- s[1..] :: c in s;
      SplitPart(s[1..], sep);
      assert s == [s[0]] + s[1..];
    }
  }

  lemma {:induction false} SplitPartsHaveNo(s: string, sep: char)
    ensures forall part <- Split(s, sep) :: sep !in part && forall c <- part :: c in s
  {
    if s != "" {
      var rest := Split(s[1..], sep);
      SplitPartsHaveNo(s[1..], sep);
      assert forall c <- s[1..] :: c in s;
      forall part | part in Split(s, sep) ensures sep !in part && forall c <- part :: c in s {
        if s[0] == sep {
          assert part == "" || part in rest;
        } else {
          assert rest[0] in rest && (part == [s[0]] + rest[0] || part in rest);
        }
      }
    }
  }

  /** Joining parts without separators and splitting again gives the parts. */
  lemma {:induction false} SplitJoin(parts: seq<string>, sep: char)
    requires parts != [] && forall p <- parts :: sep !in p
    ensures Split(Join(parts, sep), sep) == parts
  {
    var front, last := parts[..|parts| - 1], parts[|parts| - 1];
    assert parts == front + [last];
    SplitPart(last, sep);
    if front != [] {
      SplitJoin(front, sep);
      SplitConcat(Join(front, sep), last, sep);
    }
  }

  /** Texts with the separator at the same places have equally many parts, of the same lengths. */
  lemma {:induction false} SameSeparatorsSameShape(s: string, t: string, sep: char)
    requires |s| == |t| && forall k :: 0 <= k < |s| ==> (s[k] == sep <==> t[k] == sep)
    ensures |Split(s, sep)| == |Split(t, sep)|
    ensures forall i :: 0 <= i < |Split(s, sep)| ==> |Split(s, sep)[i]| == |Split(t, sep)[i]|
  {
    if s != "" {
      SameSeparatorsSameShape(s[1..], t[1..], sep);
    }
  }
}
