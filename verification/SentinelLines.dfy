/** What single source lines mean to the scroll-sync scanner: the line patterns it matches. */
module SentinelLines {
  import opened Options
  import opened PyText

  /** The length of the fence of three or more backticks or tildes that opens the line, or 0. */
  function FenceRun(line: string): (n: nat)
    ensures n <= |line|
    ensures n > 0 ==> n >= 3 && (line[0] == '`' || line[0] == '~') && forall j :: 0 <= j < n ==> line[j] == line[0]
  {
    if line == "" || (line[0] != '`' && line[0] != '~') then 0
    else
      var n := SkipChar(line, line[0], 0);
      if n >= 3 then n else 0
  }

  /** A code fence that is open, or none. */
  datatype Fence = Outside | Inside(mark: char, len: nat)

  predicate ClosesFence(line: string, fence: Fence)
    requires fence.Inside?
  {
    var n := FenceRun(line);
    n > 0 && line[0] == fence.mark && n >= fence.len && IsBlank(line[n..])
  }

  /** The fence after a line. */
  function NextFence(fence: Fence, line: string): Fence {
    if fence.Inside? then if ClosesFence(line, fence) then Outside else fence
    else if FenceRun(line) > 0 then Inside(line[0], FenceRun(line))
    else Outside
  }

  predicate IsDigit(c: char) {
    '0' <= c <= '9'
  }

  function SkipDigits(s: string, i: nat): (k: nat)
    requires i <= |s|
    ensures i <= k <= |s| && (forall j :: i <= j < k ==> IsDigit(s[j])) && (k < |s| ==> !IsDigit(s[k]))
    decreases |s| - i
  {
    if i < |s| && IsDigit(s[i]) then SkipDigits(s, i + 1) else i
  }

  /** The width of a list marker before its whitespace: a bullet, or up to nine digits and `.` or `)`. */
  function MarkerWidth(s: string): (w: nat)
    ensures w <= |s|
  {
    if s == "" then 0
    else if s[0] == '-' || s[0] == '*' || s[0] == '+' then 1
    else
      var d := SkipDigits(s, 0);
      if 1 <= d <= 9 && d < |s| && (s[d] == '.' || s[d] == ')') then d + 1 else 0
  }

  /** The width of a list marker and the whitespace after it, which must be there. */
  function ListMarker(s: string): (w: Option<nat>)
    ensures w.Some? ==> 2 <= w.value <= |s|
  {
    var m := MarkerWidth(s);
    if m > 0 && m < |s| && IsSpace(s[m]) then Some(SkipSpaces(s, m)) else None
  }

  /** A line of a definition list: `:` or `~` and whitespace. */
  predicate IsDefMarker(s: string) {
    |s| >= 2 && (s[0] == ':' || s[0] == '~') && IsSpace(s[1])
  }

  datatype Label = Label(text: string)

  /** The label of a footnote definition, which may be indented by up to three spaces. */
  function FootnoteDef(line: string): Option<Label> {
    var i := SkipSpaces(line, 0);
    if i <= 3 && i + 1 < |line| && line[i] == '[' && line[i + 1] == '^' then
      var q := FindChar(line, ']', i + 2);
      if i + 2 < q && q + 1 < |line| && line[q + 1] == ':' then Some(Label(line[i + 2..q])) else None
    else None
  }

  /** A link reference definition, with a label that does not start with `^`. */
  predicate IsLinkRefDef(line: string) {
    var i := SkipSpaces(line, 0);
    && i <= 3 && i + 1 < |line| && line[i] == '[' && line[i + 1] != '^'
    && var q := FindChar(line, ']', i + 1);
       i + 1 < q && q + 2 < |line| && line[q + 1] == ':' && IsSpace(line[q + 2])
  }

  /** A line that goes on with a footnote definition. */
  predicate ContinuesNote(line: string) {
    IsBlank(line) || StartsWith(line, "    ") || StartsWith(line, "\t")
  }

  /** The first line from `i` on that does not go on with the definition above it. */
  function SkipNote(lines: seq<string>, i: nat): (k: nat)
    requires i <= |lines|
    ensures i <= k <= |lines|
    ensures forall j :: i <= j < k ==> ContinuesNote(lines[j])
    ensures k < |lines| ==> !ContinuesNote(lines[k])
    decreases |lines| - i
  {
    if i < |lines| && ContinuesNote(lines[i]) then SkipNote(lines, i + 1) else i
  }

  /** Skips the lines that go on with a definition. */
  method SkipContinuation(lines: seq<string>, from: nat) returns (i: nat)
    requires from <= |lines|
    ensures i == SkipNote(lines, from)
  {
    i := from;
    while i < |lines| && ContinuesNote(lines[i])
      invariant from <= i <= |lines| && SkipNote(lines, from) == SkipNote(lines, i)
    {
      i := i + 1;
    }
  }

  /** Whether a line opens or closes a fenced div. */
  datatype DivFence = Opens | Closes | NoFence

  function DivFenceOf(line: string): DivFence {
    if !StartsWith(line, ":::") then NoFence
    else if IsBlank(line[SkipChar(line, ':', 0)..]) then Closes
    else Opens
  }

  /** Three or more colons: alone they close a div, with anything after them they open one. */
  method ClassifyDivFence(line: string) returns (r: DivFence)
    ensures r == DivFenceOf(line)
  {
    if !StartsWith(line, ":::") {
      return NoFence;
    }
    var trailingStart := 3;
    assert forall j :: 0 <= j < 3 ==> line[j] == ":::"[j] == ':';
    while trailingStart < |line| && line[trailingStart] == ':'
      invariant 3 <= trailingStart <= |line| && forall j :: 0 <= j < trailingStart ==> line[j] == ':'
    {
      trailingStart := trailingStart + 1;
    }
    ghost var colons := trailingStart;
    assert SkipChar(line, ':', 0) == colons;
    while trailingStart < |line|
      invariant colons <= trailingStart <= |line| && forall j :: colons <= j < trailingStart ==> IsSpace(line[j])
    {
      if !IsSpace(line[trailingStart]) {
        assert line[colons..][trailingStart - colons] == line[trailingStart];
        return Opens;
      }
      trailingStart := trailingStart + 1;
    }
    assert forall c <- line[colons..] :: IsSpace(c);
    return Closes;
  }
}
