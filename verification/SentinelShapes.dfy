/** The kinds of source lines, spelled out character by character, and that the scanner tells them apart. */
module SentinelShapes {
  import opened Options
  import opened PyText
  import opened SentinelLines
  import opened SentinelScanner

  // ----- Code fences

  /** The line opens with a run of exactly `n` backticks or tildes, three or more. */
  predicate IsFence(line: string, c: char, n: nat) {
    && 3 <= n <= |line| && (c == '`' || c == '~')
    && (forall j :: 0 <= j < n ==> line[j] == c) && (n < |line| ==> line[n] != c)
  }

  ghost predicate HasFence(line: string) {
    exists c: char, n: nat :: IsFence(line, c, n)
  }

  /** A run of the same characters, no shorter, and nothing but whitespace behind it. */
  ghost predicate ClosesCode(line: string, c: char, n: nat) {
    exists m: nat :: n <= m && IsFence(line, c, m) && IsBlank(line[m..])
  }

  lemma FenceIs(line: string, c: char, n: nat)
    requires IsFence(line, c, n)
    ensures FenceRun(line) == n && line[0] == c
  {
    var k := SkipChar(line, c, 0);
    assert k >= n by {
      assert !(k < n);
    }
    assert k <= n by {
      assert !(n < k);
    }
  }

  lemma FenceIff(line: string)
    ensures HasFence(line) <==> FenceRun(line) > 0
    ensures FenceRun(line) > 0 ==> IsFence(line, line[0], FenceRun(line))
  {
    if HasFence(line) {
      var c, n: nat :| IsFence(line, c, n);
      FenceIs(line, c, n);
    }
    if FenceRun(line) > 0 {
      assert IsFence(line, line[0], FenceRun(line));
    }
  }

  lemma ClosesIff(line: string, c: char, n: nat)
    ensures ClosesFence(line, Inside(c, n)) <==> ClosesCode(line, c, n)
  {
    FenceIff(line);
    if ClosesCode(line, c, n) {
      var m: nat :| n <= m && IsFence(line, c, m) && IsBlank(line[m..]);
      FenceIs(line, c, m);
    }
  }

  // ----- Div fences

  predicate AreColons(line: string, m: nat) {
    3 <= m <= |line| && (forall j :: 0 <= j < m ==> line[j] == ':') && (m < |line| ==> line[m] != ':')
  }

  /** Three or more colons, and something but whitespace behind them. */
  ghost predicate OpensDiv(line: string) {
    exists m: nat :: AreColons(line, m) && !IsBlank(line[m..])
  }

  ghost predicate ClosesDiv(line: string) {
    exists m: nat :: AreColons(line, m) && IsBlank(line[m..])
  }

  lemma ColonsAre(line: string)
    ensures StartsWith(line, ":::") <==> exists m: nat :: AreColons(line, m)
    ensures forall m: nat :: AreColons(line, m) ==> m == SkipChar(line, ':', 0)
  {
    var k := SkipChar(line, ':', 0);
    assert ":::"[0] == ':' && ":::"[1] == ':' && ":::"[2] == ':';
    if StartsWith(line, ":::") {
      assert line[0] == ':' && line[1] == ':' && line[2] == ':';
      assert k != 0 && k != 1 && k != 2;
      assert AreColons(line, k);
    }
    forall m: nat | AreColons(line, m) ensures m == k && StartsWith(line, ":::") {
      assert !(k < m) && !(m < k);
      assert line[..3] == ":::";
    }
  }

  lemma DivIff(line: string)
    ensures DivFenceOf(line).Opens? <==> OpensDiv(line)
    ensures DivFenceOf(line).Closes? <==> ClosesDiv(line)
  {
    ColonsAre(line);
  }

  // ----- Indentation and list items

  predicate IsIndented(line: string, k: nat) {
    k <= |line| && forall j :: 0 <= j < k ==> line[j] == ' '
  }

  lemma IndentIff(line: string, k: nat)
    ensures IsIndented(line, k) <==> k <= Indent(line)
  {
    if IsIndented(line, k) {
      assert !(Indent(line) < k);
    }
  }

  /** A bullet, or up to nine digits and a full stop or parenthesis. */
  predicate IsBullet(s: string) {
    || (|s| == 1 && s[0] in {'-', '*', '+'})
    || (2 <= |s| <= 10 && (forall j :: 0 <= j < |s| - 1 ==> '0' <= s[j] <= '9') && s[|s| - 1] in {'.', ')'})
  }

  /** A list item: `a` spaces, a bullet up to `b`, and whitespace up to column `c`, where the text begins. */
  predicate IsItemLine(line: string, a: nat, b: nat, c: nat) {
    && a < b < c <= |line| && IsIndented(line, a) && IsBullet(line[a..b])
    && (forall j :: b <= j < c ==> IsSpace(line[j])) && (c < |line| ==> !IsSpace(line[c]))
  }

  lemma BulletWidth(s: string, w: nat)
    requires w < |s| && IsSpace(s[w])
    ensures IsBullet(s[..w]) <==> MarkerWidth(s) == w > 0
  {
    if IsBullet(s[..w]) {
      assert forall j :: 0 <= j < w ==> s[..w][j] == s[j];
      if w > 1 {
        assert SkipDigits(s, 0) == w - 1 by {
          assert !(SkipDigits(s, 0) < w - 1) && !(w - 1 < SkipDigits(s, 0));
        }
      }
    }
  }

  lemma ItemIs(line: string, a: nat, b: nat, c: nat)
    requires IsItemLine(line, a, b, c)
    ensures Indent(line) == a && Marker(line) == Some(c - a)
  {
    BulletHasNoSpace(line[a..b]);
    assert line[a] == line[a..b][0] != ' ';
    IndentIff(line, a);
    IndentIff(line, a + 1);
    var s := line[a..];
    assert s[..b - a] == line[a..b] && s[b - a] == line[b];
    BulletWidth(s, b - a);
    SkipIs(s, b - a, c - a);
  }

  lemma BulletHasNoSpace(s: string)
    requires IsBullet(s)
    ensures s != "" && !IsSpace(s[0])
  {
  }

  lemma SkipIs(s: string, i: nat, k: nat)
    requires i <= k <= |s| && (forall j :: i <= j < k ==> IsSpace(s[j])) && (k < |s| ==> !IsSpace(s[k]))
    ensures SkipSpaces(s, i) == k
  {
    assert !(SkipSpaces(s, i) < k) && !(k < SkipSpaces(s, i));
  }

  lemma MarkerIsItem(line: string) returns (b: nat)
    requires Marker(line).Some?
    ensures IsItemLine(line, Indent(line), b, Indent(line) + Marker(line).value)
  {
    var a := Indent(line);
    var s := line[a..];
    var w := MarkerWidth(s);
    BulletWidth(s, w);
    b := a + w;
    assert line[a..b] == s[..w];
    IndentIff(line, a);
    assert forall j :: 0 <= j < |s| ==> s[j] == line[a + j];
    assert forall j :: b <= j < a + Marker(line).value ==> line[j] == s[j - a];
  }

  ghost predicate IsListItem(line: string, most: nat) {
    exists a: nat, b: nat, c: nat :: a <= most && IsItemLine(line, a, b, c)
  }

  lemma ItemIff(line: string, most: nat)
    ensures IsListItem(line, most) <==> Marker(line).Some? && Indent(line) <= most
  {
    if IsListItem(line, most) {
      var a: nat, b: nat, c: nat :| a <= most && IsItemLine(line, a, b, c);
      ItemIs(line, a, b, c);
    }
    if Marker(line).Some? && Indent(line) <= most {
      var b := MarkerIsItem(line);
    }
  }

  // ----- Definitions

  /** A line of a definition list: up to three spaces, `:` or `~`, and whitespace. */
  ghost predicate IsDefinition(line: string) {
    exists a: nat :: a <= 3 && a + 2 <= |line| && IsIndented(line, a) && line[a] in {':', '~'} && IsSpace(line[a + 1])
  }

  lemma DefinitionIff(line: string)
    ensures IsDefinition(line) <==> Indent(line) <= 3 && IsDefMarker(line[Indent(line)..])
  {
    var k := Indent(line);
    if IsDefinition(line) {
      var a: nat :|
        a <= 3 && a + 2 <= |line| && IsIndented(line, a) && line[a] in {':', '~'} && IsSpace(line[a + 1]);
      IndentIff(line, a);
      IndentIff(line, a + 1);
      assert a == k;
    }
    if k <= 3 && IsDefMarker(line[k..]) {
      IndentIff(line, k);
      assert line[k..][0] == line[k] && line[k..][1] == line[k + 1];
    }
  }

  /** Up to three whitespace characters and a label in brackets that ends at `q`. */
  predicate IsLabelled(line: string, a: nat, q: nat) {
    && a <= 3 && a + 1 < q < |line| && (forall j :: 0 <= j < a ==> IsSpace(line[j]))
    && line[a] == '[' && line[q] == ']' && forall j :: a < j < q ==> line[j] != ']'
  }

  /** A footnote definition: the label starts with `^`, has something behind that, and a colon follows it. */
  ghost predicate IsNoteLine(line: string) {
    exists a: nat, q: nat ::
      IsLabelled(line, a, q) && line[a + 1] == '^' && a + 2 < q && q + 1 < |line| && line[q + 1] == ':'
  }

  /** A link reference definition: another label, a colon and whitespace. */
  ghost predicate IsReferenceLine(line: string) {
    exists a: nat, q: nat ::
      IsLabelled(line, a, q) && line[a + 1] != '^' && q + 2 < |line| && line[q + 1] == ':' && IsSpace(line[q + 2])
  }

  lemma LabelIs(line: string, a: nat, q: nat)
    requires IsLabelled(line, a, q)
    ensures SkipSpaces(line, 0) == a && FindChar(line, ']', a + 1) == q
    ensures a + 2 <= q ==> line[a + 1] != ']' && FindChar(line, ']', a + 2) == q
  {
    SkipIs(line, 0, a);
    FindIs(line, ']', a + 1, q);
    if a + 2 <= q {
      FindIs(line, ']', a + 2, q);
    }
  }

  lemma FindIs(s: string, c: char, i: nat, k: nat)
    requires i <= k < |s| && (forall j :: i <= j < k ==> s[j] != c) && s[k] == c
    ensures FindChar(s, c, i) == k
  {
    assert !(FindChar(s, c, i) < k) && !(k < FindChar(s, c, i));
  }

  lemma NoteIff(line: string)
    ensures IsNoteLine(line) <==> FootnoteDef(line).Some?
  {
    if IsNoteLine(line) {
      var a: nat, q: nat :|
        IsLabelled(line, a, q) && line[a + 1] == '^' && a + 2 < q && q + 1 < |line| && line[q + 1] == ':';
      LabelIs(line, a, q);
    }
    if FootnoteDef(line).Some? {
      var a := SkipSpaces(line, 0);
      var q := FindChar(line, ']', a + 2);
      assert IsLabelled(line, a, q);
    }
  }

  lemma ReferenceIff(line: string)
    ensures IsReferenceLine(line) <==> IsLinkRefDef(line)
  {
    if IsReferenceLine(line) {
      var a: nat, q: nat :|
        IsLabelled(line, a, q) && line[a + 1] != '^' && q + 2 < |line| && line[q + 1] == ':' && IsSpace(line[q + 2]);
      LabelIs(line, a, q);
    }
    if IsLinkRefDef(line) {
      var a := SkipSpaces(line, 0);
      var q := FindChar(line, ']', a + 1);
      assert IsLabelled(line, a, q);
    }
  }

  /** A line that goes on with a footnote definition: blank, or indented by four spaces or a tab. */
  predicate GoesOnNote(line: string) {
    IsBlank(line) || IsIndented(line, 4) || (line != "" && line[0] == '\t')
  }

  lemma GoesOnIff(line: string)
    ensures GoesOnNote(line) <==> ContinuesNote(line)
  {
    assert "    "[0] == ' ' && "    "[1] == ' ' && "    "[2] == ' ' && "    "[3] == ' ' && "\t"[0] == '\t';
    if IsIndented(line, 4) {
      assert line[..4] == "    ";
    }
    if line != "" && line[0] == '\t' {
      assert line[..1] == "\t";
    }
  }
}
