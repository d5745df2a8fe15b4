/** POSIX path arithmetic as the URL rewriter uses it. */
module UrlPath {
  import opened PyText
  import opened Splitting

  // ----- posixpath

  /** One component of `posixpath.normpath`. */
  function NormStep(absolute: bool, comps: seq<string>, comp: string): seq<string> {
    if comp == "" || comp == "." then comps
    else if comp != ".." || (!absolute && comps == []) || (comps != [] && comps[|comps| - 1] == "..") then
        comps + [comp]
    else if comps != [] then comps[..|comps| - 1]
    else comps
  }

  function NormComps(absolute: bool, parts: seq<string>): seq<string> {
    if parts == [] then [] else NormStep(absolute, NormComps(absolute, parts[..|parts| - 1]), parts[|parts| - 1])
  }

  function InitialSlashes(path: string): string {
    if !StartsWith(path, "/") then ""
    else if StartsWith(path, "//") && !StartsWith(path, "///") then "//"
    else "/"
  }

  /** `posixpath.normpath`. */
  function NormPath(path: string): string {
    var slashes := InitialSlashes(path);
    var result := slashes + Join(NormComps(slashes != "", Split(path, '/')), '/');
    if path == "" || result == "" then "." else result
  }

  /** `posixpath.join` of two paths. */
  function JoinPath(a: string, b: string): string {
    if StartsWith(b, "/") then b else if a == "" || EndsWith(a, "/") then a + b else a + "/" + b
  }

  /** The position after the last slash. */
  function AfterLastSlash(path: string, i: nat): (k: nat)
    requires i <= |path|
    ensures k <= i
  {
    if i == 0 || path[i - 1] == '/' then i else AfterLastSlash(path, i - 1)
  }

  function StripTrailingSlashes(s: string): (r: string)
    ensures r <= s
  {
    if s != "" && s[|s| - 1] == '/' then StripTrailingSlashes(s[..|s| - 1]) else s
  }

  /** `posixpath.dirname`. */
  function DirName(path: string): (r: string)
    ensures forall c <- r :: c in path
  {
    var head := path[..AfterLastSlash(path, |path|)];
    if forall c <- head :: c == '/' then head else StripTrailingSlashes(head)
  }

  // ----- What normalisation leaves

  /** `..` components come first, and only in a relative path. */
  ghost predicate Normal(absolute: bool, comps: seq<string>) {
    && (forall c <- comps :: c != "" && c != "." && '/' !in c)
    && (forall i, j :: 0 <= i < j < |comps| && comps[j] == ".." ==> comps[i] == "..")
    && (absolute ==> ".." !in comps)
  }

  lemma {:induction false} NormCompsAreNormal(absolute: bool, parts: seq<string>)
    requires forall p <- parts :: '/' !in p
    ensures Normal(absolute, NormComps(absolute, parts))
    ensures forall c <- NormComps(absolute, parts) :: c in parts
  {
    if parts != [] {
      assert parts[|parts| - 1] in parts;
      NormCompsAreNormal(absolute, parts[..|parts| - 1]);
      NormStepIsNormal(absolute, NormComps(absolute, parts[..|parts| - 1]), parts[|parts| - 1]);
    }
  }

  lemma NormStepIsNormal(absolute: bool, comps: seq<string>, comp: string)
    requires Normal(absolute, comps) && '/' !in comp
    ensures Normal(absolute, NormStep(absolute, comps, comp))
    ensures forall c <- NormStep(absolute, comps, comp) :: c in comps || c == comp
  {
    var after := NormStep(absolute, comps, comp);
    if |after| > |comps| && comp == ".." {
      assert comps != [] ==> comps[|comps| - 1] in comps;
    }
  }

  /** A normalised path that does not begin with two dots has no `..` component at all. */
  lemma NormPathDotDot(path: string)
    ensures ".." in Split(NormPath(path), '/') ==> StartsWith(NormPath(path), "..")
  {
    var slashes := InitialSlashes(path);
    var comps := NormComps(slashes != "", Split(path, '/'));
    SplitPartsHaveNo(path, '/');
    NormCompsAreNormal(slashes != "", Split(path, '/'));
    SplitPart(".", '/');
    if comps == [] {
      assert slashes + Join(comps, '/') == slashes;
      SplitSlashes();
    } else {
      SplitJoin(comps, '/');
      JoinStart(comps);
      if slashes == "" {
        assert slashes + Join(comps, '/') == Join(comps, '/');
      } else {
        SplitAfterSlashes(slashes, Join(comps, '/'));
      }
    }
  }

  lemma SplitSlashes()
    ensures Split("", '/') == [""] && Split("/", '/') == ["", ""] && Split("//", '/') == ["", "", ""]
  {
    SplitConcat("", "", '/');
    SplitConcat("", "/", '/');
    assert "" + "/" + "" == "/" && "" + "/" + "/" == "//";
  }

  lemma SplitAfterSlashes(slashes: string, rest: string)
    requires slashes == "/" || slashes == "//"
    ensures ".." in Split(slashes + rest, '/') <==> ".." in Split(rest, '/')
  {
    SplitConcat("", rest, '/');
    SplitConcat("", "/" + rest, '/');
    assert "" + "/" + rest == "/" + rest && "" + "/" + ("/" + rest) == "//" + rest;
    assert Split("", '/') == [""];
  }

  /** A joined path starts with its first component. */
  lemma {:induction false} JoinStart(comps: seq<string>)
    requires comps != []
    ensures comps[0] <= Join(comps, '/')
  {
    if |comps| > 1 {
      JoinStart(comps[..|comps| - 1]);
    }
  }

  lemma {:induction false} JoinChars(comps: seq<string>)
    ensures forall c <- Join(comps, '/') :: c == '/' || exists p <- comps :: c in p
  {
    if |comps| > 1 {
      var front, last := comps[..|comps| - 1], comps[|comps| - 1];
      JoinChars(front);
      assert last in comps && forall p <- front :: p in comps;
      forall c | c in Join(comps, '/') ensures c == '/' || exists p <- comps :: c in p {
        if c in last {
        } else if c != '/' {
          assert c in Join(front, '/');
          var p :| p in front && c in p;
          assert p in comps;
        }
      }
    } else if |comps| == 1 {
      assert comps[0] in comps;
    }
  }

  /** Normalising brings in no characters but dots and slashes. */
  lemma NormPathChars(path: string)
    ensures forall c <- NormPath(path) :: c in path || c == '.' || c == '/'
  {
    var slashes := InitialSlashes(path);
    var comps := NormComps(slashes != "", Split(path, '/'));
    SplitPartsHaveNo(path, '/');
    NormCompsAreNormal(slashes != "", Split(path, '/'));
    JoinChars(comps);
  }
}
