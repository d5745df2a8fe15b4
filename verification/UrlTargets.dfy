/** Which URL a relative value gets, told by the components of the value and of the file it stands in. */
module UrlTargets {
  import opened PyText
  import opened Splitting
  import opened UrlPath
  import opened UrlRewriteLaws

  /** A component that names something: neither empty nor a step. */
  predicate IsPlain(comp: string) {
    comp != "" && comp != "." && comp != ".." && '/' !in comp
  }

  predicate ArePlain(comps: seq<string>) {
    forall c <- comps :: IsPlain(c)
  }

  /** So many steps up. */
  function Ups(n: nat): (comps: seq<string>)
    ensures |comps| == n && forall c <- comps :: c == ".."
  {
    seq(n, _ => "..")
  }

  // ----- Values that are left alone

  lemma SkippedBy(filePath: string, value: string, prefix: string)
    requires prefix in ["/", "#", "data:", "http:", "https:", "mailto:", "tel:"] && StartsWith(value, prefix)
    ensures NewValue(filePath, value) == value
  {
  }

  /** Absolute values, fragments, and values with one of five schemes are left alone, in every file. */
  lemma SkippedStay(filePath: string, value: string)
    requires || "/" <= value || "#" <= value || "data:" <= value || "http:" <= value || "https:" <= value
             || "mailto:" <= value || "tel:" <= value
    ensures NewValue(filePath, value) == value
  {
    if "/" <= value {
      SkippedBy(filePath, value, "/");
    } else if "#" <= value {
      SkippedBy(filePath, value, "#");
    } else if "data:" <= value {
      SkippedBy(filePath, value, "data:");
    } else if "http:" <= value {
      SkippedBy(filePath, value, "http:");
    } else if "https:" <= value {
      SkippedBy(filePath, value, "https:");
    } else if "mailto:" <= value {
      SkippedBy(filePath, value, "mailto:");
    } else {
      SkippedBy(filePath, value, "tel:");
    }
  }

  /** None of the seven beginnings. */
  predicate IsRelative(value: string) {
    && !("/" <= value) && !("#" <= value) && !("data:" <= value) && !("http:" <= value) && !("https:" <= value)
    && !("mailto:" <= value) && !("tel:" <= value)
  }

  lemma RelativeIsNotSkipped(value: string)
    requires IsRelative(value)
    ensures !IsSkipped(value)
  {
  }

  // ----- Joined components

  lemma {:induction false} JoinAppend(a: seq<string>, b: seq<string>)
    requires a != [] && b != []
    ensures Join(a + b, '/') == Join(a, '/') + "/" + Join(b, '/')
  {
    var front := b[..|b| - 1];
    assert (a + b)[..|a + b| - 1] == a + front;
    if front == [] {
      assert a + front == a;
    } else {
      JoinAppend(a, front);
    }
  }

  lemma JoinOne(comp: string)
    ensures Join([comp], '/') == comp
  {
  }

  /** Named components joined begin and end with a character that is no slash. */
  lemma JoinEnds(comps: seq<string>)
    requires comps != [] && forall c <- comps :: c != "" && '/' !in c
    ensures var s := Join(comps, '/'); s != "" && s[0] != '/' && s[|s| - 1] != '/'
  {
    var first, last := comps[0], comps[|comps| - 1];
    assert first in comps && last in comps;
    JoinStart(comps);
    assert Join(comps, '/')[0] == first[0];
    if |comps| > 1 {
      assert Join(comps, '/') == Join(comps[..|comps| - 1], '/') + "/" + last;
    }
  }

  // ----- The directory of a file

  lemma {:induction false} NoSlashBefore(a: string, name: string, k: nat)
    requires '/' !in name && k <= |name|
    ensures AfterLastSlash(a + "/" + name, |a| + 1 + k) == |a| + 1
  {
    var s := a + "/" + name;
    if k == 0 {
      assert s[|a|] == '/';
    } else {
      assert s[|a| + k] == name[k - 1] && name[k - 1] in name;
      NoSlashBefore(a, name, k - 1);
    }
  }

  lemma {:induction false} NoSlashAtAll(name: string, k: nat)
    requires '/' !in name && k <= |name|
    ensures AfterLastSlash(name, k) == 0
  {
    if k > 0 {
      assert name[k - 1] in name;
      NoSlashAtAll(name, k - 1);
    }
  }

  lemma DirNameIs(dirs: seq<string>, file: string)
    requires ArePlain(dirs) && IsPlain(file)
    ensures DirName(Join(dirs + [file], '/')) == Join(dirs, '/')
  {
    JoinOne(file);
    if dirs == [] {
      assert dirs + [file] == [file];
      NoSlashAtAll(file, |file|);
      assert file[..0] == "";
    } else {
      JoinAppend(dirs, [file]);
      JoinEnds(dirs);
      OfDirectory(Join(dirs, '/'), file);
    }
  }

  lemma OfDirectory(dir: string, file: string)
    requires dir != "" && dir[|dir| - 1] != '/' && '/' !in file
    ensures DirName(dir + "/" + file) == dir
  {
    var path := dir + "/" + file;
    NoSlashBefore(dir, file, |file|);
    var head := dir + "/";
    assert path[..|dir| + 1] == head;
    assert head[|dir| - 1] == dir[|dir| - 1] && head[|dir| - 1] in head;
    assert head[..|dir|] == dir && head[|dir|] == '/';
    assert StripTrailingSlashes(dir) == dir;
  }

  // ----- Steps up and down

  /** Where `ups` steps up and then the names lead from a directory; too many steps lead above the root. */
  function Target(dirs: seq<string>, ups: nat, names: seq<string>): seq<string> {
    if ups <= |dirs| then dirs[..|dirs| - ups] + names else Ups(ups - |dirs|) + names
  }

  lemma {:induction false} WalkNames(parts: seq<string>, names: seq<string>)
    requires ArePlain(names)
    ensures NormComps(false, parts + names) == NormComps(false, parts) + names
  {
    if names == [] {
      assert parts + names == parts;
    } else {
      var front, last := names[..|names| - 1], names[|names| - 1];
      assert last in names && (parts + names)[..|parts + names| - 1] == parts + front;
      WalkNames(parts, front);
      assert names == front + [last];
    }
  }

  lemma NormSnoc(front: seq<string>, last: string, parts: seq<string>)
    requires parts == front + [last]
    ensures NormComps(false, parts) == NormStep(false, NormComps(false, front), last)
  {
    assert parts[..|parts| - 1] == front;
  }

  lemma OneUpMore(dirs: seq<string>, ups: nat)
    ensures dirs + Ups(ups + 1) == dirs + Ups(ups) + [".."]
  {
  }

  lemma {:induction false} WalkUps(dirs: seq<string>, ups: nat)
    requires ArePlain(dirs)
    ensures NormComps(false, dirs + Ups(ups)) == Target(dirs, ups, [])
  {
    if ups == 0 {
      WalkNames([], dirs);
      assert [] + dirs == dirs == dirs + Ups(0) == Target(dirs, 0, []);
    } else {
      WalkUps(dirs, ups - 1);
      OneUpMore(dirs, ups - 1);
      NormSnoc(dirs + Ups(ups - 1), "..", dirs + Ups(ups));
      StepUp(dirs, ups - 1);
    }
  }

  lemma StepUp(dirs: seq<string>, ups: nat)
    requires ArePlain(dirs)
    ensures NormStep(false, Target(dirs, ups, []), "..") == Target(dirs, ups + 1, [])
  {
    if ups < |dirs| {
      var here := dirs[..|dirs| - ups];
      assert here + [] == here && here[|here| - 1] in dirs;
      assert here[..|here| - 1] == dirs[..|dirs| - (ups + 1)];
    } else {
      var here := Ups(ups - |dirs|);
      assert dirs[..0] == [] && here + [] == here;
      assert here + [".."] == Ups(ups + 1 - |dirs|) + [];
    }
  }

  /** The components of a value. */
  function Steps(ups: nat, names: seq<string>): seq<string> {
    Ups(ups) + names
  }

  lemma Walk(dirs: seq<string>, ups: nat, names: seq<string>, parts: seq<string>)
    requires ArePlain(dirs) && ArePlain(names) && parts == dirs + Steps(ups, names)
    ensures NormComps(false, parts) == Target(dirs, ups, names)
  {
    WalkUps(dirs, ups);
    WalkNames(dirs + Ups(ups), names);
    assert parts == dirs + Ups(ups) + names;
    TargetThen(dirs, ups, names);
  }

  lemma TargetThen(dirs: seq<string>, ups: nat, names: seq<string>)
    ensures Target(dirs, ups, []) + names == Target(dirs, ups, names)
  {
  }

  lemma NormOfJoined(comps: seq<string>)
    requires comps != [] && forall c <- comps :: c != "" && '/' !in c
    ensures NormPath(Join(comps, '/')) ==
              if NormComps(false, comps) == [] then "." else Join(NormComps(false, comps), '/')
  {
    JoinEnds(comps);
    SplitJoin(comps, '/');
    NormCompsAreNormal(false, comps);
    var walked := NormComps(false, comps);
    if walked != [] {
      JoinEnds(walked);
    }
  }

  lemma StepsAreNamed(ups: nat, names: seq<string>)
    requires ArePlain(names)
    ensures forall c <- Steps(ups, names) :: c != "" && '/' !in c && c != "."
  {
  }

  lemma JoinedIs(dirs: seq<string>, steps: seq<string>)
    requires ArePlain(dirs) && steps != [] && forall c <- steps :: c != "" && '/' !in c
    ensures JoinPath(Join(dirs, '/'), Join(steps, '/')) == Join(dirs + steps, '/')
  {
    JoinEnds(steps);
    if dirs == [] {
      assert dirs + steps == steps;
    } else {
      JoinEnds(dirs);
      JoinAppend(dirs, steps);
    }
  }

  /** What a value resolves to: a leading `./` makes no difference. */
  lemma ResolvedIs(dirs: seq<string>, ups: nat, names: seq<string>, value: string)
    requires ArePlain(dirs) && ArePlain(names) && Steps(ups, names) != []
    requires value == Join(Steps(ups, names), '/') || value == "./" + Join(Steps(ups, names), '/')
    ensures Resolved(Join(dirs, '/'), value) ==
              if Target(dirs, ups, names) == [] then "." else Join(Target(dirs, ups, names), '/')
  {
    var steps := Steps(ups, names);
    StepsAreNamed(ups, names);
    WithoutDot(steps, value);
    JoinedIs(dirs, steps);
    NormOfJoined(dirs + steps);
    Walk(dirs, ups, names, dirs + steps);
  }

  lemma WithoutDot(steps: seq<string>, value: string)
    requires steps != [] && forall c <- steps :: c != "" && '/' !in c && c != "."
    requires value == Join(steps, '/') || value == "./" + Join(steps, '/')
    ensures RemovePrefix(value, "./") == Join(steps, '/')
  {
    var path := Join(steps, '/');
    SplitJoin(steps, '/');
    assert !StartsWith(path, "./") by {
      assert steps[0] in steps;
    }
    assert value == "./" + path ==> value[2..] == path;
  }

  // ----- The new value

  /** The components without an `index.md` at the end that has a directory of its own. */
  function Short(comps: seq<string>): seq<string> {
    if |comps| >= 2 && comps[|comps| - 1] == "index.md" then comps[..|comps| - 1] else comps
  }

  lemma EndsWithName(comps: seq<string>, name: string, suffix: string)
    requires ArePlain(comps) && comps != [] && '/' !in name && suffix == "/" + name
    ensures EndsWith(Join(comps, '/'), suffix) <==> |comps| >= 2 && comps[|comps| - 1] == name
    ensures RemoveSuffix(Join(comps, '/'), suffix) ==
              Join(if |comps| >= 2 && comps[|comps| - 1] == name then comps[..|comps| - 1] else comps, '/')
  {
    var s := Join(comps, '/');
    if |comps| >= 2 && comps[|comps| - 1] == name {
      var front := Join(comps[..|comps| - 1], '/');
      assert s == front + "/" + name == front + suffix;
      assert s[..|front|] == front;
    } else if EndsWith(s, suffix) {
      LastPart(s[..|s| - |suffix|], name, s, comps);
    }
  }

  lemma LastPart(a: string, name: string, s: string, comps: seq<string>)
    requires s == a + "/" + name && '/' !in name && ArePlain(comps) && comps != [] && s == Join(comps, '/')
    ensures |comps| >= 2 && comps[|comps| - 1] == name
  {
    SplitJoin(comps, '/');
    SplitConcat(a, name, '/');
    SplitPart(name, '/');
  }

  lemma NameInFront(comps: seq<string>, name: string, prefix: string)
    requires ArePlain(comps) && |comps| >= 2 && comps[0] == name && prefix == name + "/"
    ensures Join(comps, '/') == prefix + Join(comps[1..], '/')
  {
    JoinAppend([name], comps[1..]);
    JoinOne(name);
    assert [name] + comps[1..] == comps;
  }

  lemma WithoutFront(prefix: string, rest: string)
    ensures StartsWith(prefix + rest, prefix) && RemovePrefix(prefix + rest, prefix) == rest
  {
  }

  lemma StartsWithName(comps: seq<string>, name: string, prefix: string)
    requires ArePlain(comps) && comps != [] && '/' !in name && prefix == name + "/"
    ensures StartsWith(Join(comps, '/'), prefix) <==> |comps| >= 2 && comps[0] == name
    ensures |comps| >= 2 && comps[0] == name ==> RemovePrefix(Join(comps, '/'), prefix) == Join(comps[1..], '/')
  {
    if |comps| >= 2 && comps[0] == name {
      NameInFront(comps, name, prefix);
      WithoutFront(prefix, Join(comps[1..], '/'));
    } else if StartsWith(Join(comps, '/'), prefix) {
      OtherName(comps, name, prefix);
    }
  }

  lemma OtherName(comps: seq<string>, name: string, prefix: string)
    requires ArePlain(comps) && comps != [] && '/' !in name && prefix == name + "/"
    requires StartsWith(Join(comps, '/'), prefix)
    ensures |comps| >= 2 && comps[0] == name
  {
    var s := Join(comps, '/');
    assert s == prefix + s[|prefix|..];
    FirstPart(name, s[|prefix|..], s, comps);
  }

  lemma FirstPart(name: string, b: string, s: string, comps: seq<string>)
    requires s == name + "/" + b && '/' !in name && ArePlain(comps) && comps != [] && s == Join(comps, '/')
    ensures |comps| >= 2 && comps[0] == name
  {
    SplitJoin(comps, '/');
    SplitConcat(name, b, '/');
    SplitPart(name, '/');
  }

  lemma IndexName()
    ensures '/' !in "index.md" && "/index.md" == "/" + "index.md"
  {
  }

  lemma ShortIs(comps: seq<string>, name: string, suffix: string)
    requires ArePlain(comps) && comps != [] && name == "index.md" && suffix == "/index.md"
    ensures EndsWith(Join(comps, '/'), suffix) <==> |comps| >= 2 && comps[|comps| - 1] == name
    ensures RemoveSuffix(Join(comps, '/'), suffix) == Join(Short(comps), '/')
  {
    IndexName();
    EndsWithName(comps, name, suffix);
  }

  lemma PostName()
    ensures '/' !in "posts" && "posts/" == "posts" + "/"
  {
  }

  lemma PostsIsFirst(comps: seq<string>, name: string, prefix: string)
    requires ArePlain(comps) && comps != [] && name == "posts" && prefix == "posts/"
    ensures StartsWith(Join(comps, '/'), prefix) <==> |comps| >= 2 && comps[0] == name
    ensures |comps| >= 2 && comps[0] == name ==> RemovePrefix(Join(comps, '/'), prefix) == Join(comps[1..], '/')
  {
    PostName();
    StartsWithName(comps, name, prefix);
  }

  /** The target lies above the content root, or its first name looks as if it did. */
  predicate Escapes(dirs: seq<string>, ups: nat, names: seq<string>) {
    ups > |dirs| || (Target(dirs, ups, names) != [] && ".." <= Target(dirs, ups, names)[0])
  }

  lemma EscapesIff(dirs: seq<string>, ups: nat, names: seq<string>)
    requires ArePlain(dirs) && ArePlain(names) && Target(dirs, ups, names) != []
    ensures StartsWith(Join(Target(dirs, ups, names), '/'), "..") <==> Escapes(dirs, ups, names)
  {
    var t := Target(dirs, ups, names);
    if ups <= |dirs| {
      assert t[0] in dirs || t[0] in names;
      assert IsPlain(t[0]);
    } else {
      assert t[0] == "..";
    }
    DotsAreFirst(t);
  }

  lemma DotsAreFirst(t: seq<string>)
    requires t != [] && t[0] != "" && t[0] != "." && '/' !in t[0]
    ensures StartsWith(Join(t, '/'), "..") <==> ".." <= t[0]
  {
    JoinStart(t);
    var s := Join(t, '/');
    if |t[0]| == 1 {
      assert s[0] == t[0][0] && t[0] == [t[0][0]];
    } else {
      assert s[0] == t[0][0] && s[1] == t[0][1];
    }
  }

  /** Where a target below the content root is served. */
  lemma AddressIs(filePath: string, value: string, t: seq<string>)
    requires !IsSkipped(value) && ArePlain(t) && t != []
    requires Resolved(DirName(filePath), value) == Join(t, '/') && !StartsWith(Join(t, '/'), "..")
    ensures NewValue(filePath, value) ==
              if IsDirectoryPostPath(filePath) && |t| >= 2 && t[0] == "posts" then
                "/post/" + Join(Short(t[1..]), '/')
              else "/api/content/" + Join(t, '/')
  {
    PostsIsFirst(t, "posts", "posts/");
    if |t| >= 2 && t[0] == "posts" {
      ShortIs(t[1..], "index.md", "/index.md");
    }
  }

  lemma RootIs(filePath: string, value: string)
    requires !IsSkipped(value) && Resolved(DirName(filePath), value) == "."
    ensures NewValue(filePath, value) == "/api/content/" + "."
  {
  }

  /** The value that a relative reference gets. One that leads above the content root is left alone, as is one whose
      target begins with two dots. In a post with a directory of its own a target below `posts` gets its address
      under `/post/`, without the `index.md` at its end; everything else is served from `/api/content/`. */
  lemma RelativeGets(dirs: seq<string>, file: string, ups: nat, names: seq<string>, value: string)
    requires ArePlain(dirs) && IsPlain(file) && ArePlain(names) && Steps(ups, names) != [] && IsRelative(value)
    requires value == Join(Steps(ups, names), '/') || value == "./" + Join(Steps(ups, names), '/')
    ensures var filePath, t := Join(dirs + [file], '/'), Target(dirs, ups, names);
            NewValue(filePath, value) ==
              if Escapes(dirs, ups, names) then value
              else if IsDirectoryPostPath(filePath) && |t| >= 2 && t[0] == "posts" then
                "/post/" + Join(Short(t[1..]), '/')
              else "/api/content/" + if t == [] then "." else Join(t, '/')
  {
    var filePath, t := Join(dirs + [file], '/'), Target(dirs, ups, names);
    RelativeIsNotSkipped(value);
    DirNameIs(dirs, file);
    ResolvedIs(dirs, ups, names, value);
    if t == [] {
      RootIs(filePath, value);
    } else {
      EscapesIff(dirs, ups, names);
      if !Escapes(dirs, ups, names) {
        assert forall c <- t :: c in dirs || c in names;
        AddressIs(filePath, value, t);
      }
    }
  }

  lemma NothingToStrip(path: string)
    requires IsStripped(path) && path != "" && path[0] != '/' && path[|path| - 1] != '/'
    ensures StripSlashes(Strip(path)) == path
  {
    StrippedIsFixed(path);
  }

  lemma DirectoryPostIs(path: string, parts: nat, prefix: string, suffix: string)
    requires StripSlashes(Strip(path)) == path && |Split(path, '/')| == parts
    requires prefix == "posts/" && suffix == "/index.md"
    ensures IsDirectoryPostPath(path) <==> StartsWith(path, prefix) && EndsWith(path, suffix) && parts >= 3
  {
  }

  /** Which files are posts with a directory of their own. */
  lemma DirectoryPostIff(dirs: seq<string>, file: string)
    requires ArePlain(dirs) && IsPlain(file) && IsStripped(Join(dirs + [file], '/'))
    ensures IsDirectoryPostPath(Join(dirs + [file], '/')) <==>
              |dirs| >= 2 && dirs[0] == "posts" && file == "index.md"
  {
    var posts, prefix, index, suffix := "posts", "posts/", "index.md", "/index.md";
    var comps := dirs + [file];
    var path := Join(comps, '/');
    JoinEnds(comps);
    NothingToStrip(path);
    SplitJoin(comps, '/');
    PostName();
    IndexName();
    StartsWithName(comps, posts, prefix);
    EndsWithName(comps, index, suffix);
    DirectoryPostIs(path, |comps|, prefix, suffix);
  }
}
