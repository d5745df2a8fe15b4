/** What becomes of a post's text when it is stored in a file and read back. */
module Frontmatter {
  import opened Options
  import opened PyText

  /** A post as the application holds it. */
  datatype Post = Post(title: string, subtitle: Option<string>, content: string)

  /** The file of a post: its front matter fields and the body below them. The YAML layer is taken to
      give back the strings it was given, and the body without outer whitespace. */
  datatype PostFile = PostFile(title: string, subtitle: Option<string>, body: string)

  predicate IsHeadingOf(line: string, title: string) {
    StartsWith(line, "# ") && !StartsWith(line, "## ") && Strip(line[2..]) == title
  }

  /** What follows the heading `# title`, if that is the first line that is not blank. */
  function AfterHeading(content: string, title: string): (r: Option<string>)
    ensures r.Some? ==> |r.value| < |content|
    decreases |content|
  {
    if content == "" then None
    else
      var k := FindChar(content, '\n', 0);
      var line := Strip(content[..k]);
      if line == "" then
        if k == |content| then None else AfterHeading(content[k + 1..], title)
      else if IsHeadingOf(line, title) then
        Some(if k == |content| then "" else content[k + 1..])
      else None
  }

  function StripLeadingHeading(content: string, title: string): string {
    var rest := AfterHeading(content, title);
    if rest.Some? then rest.value else content
  }

  /** `serialize_post`, up to the YAML layer. An empty subtitle is not written. */
  function Serialize(post: Post): PostFile {
    PostFile(post.title, if post.subtitle == Some("") then None else post.subtitle,
             StripLeadingHeading(post.content, post.title))
  }

  /** `parse_post`, for a file whose title field is not blank. */
  function Parse(file: PostFile): Post {
    var title := Strip(file.title);
    var subtitle := if file.subtitle.None? || Strip(file.subtitle.value) == "" then None
        else Some(Strip(file.subtitle.value));
    Post(title, subtitle, StripLeadingHeading(Strip(file.body), title))
  }

  /** What the request validators let through: a stripped title and subtitle, neither of them empty. */
  predicate IsValid(post: Post) {
    && post.title != "" && IsStripped(post.title)
    && (post.subtitle.Some? ==> post.subtitle.value != "" && IsStripped(post.subtitle.value))
  }

  /** The body has no outer whitespace and does not open with the title as a heading. */
  predicate ReadsBackUnchanged(post: Post) {
    IsStripped(post.content) && AfterHeading(post.content, post.title).None?
  }

  /** Storing and reading keeps title and subtitle, and keeps the body exactly if it has no
      outer whitespace and no leading heading that repeats the title. */
  lemma StoreThenRead(post: Post)
    requires IsValid(post)
    ensures var back := Parse(Serialize(post));
            && back.title == post.title && back.subtitle == post.subtitle
            && (back.content == post.content <==> ReadsBackUnchanged(post))
  {
    StrippedIsFixed(post.title);
    if post.subtitle.Some? {
      StrippedIsFixed(post.subtitle.value);
    }
    var body := StripLeadingHeading(post.content, post.title);
    StripFacts(body);
    var back := StripLeadingHeading(Strip(body), post.title);
    assert |back| <= |Strip(body)| <= |body| <= |post.content|;
    if back == post.content {
      assert body == post.content;
      SameLengthSameText(body);
    } else if ReadsBackUnchanged(post) {
      StrippedIsFixed(post.content);
    }
  }

  /** Stripping that removes no character removes nothing. */
  lemma SameLengthSameText(s: string)
    requires |Strip(s)| == |s|
    ensures Strip(s) == s && IsStripped(s)
  {
    StripIsStripped(s);
    var from := SkipSpaces(s, 0);
    assert from == 0 && SkipSpacesBack(s, 0, |s|) == |s|;
    assert s[0..|s|] == s;
  }

  /** The family of bodies that do not survive for their heading: the title's own heading on top. */
  lemma LeadingHeadingIsStripped(title: string, rest: string)
    requires title != "" && IsStripped(title) && forall c <- title :: c != '\n'
    ensures AfterHeading("# " + title + "\n" + rest, title) == Some(rest)
  {
    var line := "# " + title;
    var content := line + "\n" + rest;
    forall j | 0 <= j < |line| ensures content[j] == line[j] && line[j] != '\n' {
      if j >= 2 { assert line[j] == title[j - 2] && title[j - 2] in title; }
    }
    assert content[|line|] == '\n';
    assert FindChar(content, '\n', 0) == |line|;
    assert content[..|line|] == line && content[|line| + 1..] == rest;
    assert line[0] == '#' && line[|line| - 1] == title[|title| - 1];
    StrippedIsFixed(line);
    assert line[2..] == title;
    StrippedIsFixed(title);
    assert line[1] == ' ';
  }
}
