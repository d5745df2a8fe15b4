/** The writer and the reader of the `.env.production` file. */
module EnvFile {
  import opened Options
  import opened PyText
  import opened JsonString

  // ----- Quoting of one value

  /** `replace("$", "\\$")`. */
  function EscapeDollars(s: string): (r: string)
    ensures (forall c <- s :: IsPrintable(c)) ==> forall c <- r :: IsPrintable(c)
  {
    if s == "" then "" else (if s[0] == '$' then "\\$" else [s[0]]) + EscapeDollars(s[1..])
  }

  /** `replace("\\$", "$")`, left to right. */
  function UnescapeDollars(s: string): string
    decreases |s|
  {
    if s == "" then ""
    else if StartsWith(s, "\\$") then "$" + UnescapeDollars(s[2..])
    else [s[0]] + UnescapeDollars(s[1..])
  }

  function QuoteEnvValue(value: string): (r: string)
    ensures forall c <- r :: IsPrintable(c)
  {
    EscapeDollars(Dumps(value))
  }

  /** The position of the first `c` from `i` on, or the length. */
  function IndexOf(s: string, c: char, i: nat): (k: nat)
    requires i <= |s|
    ensures i <= k <= |s| && (k < |s| ==> s[k] == c) && forall j :: i <= j < k ==> s[j] != c
    decreases |s| - i
  {
    if i == |s| || s[i] == c then i else IndexOf(s, c, i + 1)
  }

  /** The position of the first inline comment, or the length. */
  function CommentAt(s: string, i: nat): (k: nat)
    requires i <= |s|
    ensures i <= k <= |s|
    decreases |s| - i
  {
    if i == |s| || StartsWith(s[i..], "  #") then i else CommentAt(s, i + 1)
  }

  function UnquoteEnvValue(raw: string): string {
    var value := Strip(raw);
    if StartsWith(value, "\"") then
      var decoded := Loads(UnescapeDollars(value));
      if decoded.Some? then decoded.value else value
    else
      var k := CommentAt(value, 0);
      if k < |value| then Strip(value[..k]) else value
  }

  lemma {:induction false} DollarsRoundTrip(s: string)
    ensures UnescapeDollars(EscapeDollars(s)) == s
  {
    if s != "" {
      var rest := EscapeDollars(s[1..]);
      DollarsRoundTrip(s[1..]);
      assert s == [s[0]] + s[1..];
      if s[0] == '$' {
        assert ("\\$" + rest)[2..] == rest;
      } else {
        assert ([s[0]] + rest)[1..] == rest;
        if s[0] == '\\' && s[1..] != "" && s[1] == '$' {
          assert rest[0] == '\\';
        }
      }
    }
  }

  lemma {:induction false} EscapeDollarsEnds(s: string)
    requires s != "" && s[0] != '$' && s[|s| - 1] != '$'
    ensures var r := EscapeDollars(s); r != "" && r[0] == s[0] && r[|r| - 1] == s[|s| - 1]
  {
    if |s| > 1 {
      var t := s[1..];
      EscapeDollarsLast(t);
    }
  }

  lemma {:induction false} EscapeDollarsLast(s: string)
    requires s != "" && s[|s| - 1] != '$'
    ensures var r := EscapeDollars(s); r != "" && r[|r| - 1] == s[|s| - 1]
  {
    if |s| > 1 {
      EscapeDollarsLast(s[1..]);
    }
  }

  /** Every value comes back from its quoted form. */
  lemma QuoteRoundTrip(value: string)
    ensures UnquoteEnvValue(QuoteEnvValue(value)) == value
  {
    var quoted := QuoteEnvValue(value);
    EscapeDollarsEnds(Dumps(value));
    StrippedIsFixed(quoted);
    DollarsRoundTrip(Dumps(value));
    LoadsDumps(value);
  }

  // ----- Lines

  /** Where `str.splitlines` breaks a line. */
  predicate IsLineBreak(c: char) {
    || '\n' <= c <= '\r' || '\U{1c}' <= c <= '\U{1e}'
    || c == '\U{85}' || c == '\U{2028}' || c == '\U{2029}'
  }

  predicate HasNoBreak(s: string) {
    forall c <- s :: !IsLineBreak(c)
  }

  function BreakAt(s: string, i: nat): (k: nat)
    requires i <= |s|
    ensures i <= k <= |s| && (k < |s| ==> IsLineBreak(s[k])) && forall j :: i <= j < k ==> !IsLineBreak(s[j])
    decreases |s| - i
  {
    if i == |s| || IsLineBreak(s[i]) then i else BreakAt(s, i + 1)
  }

  /** `str.splitlines`. */
  function SplitLines(s: string): seq<string>
    decreases |s|
  {
    if s == "" then []
    else
      var k := BreakAt(s, 0);
      if k == |s| then [s]
      else
        var next := if s[k] == '\r' && k + 1 < |s| && s[k + 1] == '\n' then k + 2 else k + 1;
        [s[..k]] + SplitLines(s[next..])
  }

  /** Each line followed by a line feed. */
  function Unlines(lines: seq<string>): string {
    if lines == [] then "" else lines[0] + "\n" + Unlines(lines[1..])
  }

  lemma SplitFirst(line: string, rest: string)
    requires HasNoBreak(line)
    ensures SplitLines(line + "\n" + rest) == [line] + SplitLines(rest)
  {
    var s := line + "\n" + rest;
    assert s[|line|] == '\n';
    assert BreakAt(s, 0) == |line| by {
      forall j | 0 <= j < |line| ensures !IsLineBreak(s[j]) {
        assert s[j] == line[j] && line[j] in line;
      }
    }
    assert s[..|line|] == line && s[|line| + 1..] == rest;
  }

  lemma Regroup(line: string, text: string, rest: string)
    ensures (line + "\n" + text) + rest == line + "\n" + (text + rest)
  {
  }

  lemma {:induction false} SplitUnlines(lines: seq<string>, rest: string)
    requires forall l <- lines :: HasNoBreak(l)
    ensures SplitLines(Unlines(lines) + rest) == lines + SplitLines(rest)
  {
    if lines == [] {
      assert Unlines(lines) + rest == rest && [] + SplitLines(rest) == SplitLines(rest);
    } else {
      var head, tail := lines[0], lines[1..];
      var more := Unlines(tail) + rest;
      SplitUnlines(tail, rest);
      calc {
        SplitLines(Unlines(lines) + rest);
        { Regroup(head, Unlines(tail), rest); }
        SplitLines(head + "\n" + more);
        { SplitFirst(head, more); }
        [head] + SplitLines(more);
        [head] + (tail + SplitLines(rest));
        { RegroupHead(head, lines, SplitLines(rest)); }
        lines + SplitLines(rest);
      }
    }
  }

  lemma RegroupHead(head: string, lines: seq<string>, rest: seq<string>)
    requires lines != [] && lines[0] == head
    ensures [head] + (lines[1..] + rest) == lines + rest
  {
  }

  // ----- Reading

  datatype Entry = Entry(key: string, value: string)

  function ParseLine(raw: string): Option<Entry> {
    var line := Strip(raw);
    if line == "" || line[0] == '#' then None
    else
      var eq := IndexOf(line, '=', 0);
      if eq == |line| then None
      else Some(Entry(Strip(line[..eq]), UnquoteEnvValue(line[eq + 1..])))
  }

  function Store(values: map<string, string>, entry: Option<Entry>): map<string, string> {
    if entry.None? then values else values[entry.value.key := entry.value.value]
  }

  /** The entries of the lines; a later entry replaces an earlier one of the same key. */
  function ParseLines(lines: seq<string>): map<string, string> {
    if lines == [] then map[] else Store(ParseLines(lines[..|lines| - 1]), ParseLine(lines[|lines| - 1]))
  }

  /** Reads the file; one that cannot be read gives no entries. */
  method ParseExistingEnv(content: Option<string>) returns (values: map<string, string>)
    ensures values == if content.None? then map[] else ParseLines(SplitLines(content.value))
  {
    values := map[];
    if content.None? {
      return;
    }
    var lines := SplitLines(content.value);
    for i := 0 to |lines|
      invariant values == ParseLines(lines[..i])
    {
      assert lines[..i + 1][..i] == lines[..i];
      var entry := ParseLine(lines[i]);
      if entry.None? {
        continue;
      }
      values := values[entry.value.key := entry.value.value];
    }
    assert lines[..|lines|] == lines;
  }

  lemma ParseLinesSnoc(lines: seq<string>, line: string)
    ensures ParseLines(lines + [line]) == Store(ParseLines(lines), ParseLine(line))
  {
    assert (lines + [line])[..|lines|] == lines;
  }

  lemma {:induction false} ParseLinesAppend(a: seq<string>, b: seq<string>)
    ensures ParseLines(a + b) == ParseLines(a) + ParseLines(b)
  {
    if b == [] {
      assert a + b == a;
    } else {
      var front, last := b[..|b| - 1], b[|b| - 1];
      ParseLinesAppend(a, front);
      ParseLinesSnoc(a + front, last);
      ParseLinesSnoc(front, last);
      StoreOver(ParseLines(a), ParseLines(front), ParseLine(last));
      LastLine(a, b);
    }
  }

  lemma LastLine(a: seq<string>, b: seq<string>)
    requires b != []
    ensures b[..|b| - 1] + [b[|b| - 1]] == b && (a + b[..|b| - 1]) + [b[|b| - 1]] == a + b
  {
  }

  lemma StoreOver(a: map<string, string>, b: map<string, string>, entry: Option<Entry>)
    ensures Store(a + b, entry) == a + Store(b, entry)
  {
  }

  /** A variable name: what stands before the `=` of every line that is written. */
  predicate IsName(key: string) {
    key != "" && forall c <- key :: 'A' <= c <= 'Z' || c == '_'
  }

  lemma NameIsRead(key: string, text: string)
    requires IsName(key)
    ensures ParseLine(key + "=" + text).Some? && ParseLine(key + "=" + text).value.key == key
    ensures IsStripped(key + "=" + text) ==> ParseLine(key + "=" + text).value.value == UnquoteEnvValue(text)
  {
    var raw := key + "=" + text;
    forall j | 0 <= j < |key| ensures raw[j] == key[j] && !IsSpace(raw[j]) && raw[j] != '=' && raw[j] != '#' {
      assert key[j] in key;
    }
    assert raw[|key|] == '=';
    assert SkipSpaces(raw, 0) == 0;
    var end := SkipSpacesBack(raw, 0, |raw|);
    assert end > |key|;
    var line := raw[..end];
    assert Strip(raw) == line;
    assert IndexOf(line, '=', 0) == |key|;
    assert line[..|key|] == key;
    assert IsStripped(key);
    StrippedIsFixed(key);
    if IsStripped(raw) {
      StrippedIsFixed(raw);
      assert line[|key| + 1..] == text;
    }
  }

  lemma QuotedLineIsStripped(key: string, value: string)
    requires IsName(key)
    ensures IsStripped(key + "=" + QuoteEnvValue(value))
  {
    var line := key + "=" + QuoteEnvValue(value);
    EscapeDollarsEnds(Dumps(value));
    assert line[0] == key[0] && line[|line| - 1] == '"' && key[0] in key;
  }

  /** A line that is written for a quoted value is read as that value. */
  lemma QuotedLineIsRead(key: string, value: string)
    requires IsName(key)
    ensures ParseLine(key + "=" + QuoteEnvValue(value)) == Some(Entry(key, value))
  {
    QuotedLineIsStripped(key, value);
    NameIsRead(key, QuoteEnvValue(value));
    QuoteRoundTrip(value);
  }

  lemma QuotedLineHasNoBreak(key: string, value: string)
    requires IsName(key)
    ensures HasNoBreak(key + "=" + QuoteEnvValue(value))
  {
    NameHasNoBreak(key);
    PrintableHasNoBreak(QuoteEnvValue(value));
    AppendHasNoBreak(key, QuoteEnvValue(value));
  }

  lemma NameHasNoBreak(key: string)
    requires IsName(key)
    ensures HasNoBreak(key)
  {
  }

  lemma PrintableHasNoBreak(s: string)
    requires forall c <- s :: IsPrintable(c)
    ensures HasNoBreak(s)
  {
  }

  lemma AppendHasNoBreak(key: string, text: string)
    requires HasNoBreak(key) && HasNoBreak(text)
    ensures HasNoBreak(key + "=" + text)
  {
  }

  // ----- Writing

  datatype Secrets = Secrets(secretKey: string, adminUsername: string, adminPassword: string, adminDisplayName: string)

  /** The rest of the configuration. `goatcounterHost` is the host the source derives. */
  datatype Deployment = Deployment(
    hostPort: nat,
    hostBindIp: string,
    caddyDomain: Option<string>,
    exposeDocs: bool,
    trustedHosts: seq<string>,
    trustedProxyIps: seq<string>,
    deployGoatcounter: bool,
    goatcounterHost: string,
    maxContentSize: Option<string>,
    disablePasswordChange: bool,
    imageRef: Option<string>)

  function JsonItems(values: seq<string>): (r: string)
    ensures forall c <- r :: IsPrintable(c)
  {
    if values == [] then ""
    else if |values| == 1 then Dumps(values[0])
    else Dumps(values[0]) + "," + JsonItems(values[1..])
  }

  function ListToEnvJson(values: seq<string>): (r: string)
    ensures forall c <- r :: IsPrintable(c)
  {
    "[" + JsonItems(values) + "]"
  }

  function BoolText(b: bool): string { if b then "true" else "false" }

  const HEADER := "#" + " Auto-generated by" + " tools/deploy_production.py"

  const CADDY_NOTE := "  # Not used in Caddy modes"

  function SecretLines(c: Secrets): seq<string> {
    ["SECRET_KEY" + "=" + QuoteEnvValue(c.secretKey),
     "ADMIN_USERNAME" + "=" + QuoteEnvValue(c.adminUsername),
     "ADMIN_PASSWORD" + "=" + QuoteEnvValue(c.adminPassword),
     "ADMIN_DISPLAY_NAME" + "=" + QuoteEnvValue(c.adminDisplayName)]
  }

  function HostLines(d: Deployment): seq<string> {
    var note := if d.caddyDomain.Some? then CADDY_NOTE else "";
    ["HOST_PORT" + "=" + (Digits(d.hostPort) + note),
     "HOST_BIND_IP" + "=" + (d.hostBindIp + note)]
  }

  function AccessLines(d: Deployment): seq<string> {
    ["DEBUG" + "=" + "false",
     "EXPOSE_DOCS" + "=" + BoolText(d.exposeDocs),
     "TRUSTED_HOSTS" + "=" + ListToEnvJson(d.trustedHosts),
     "TRUSTED_PROXY_IPS" + "=" + ListToEnvJson(d.trustedProxyIps)]
  }

  function ServiceLines(d: Deployment): seq<string> {
    ["AUTH_ENFORCE_LOGIN_ORIGIN" + "=" + "true",
     "AUTH_LOGIN_MAX_FAILURES" + "=" + "5",
     "AUTH_RATE_LIMIT_WINDOW_SECONDS" + "=" + "300",
     "ANALYTICS_ENABLED_DEFAULT" + "=" + BoolText(d.deployGoatcounter),
     "GOATCOUNTER_SITE_HOST" + "=" + QuoteEnvValue(d.goatcounterHost)]
  }

  function SettingLines(d: Deployment): seq<string> {
    AccessLines(d) + ServiceLines(d)
  }

  const BLUESKY_START := " BLUESKY_CLIENT_URL=" + "https://"

  const BLUESKY_END := "  # Uncomment to enable" + " Bluesky cross-posting"

  function BlueskyLine(d: Deployment): string {
    "#" + (BLUESKY_START + ((if d.caddyDomain.Some? then d.caddyDomain.value else "blog.example.com") + BLUESKY_END))
  }

  function OptionalLines(d: Deployment): seq<string> {
    (if d.maxContentSize.Some? then ["MAX_CONTENT_SIZE" + "=" + d.maxContentSize.value] else [])
    + (if d.disablePasswordChange then ["DISABLE_PASSWORD_CHANGE" + "=" + "true"] else [])
    + (if d.imageRef.Some? then ["AGBLOGGER_IMAGE" + "=" + QuoteEnvValue(d.imageRef.value)] else [])
  }

  /** Everything after the four secrets. */
  function TailLines(d: Deployment): seq<string> {
    HostLines(d) + (SettingLines(d) + [BlueskyLine(d)]) + OptionalLines(d)
  }

  function EnvText(c: Secrets, d: Deployment): string {
    Unlines([HEADER] + SecretLines(c) + TailLines(d))
  }

  /** The text of the file, built line by line. */
  method BuildEnvContent(c: Secrets, d: Deployment) returns (content: string)
    ensures content == EnvText(c, d)
  {
    var lines := [HEADER] + SecretLines(c);
    lines := lines + HostLines(d);
    lines := lines + (SettingLines(d) + [BlueskyLine(d)]);
    lines := lines + OptionalLines(d);
    RegroupLines([HEADER] + SecretLines(c), HostLines(d), SettingLines(d) + [BlueskyLine(d)], OptionalLines(d));
    content := Unlines(lines);
  }

  lemma RegroupLines(a: seq<string>, b: seq<string>, c: seq<string>, d: seq<string>)
    ensures a + b + c + d == a + (b + c + d)
  {
  }
}
