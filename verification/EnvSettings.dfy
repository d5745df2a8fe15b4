/** What the settings of the `.env.production` file read back as. */
module EnvSettings {
  import opened Options
  import opened PyText
  import opened JsonString
  import opened EnvFile
  import opened EnvLines
  import opened EnvRoundTrip

  // ----- Lists

  /** The string literals from here on to the closing bracket, with a comma between them. */
  function LoadItems(s: string): Option<seq<string>>
    decreases |s|
  {
    if s == "" || s[0] != '"' then None
    else
      var p := LoadChars(s[1..]);
      if p.None? || p.value.rest == "" then None
      else if p.value.rest == "]" then Some([p.value.value])
      else if p.value.rest[0] != ',' then None
      else
        var more := LoadItems(p.value.rest[1..]);
        if more.None? then None else Some([p.value.value] + more.value)
  }

  /** `json.loads` of a list of strings without spaces between them. */
  function LoadList(s: string): Option<seq<string>> {
    if s == "[]" then Some([]) else if s == "" || s[0] != '[' then None else LoadItems(s[1..])
  }

  lemma ItemIsLoaded(value: string, rest: string, s: string)
    requires s == Dumps(value) + rest
    ensures s != "" && s[0] == '"' && LoadChars(s[1..]) == Some(Parsed(value, rest))
  {
    DumpCharsRead(value, rest);
    assert s[1..] == DumpChars(value) + "\"" + rest;
  }

  lemma LastItemIsLoaded(value: string, s: string)
    requires s == Dumps(value) + "]"
    ensures LoadItems(s) == Some([value])
  {
    ItemIsLoaded(value, "]", s);
  }

  lemma ItemsAreLoaded(value: string, rest: string, more: seq<string>, s: string)
    requires s == Dumps(value) + ("," + rest) && LoadItems(rest) == Some(more)
    ensures LoadItems(s) == Some([value] + more)
  {
    ItemIsLoaded(value, "," + rest, s);
    assert ("," + rest)[0] == ',' && ("," + rest)[1..] == rest;
  }

  lemma {:induction false} ItemsRoundTrip(values: seq<string>)
    requires values != []
    ensures LoadItems(JsonItems(values) + "]") == Some(values)
  {
    var s := JsonItems(values) + "]";
    if |values| == 1 {
      LastItemIsLoaded(values[0], s);
      assert values == [values[0]];
    } else {
      var rest := JsonItems(values[1..]) + "]";
      ItemsRoundTrip(values[1..]);
      Regroup3(Dumps(values[0]), JsonItems(values[1..]), s);
      ItemsAreLoaded(values[0], rest, values[1..], s);
      assert values == [values[0]] + values[1..];
    }
  }

  lemma Regroup3(a: string, b: string, s: string)
    requires s == a + "," + b + "]"
    ensures s == a + ("," + (b + "]"))
  {
  }

  /** Every list comes back from its JSON text. */
  lemma ListRoundTrip(values: seq<string>)
    ensures LoadList(ListToEnvJson(values)) == Some(values)
  {
    var s := ListToEnvJson(values);
    if values == [] {
      assert s == "[]";
    } else {
      ItemsRoundTrip(values);
      assert s[1..] == JsonItems(values) + "]";
      assert |s| > 2;
    }
  }

  // ----- Values without quotes

  /** A comment begins at `i`. */
  predicate NoteAt(s: string, i: nat) {
    i + 3 <= |s| && s[i] == ' ' && s[i + 1] == ' ' && s[i + 2] == '#'
  }

  predicate HasNote(s: string) {
    exists i | 0 <= i < |s| :: NoteAt(s, i)
  }

  /** A text that means itself when it is written without quotes. */
  predicate IsPlainText(s: string) {
    s != "" && IsStripped(s) && s[0] != '"' && !HasNote(s)
  }

  lemma NoteIs(s: string, i: nat)
    requires i <= |s|
    ensures StartsWith(s[i..], "  #") <==> NoteAt(s, i)
  {
    if NoteAt(s, i) {
      assert s[i..][..3] == "  #";
    }
    if StartsWith(s[i..], "  #") {
      var t := s[i..];
      assert t[0] == ' ' && t[1] == ' ' && t[2] == '#';
    }
  }

  lemma {:induction false} CommentIsAt(s: string, i: nat, k: nat)
    requires i <= k <= |s| && (k < |s| ==> NoteAt(s, k)) && forall j: nat :: i <= j < k ==> !NoteAt(s, j)
    ensures CommentAt(s, i) == k
    decreases |s| - i
  {
    NoteIs(s, i);
    if i < k {
      CommentIsAt(s, i + 1, k);
    }
  }

  lemma PlainIsItself(text: string)
    requires IsPlainText(text)
    ensures UnquoteEnvValue(text) == text
  {
    StrippedIsFixed(text);
    CommentIsAt(text, 0, |text|);
  }

  /** A text with a comment in it is cut, so it does not come back. */
  lemma NotedIsCut(text: string)
    requires IsStripped(text) && text != "" && text[0] != '"' && HasNote(text)
    ensures |UnquoteEnvValue(text)| < |text|
  {
    StrippedIsFixed(text);
    var i :| 0 <= i < |text| && NoteAt(text, i);
    var k := CommentAt(text, 0);
    if k == |text| {
      NoComment(text, 0, i);
    }
    StripFacts(text[..k]);
  }

  lemma {:induction false} NoComment(s: string, i: nat, k: nat)
    requires i <= k < |s| && NoteAt(s, k)
    ensures CommentAt(s, i) < |s|
    decreases k - i
  {
    NoteIs(s, i);
    if i < k {
      NoComment(s, i + 1, k);
    }
  }

  /** A comment behind a plain text is cut off. */
  lemma NoteIsCutOff(text: string, note: string)
    requires IsPlainText(text) && NoteAt(note, 0) && IsStripped("#" + note)
    ensures UnquoteEnvValue(text + note) == text
  {
    var s := text + note;
    assert s[0] == text[0] && s[|s| - 1] == note[|note| - 1] == ("#" + note)[|note|];
    StrippedIsFixed(s);
    StrippedIsFixed(text);
    assert NoteAt(s, |text|);
    forall j: nat | j < |text| ensures !NoteAt(s, j) {
      assert !NoteAt(text, j);
    }
    CommentIsAt(s, 0, |text|);
    assert s[..|text|] == text;
  }

  lemma LineIsStripped(key: string, text: string)
    requires IsName(key) && text != "" && !IsSpace(text[|text| - 1])
    ensures IsStripped(key + "=" + text)
  {
    var line := key + "=" + text;
    assert line[0] == key[0] && key[0] in key && line[|line| - 1] == text[|text| - 1];
  }

  lemma LineIsRead(key: string, text: string, value: string)
    requires IsName(key) && text != "" && !IsSpace(text[|text| - 1]) && UnquoteEnvValue(text) == value
    ensures ParseLine(key + "=" + text) == Some(Entry(key, value))
  {
    LineIsStripped(key, text);
    NameIsRead(key, text);
  }

  lemma PlainIsRead(key: string, text: string)
    requires IsName(key) && IsPlainText(text)
    ensures ParseLine(key + "=" + text) == Some(Entry(key, text))
  {
    PlainIsItself(text);
    LineIsRead(key, text, text);
  }

  lemma NotedIsRead(key: string, text: string, note: string)
    requires IsName(key) && IsPlainText(text) && NoteAt(note, 0) && IsStripped("#" + note)
    ensures ParseLine(key + "=" + (text + note)) == Some(Entry(key, text))
  {
    NoteIsCutOff(text, note);
    var s := text + note;
    assert s[|s| - 1] == note[|note| - 1] == ("#" + note)[|note|];
    LineIsRead(key, s, text);
  }

  lemma ListIsRead(key: string, values: seq<string>)
    requires IsName(key)
    ensures ParseLine(key + "=" + ListToEnvJson(values)) == Some(Entry(key, UnquoteEnvValue(ListToEnvJson(values))))
  {
    var text := ListToEnvJson(values);
    assert text[|text| - 1] == ']';
    LineIsRead(key, text, UnquoteEnvValue(text));
  }

  lemma DigitsArePlain(n: nat)
    ensures IsPlainText(Digits(n))
  {
    var s := Digits(n);
    assert s[0] in s && s[|s| - 1] in s;
    forall i | 0 <= i < |s| ensures !NoteAt(s, i) {
      assert s[i] in s;
    }
  }

  lemma FixedTextsArePlain()
    ensures IsPlainText("true") && IsPlainText("false") && IsPlainText("5") && IsPlainText("300")
  {
  }

  // ----- The groups of lines

  function ReadAs(key: string, text: string): string {
    var entry := ParseLine(key + "=" + text);
    if entry.Some? then entry.value.value else ""
  }

  function HostMap(d: Deployment): map<string, string> {
    var note := if d.caddyDomain.Some? then CADDY_NOTE else "";
    map["HOST_PORT" := Digits(d.hostPort)]["HOST_BIND_IP" := ReadAs("HOST_BIND_IP", d.hostBindIp + note)]
  }

  function AccessMap(d: Deployment): map<string, string> {
    map["DEBUG" := "false"]["EXPOSE_DOCS" := BoolText(d.exposeDocs)]
       ["TRUSTED_HOSTS" := UnquoteEnvValue(ListToEnvJson(d.trustedHosts))]
       ["TRUSTED_PROXY_IPS" := UnquoteEnvValue(ListToEnvJson(d.trustedProxyIps))]
  }

  function ServiceMap(d: Deployment): map<string, string> {
    map["AUTH_ENFORCE_LOGIN_ORIGIN" := "true"]["AUTH_LOGIN_MAX_FAILURES" := "5"]
       ["AUTH_RATE_LIMIT_WINDOW_SECONDS" := "300"]["ANALYTICS_ENABLED_DEFAULT" := BoolText(d.deployGoatcounter)]
       ["GOATCOUNTER_SITE_HOST" := d.goatcounterHost]
  }

  lemma AccessAreRead(d: Deployment)
    ensures ParseLines(AccessLines(d)) == AccessMap(d)
  {
    SettingNames1();
    FixedTextsArePlain();
    PlainIsRead("DEBUG", "false");
    PlainIsRead("EXPOSE_DOCS", BoolText(d.exposeDocs));
    ListIsRead("TRUSTED_HOSTS", d.trustedHosts);
    ListIsRead("TRUSTED_PROXY_IPS", d.trustedProxyIps);
    FourLines("DEBUG" + "=" + "false", "EXPOSE_DOCS" + "=" + BoolText(d.exposeDocs),
              "TRUSTED_HOSTS" + "=" + ListToEnvJson(d.trustedHosts),
              "TRUSTED_PROXY_IPS" + "=" + ListToEnvJson(d.trustedProxyIps));
  }

  lemma FiveLines(a: string, b: string, c: string, d: string, e: string)
    ensures ParseLines([a, b, c, d, e]) == Store(ParseLines([a, b, c, d]), ParseLine(e))
  {
    ParseLinesSnoc([a, b, c, d], e);
    assert [a, b, c, d] + [e] == [a, b, c, d, e];
  }

  lemma LoginAreRead()
    ensures ParseLine("AUTH_ENFORCE_LOGIN_ORIGIN" + "=" + "true") == Some(Entry("AUTH_ENFORCE_LOGIN_ORIGIN", "true"))
    ensures ParseLine("AUTH_LOGIN_MAX_FAILURES" + "=" + "5") == Some(Entry("AUTH_LOGIN_MAX_FAILURES", "5"))
    ensures ParseLine("AUTH_RATE_LIMIT_WINDOW_SECONDS" + "=" + "300")
         == Some(Entry("AUTH_RATE_LIMIT_WINDOW_SECONDS", "300"))
  {
    SettingNames2();
    SettingNames3();
    FixedTextsArePlain();
    PlainIsRead("AUTH_ENFORCE_LOGIN_ORIGIN", "true");
    PlainIsRead("AUTH_LOGIN_MAX_FAILURES", "5");
    PlainIsRead("AUTH_RATE_LIMIT_WINDOW_SECONDS", "300");
  }

  lemma AnalyticsAreRead(enabled: bool, host: string)
    ensures ParseLine("ANALYTICS_ENABLED_DEFAULT" + "=" + BoolText(enabled))
         == Some(Entry("ANALYTICS_ENABLED_DEFAULT", BoolText(enabled)))
    ensures ParseLine("GOATCOUNTER_SITE_HOST" + "=" + QuoteEnvValue(host)) == Some(Entry("GOATCOUNTER_SITE_HOST", host))
  {
    SettingNames4();
    FixedTextsArePlain();
    PlainIsRead("ANALYTICS_ENABLED_DEFAULT", BoolText(enabled));
    QuotedLineIsRead("GOATCOUNTER_SITE_HOST", host);
  }

  lemma ServiceAreRead(d: Deployment)
    ensures ParseLines(ServiceLines(d)) == ServiceMap(d)
  {
    LoginAreRead();
    AnalyticsAreRead(d.deployGoatcounter, d.goatcounterHost);
    var a, b := "AUTH_ENFORCE_LOGIN_ORIGIN" + "=" + "true", "AUTH_LOGIN_MAX_FAILURES" + "=" + "5";
    var c := "AUTH_RATE_LIMIT_WINDOW_SECONDS" + "=" + "300";
    var e := "ANALYTICS_ENABLED_DEFAULT" + "=" + BoolText(d.deployGoatcounter);
    FourLines(a, b, c, e);
    FiveLines(a, b, c, e, "GOATCOUNTER_SITE_HOST" + "=" + QuoteEnvValue(d.goatcounterHost));
  }

  lemma NoteOfCaddy()
    ensures NoteAt(CADDY_NOTE, 0) && IsStripped("#" + CADDY_NOTE)
  {
  }

  lemma PortIsRead(port: nat, note: string)
    requires note == CADDY_NOTE || note == ""
    ensures ParseLine("HOST_PORT" + "=" + (Digits(port) + note)) == Some(Entry("HOST_PORT", Digits(port)))
  {
    HostNames();
    DigitsArePlain(port);
    if note == "" {
      assert Digits(port) + note == Digits(port);
      PlainIsRead("HOST_PORT", Digits(port));
    } else {
      NoteOfCaddy();
      NotedIsRead("HOST_PORT", Digits(port), note);
    }
  }

  lemma OtherIsRead(key: string, text: string)
    requires IsName(key)
    ensures ParseLine(key + "=" + text) == Some(Entry(key, ReadAs(key, text)))
  {
    NameIsRead(key, text);
  }

  lemma HostAreRead(d: Deployment)
    ensures ParseLines(HostLines(d)) == HostMap(d)
  {
    var note := if d.caddyDomain.Some? then CADDY_NOTE else "";
    HostNames();
    PortIsRead(d.hostPort, note);
    OtherIsRead("HOST_BIND_IP", d.hostBindIp + note);
    var a, b := "HOST_PORT" + "=" + (Digits(d.hostPort) + note), "HOST_BIND_IP" + "=" + (d.hostBindIp + note);
    TwoMoreLines([], a, b);
    assert [] + [a, b] == [a, b];
  }

  function SizeMap(size: Option<string>): map<string, string> {
    if size.Some? then map["MAX_CONTENT_SIZE" := ReadAs("MAX_CONTENT_SIZE", size.value)] else map[]
  }

  function PasswordMap(disabled: bool): map<string, string> {
    if disabled then map["DISABLE_PASSWORD_CHANGE" := "true"] else map[]
  }

  function ImageMap(image: Option<string>): map<string, string> {
    if image.Some? then map["AGBLOGGER_IMAGE" := image.value] else map[]
  }

  function OptionalMap(d: Deployment): map<string, string> {
    SizeMap(d.maxContentSize) + PasswordMap(d.disablePasswordChange) + ImageMap(d.imageRef)
  }

  lemma SingleLine(line: string)
    ensures ParseLines([line]) == Store(map[], ParseLine(line))
  {
    ParseLinesSnoc([], line);
    assert [] + [line] == [line];
  }

  lemma OptionalAreRead(d: Deployment)
    ensures ParseLines(OptionalLines(d)) == OptionalMap(d)
  {
    OptionalNames();
    FixedTextsArePlain();
    var a := if d.maxContentSize.Some? then ["MAX_CONTENT_SIZE" + "=" + d.maxContentSize.value] else [];
    var b := if d.disablePasswordChange then ["DISABLE_PASSWORD_CHANGE" + "=" + "true"] else [];
    var c := if d.imageRef.Some? then ["AGBLOGGER_IMAGE" + "=" + QuoteEnvValue(d.imageRef.value)] else [];
    if d.maxContentSize.Some? {
      OtherIsRead("MAX_CONTENT_SIZE", d.maxContentSize.value);
      SingleLine("MAX_CONTENT_SIZE" + "=" + d.maxContentSize.value);
    }
    PlainIsRead("DISABLE_PASSWORD_CHANGE", "true");
    SingleLine("DISABLE_PASSWORD_CHANGE" + "=" + "true");
    if d.imageRef.Some? {
      QuotedLineIsRead("AGBLOGGER_IMAGE", d.imageRef.value);
      SingleLine("AGBLOGGER_IMAGE" + "=" + QuoteEnvValue(d.imageRef.value));
    }
    ParseLinesAppend(a, b);
    ParseLinesAppend(a + b, c);
  }

  // ----- The whole tail

  lemma TailParts(host: seq<string>, access: seq<string>, service: seq<string>, note: string, more: seq<string>)
    requires ParseLine(note).None?
    ensures ParseLines(host + ((access + service) + [note]) + more)
         == ParseLines(host) + (ParseLines(access) + ParseLines(service)) + ParseLines(more)
  {
    ParseLinesAppend(access, service);
    ParseLinesSnoc(access + service, note);
    ParseLinesAppend(host, (access + service) + [note]);
    ParseLinesAppend(host + ((access + service) + [note]), more);
  }

  lemma AllOneLine(lines: seq<string>)
    requires forall l <- lines :: HasNoBreak(l)
    ensures SplitLines(Unlines(lines)) == lines
  {
    SplitUnlines(lines, "");
    assert Unlines(lines) + "" == Unlines(lines) && lines + [] == lines;
  }

  lemma LineHasNoBreak(key: string, text: string)
    requires IsName(key) && HasNoBreak(text)
    ensures HasNoBreak(key + "=" + text)
  {
    NameHasNoBreak(key);
    AppendHasNoBreak(key, text);
  }

  lemma HostHasNoBreak(d: Deployment)
    requires HasNoBreak(d.hostBindIp)
    ensures forall l <- HostLines(d) :: HasNoBreak(l)
  {
    var note := if d.caddyDomain.Some? then CADDY_NOTE else "";
    HostNames();
    CaddyNote();
    PrintableHasNoBreak(Digits(d.hostPort));
    ConcatHasNoBreak(Digits(d.hostPort), note);
    ConcatHasNoBreak(d.hostBindIp, note);
    LineHasNoBreak("HOST_PORT", Digits(d.hostPort) + note);
    LineHasNoBreak("HOST_BIND_IP", d.hostBindIp + note);
  }

  lemma AccessHasNoBreak(d: Deployment)
    ensures forall l <- AccessLines(d) :: HasNoBreak(l)
  {
    SettingNames1();
    FixedTexts();
    PrintableHasNoBreak(ListToEnvJson(d.trustedHosts));
    PrintableHasNoBreak(ListToEnvJson(d.trustedProxyIps));
    LineHasNoBreak("DEBUG", "false");
    LineHasNoBreak("EXPOSE_DOCS", BoolText(d.exposeDocs));
    LineHasNoBreak("TRUSTED_HOSTS", ListToEnvJson(d.trustedHosts));
    LineHasNoBreak("TRUSTED_PROXY_IPS", ListToEnvJson(d.trustedProxyIps));
  }

  lemma ServiceHasNoBreak(d: Deployment)
    ensures forall l <- ServiceLines(d) :: HasNoBreak(l)
  {
    SettingNames2();
    SettingNames3();
    SettingNames4();
    FixedTexts();
    LineHasNoBreak("AUTH_ENFORCE_LOGIN_ORIGIN", "true");
    LineHasNoBreak("AUTH_LOGIN_MAX_FAILURES", "5");
    LineHasNoBreak("AUTH_RATE_LIMIT_WINDOW_SECONDS", "300");
    LineHasNoBreak("ANALYTICS_ENABLED_DEFAULT", BoolText(d.deployGoatcounter));
    QuotedLineHasNoBreak("GOATCOUNTER_SITE_HOST", d.goatcounterHost);
  }

  lemma OptionalHasNoBreak(d: Deployment)
    requires d.maxContentSize.Some? ==> HasNoBreak(d.maxContentSize.value)
    ensures forall l <- OptionalLines(d) :: HasNoBreak(l)
  {
    OptionalNames();
    FixedTexts();
    LineHasNoBreak("DISABLE_PASSWORD_CHANGE", "true");
    if d.maxContentSize.Some? {
      LineHasNoBreak("MAX_CONTENT_SIZE", d.maxContentSize.value);
    }
    if d.imageRef.Some? {
      QuotedLineHasNoBreak("AGBLOGGER_IMAGE", d.imageRef.value);
    }
  }

  lemma BlueskyHasNoBreak(domain: string, line: string)
    requires HasNoBreak(domain) && line == "#" + (BLUESKY_START + (domain + BLUESKY_END))
    ensures HasNoBreak(line) && ParseLine(line).None?
  {
    BlueskyStart();
    Notes();
    ConcatHasNoBreak(domain, BLUESKY_END);
    ConcatHasNoBreak(BLUESKY_START, domain + BLUESKY_END);
    ConcatHasNoBreak("#", BLUESKY_START + (domain + BLUESKY_END));
    CommentIsIgnored(BLUESKY_START + (domain + BLUESKY_END));
  }

  lemma TailIs(d: Deployment)
    requires UnquotedAreOneLine(d)
    ensures TailEntries(d) == HostMap(d) + (AccessMap(d) + ServiceMap(d)) + OptionalMap(d)
  {
    HostHasNoBreak(d);
    AccessHasNoBreak(d);
    ServiceHasNoBreak(d);
    OptionalHasNoBreak(d);
    DefaultDomain();
    BlueskyHasNoBreak(if d.caddyDomain.Some? then d.caddyDomain.value else "blog.example.com", BlueskyLine(d));
    assert forall l <- TailLines(d) :: l in HostLines(d) || l in AccessLines(d) || l in ServiceLines(d)
                                    || l == BlueskyLine(d) || l in OptionalLines(d);
    AllOneLine(TailLines(d));
    HostAreRead(d);
    AccessAreRead(d);
    ServiceAreRead(d);
    OptionalAreRead(d);
    TailParts(HostLines(d), AccessLines(d), ServiceLines(d), BlueskyLine(d), OptionalLines(d));
  }

  // ----- The names are told apart by their lengths and first letters

  lemma HostLengths()
    ensures |"HOST_PORT"| == 9 && |"HOST_BIND_IP"| == 12
  {
  }

  lemma AccessLengths()
    ensures |"DEBUG"| == 5 && |"EXPOSE_DOCS"| == 11 && |"TRUSTED_HOSTS"| == 13 && |"TRUSTED_PROXY_IPS"| == 17
  {
  }

  lemma LoginLengths()
    ensures |"AUTH_ENFORCE_LOGIN_ORIGIN"| == 25 && |"AUTH_LOGIN_MAX_FAILURES"| == 23
    ensures |"AUTH_RATE_LIMIT_WINDOW_SECONDS"| == 30
  {
  }

  lemma AnalyticsLengths()
    ensures |"ANALYTICS_ENABLED_DEFAULT"| == 25 && |"GOATCOUNTER_SITE_HOST"| == 21
  {
  }

  lemma OptionalLengths()
    ensures |"MAX_CONTENT_SIZE"| == 16 && |"DISABLE_PASSWORD_CHANGE"| == 23 && |"AGBLOGGER_IMAGE"| == 15
  {
  }

  lemma SecondLetters()
    ensures "AUTH_ENFORCE_LOGIN_ORIGIN"[1] == "AUTH_LOGIN_MAX_FAILURES"[1] == 'U'
    ensures "ANALYTICS_ENABLED_DEFAULT"[1] == 'N' && "DISABLE_PASSWORD_CHANGE"[1] == 'I'
  {
  }

  predicate IsHostName(k: string) {
    |k| == 9 || |k| == 12
  }

  predicate IsAccessName(k: string) {
    |k| in {5, 11, 13, 17}
  }

  predicate IsServiceName(k: string) {
    |k| in {21, 25, 30} || (|k| == 23 && k[1] == 'U')
  }

  predicate IsOptionalName(k: string) {
    |k| == 15 || |k| == 16 || (|k| == 23 && k[1] == 'I')
  }

  predicate AreApart(a: string, b: string) {
    |a| != |b| || (|a| > 1 && a[1] != b[1])
  }

  lemma FourHold(m: map<string, string>, a: string, b: string, c: string, d: string, v: string, w: string, x: string,
                 y: string)
    requires AreApart(a, b) && AreApart(a, c) && AreApart(a, d) && AreApart(b, c) && AreApart(b, d) && AreApart(c, d)
    requires m == map[a := v][b := w][c := x][d := y]
    ensures Holds(m, a, v) && Holds(m, b, w) && Holds(m, c, x) && Holds(m, d, y)
    ensures forall k <- m.Keys :: k == a || k == b || k == c || k == d
  {
  }

  lemma OneMoreHolds(m: map<string, string>, all: map<string, string>, e: string, z: string)
    requires all == m[e := z] && forall k <- m.Keys :: AreApart(k, e)
    ensures forall k <- all.Keys :: k == e || k in m
    ensures forall k, v :: Holds(m, k, v) ==> Holds(all, k, v)
    ensures Holds(all, e, z)
  {
  }

  lemma HostHolds(d: Deployment, m: map<string, string>)
    requires m == HostMap(d)
    ensures forall k <- m.Keys :: IsHostName(k)
    ensures Holds(m, "HOST_PORT", Digits(d.hostPort))
    ensures var note := if d.caddyDomain.Some? then CADDY_NOTE else "";
            Holds(m, "HOST_BIND_IP", ReadAs("HOST_BIND_IP", d.hostBindIp + note))
  {
    HostLengths();
  }

  lemma AccessHolds(d: Deployment, m: map<string, string>)
    requires m == AccessMap(d)
    ensures forall k <- m.Keys :: IsAccessName(k)
    ensures Holds(m, "DEBUG", "false") && Holds(m, "EXPOSE_DOCS", BoolText(d.exposeDocs))
    ensures Holds(m, "TRUSTED_HOSTS", UnquoteEnvValue(ListToEnvJson(d.trustedHosts)))
    ensures Holds(m, "TRUSTED_PROXY_IPS", UnquoteEnvValue(ListToEnvJson(d.trustedProxyIps)))
  {
    AccessLengths();
    FourHold(m, "DEBUG", "EXPOSE_DOCS", "TRUSTED_HOSTS", "TRUSTED_PROXY_IPS", "false", BoolText(d.exposeDocs),
             UnquoteEnvValue(ListToEnvJson(d.trustedHosts)), UnquoteEnvValue(ListToEnvJson(d.trustedProxyIps)));
  }

  lemma LoginHolds(m: map<string, string>, enabled: string)
    requires m == map["AUTH_ENFORCE_LOGIN_ORIGIN" := "true"]["AUTH_LOGIN_MAX_FAILURES" := "5"]
                     ["AUTH_RATE_LIMIT_WINDOW_SECONDS" := "300"]["ANALYTICS_ENABLED_DEFAULT" := enabled]
    ensures forall k <- m.Keys :: IsServiceName(k) && |k| != 21
    ensures Holds(m, "AUTH_ENFORCE_LOGIN_ORIGIN", "true") && Holds(m, "AUTH_LOGIN_MAX_FAILURES", "5")
    ensures Holds(m, "AUTH_RATE_LIMIT_WINDOW_SECONDS", "300") && Holds(m, "ANALYTICS_ENABLED_DEFAULT", enabled)
  {
    LoginLengths();
    AnalyticsLengths();
    SecondLetters();
    FourHold(m, "AUTH_ENFORCE_LOGIN_ORIGIN", "AUTH_LOGIN_MAX_FAILURES", "AUTH_RATE_LIMIT_WINDOW_SECONDS",
             "ANALYTICS_ENABLED_DEFAULT", "true", "5", "300", enabled);
  }

  lemma ServiceHolds(d: Deployment, m: map<string, string>)
    requires m == ServiceMap(d)
    ensures forall k <- m.Keys :: IsServiceName(k)
    ensures Holds(m, "AUTH_ENFORCE_LOGIN_ORIGIN", "true") && Holds(m, "AUTH_LOGIN_MAX_FAILURES", "5")
    ensures Holds(m, "AUTH_RATE_LIMIT_WINDOW_SECONDS", "300")
    ensures Holds(m, "ANALYTICS_ENABLED_DEFAULT", BoolText(d.deployGoatcounter))
    ensures Holds(m, "GOATCOUNTER_SITE_HOST", d.goatcounterHost)
  {
    AnalyticsLengths();
    var front: map<string, string> :=
      map["AUTH_ENFORCE_LOGIN_ORIGIN" := "true"]["AUTH_LOGIN_MAX_FAILURES" := "5"]
         ["AUTH_RATE_LIMIT_WINDOW_SECONDS" := "300"]["ANALYTICS_ENABLED_DEFAULT" := BoolText(d.deployGoatcounter)];
    LoginHolds(front, BoolText(d.deployGoatcounter));
    OneMoreHolds(front, m, "GOATCOUNTER_SITE_HOST", d.goatcounterHost);
  }

  lemma ThreeHold(x: map<string, string>, y: map<string, string>, z: map<string, string>, a: string, b: string,
                  c: string)
    requires AreApart(a, b) && AreApart(a, c) && AreApart(b, c)
    requires x.Keys <= {a} && y.Keys <= {b} && z.Keys <= {c}
    ensures var m := x + y + z;
            && m.Keys <= {a, b, c} && (a in m <==> a in x) && (b in m <==> b in y) && (c in m <==> c in z)
            && (a in x ==> m[a] == x[a]) && (b in y ==> m[b] == y[b]) && (c in z ==> m[c] == z[c])
  {
  }

  lemma OptionalHolds(d: Deployment, m: map<string, string>)
    requires m == OptionalMap(d)
    ensures forall k <- m.Keys :: IsOptionalName(k)
    ensures "MAX_CONTENT_SIZE" in m <==> d.maxContentSize.Some?
    ensures d.maxContentSize.Some? ==> m["MAX_CONTENT_SIZE"] == ReadAs("MAX_CONTENT_SIZE", d.maxContentSize.value)
    ensures "DISABLE_PASSWORD_CHANGE" in m <==> d.disablePasswordChange
    ensures d.disablePasswordChange ==> m["DISABLE_PASSWORD_CHANGE"] == "true"
    ensures "AGBLOGGER_IMAGE" in m <==> d.imageRef.Some?
    ensures d.imageRef.Some? ==> m["AGBLOGGER_IMAGE"] == d.imageRef.value
  {
    OptionalLengths();
    SecondLetters();
    ThreeHold(SizeMap(d.maxContentSize), PasswordMap(d.disablePasswordChange), ImageMap(d.imageRef),
              "MAX_CONTENT_SIZE", "DISABLE_PASSWORD_CHANGE", "AGBLOGGER_IMAGE");
  }

  // ----- The settings in the whole file

  /** The names of the groups do not meet. */
  ghost predicate AreGrouped(h: map<string, string>, a: map<string, string>, s: map<string, string>,
                             o: map<string, string>)
  {
    && (forall k <- h.Keys :: IsHostName(k)) && (forall k <- a.Keys :: IsAccessName(k))
    && (forall k <- s.Keys :: IsServiceName(k))
    && forall k <- o.Keys :: IsOptionalName(k)
  }

  lemma UnderOthers(secrets: map<string, string>, h: map<string, string>, a: map<string, string>,
                    s: map<string, string>, o: map<string, string>, v: map<string, string>, k: string, x: string)
    requires v == secrets + (h + (a + s) + o) && AreGrouped(h, a, s, o)
    requires Holds(h, k, x) || Holds(a, k, x) || Holds(s, k, x)
    ensures Holds(v, k, x)
  {
  }

  lemma OnTop(secrets: map<string, string>, h: map<string, string>, a: map<string, string>, s: map<string, string>,
              o: map<string, string>, v: map<string, string>, k: string)
    requires v == secrets + (h + (a + s) + o) && AreGrouped(h, a, s, o) && IsOptionalName(k)
    requires forall k <- secrets.Keys :: |k| == 10 || |k| == 14 || |k| == 18
    ensures (k in v <==> k in o) && (k in o ==> v[k] == o[k])
  {
  }

  lemma SecretLengths()
    ensures forall k <- SECRET_KEYS :: |k| == 10 || |k| == 14 || |k| == 18
  {
    assert |"SECRET_KEY"| == 10 && |"ADMIN_USERNAME"| == 14 && |"ADMIN_PASSWORD"| == 14;
    assert |"ADMIN_DISPLAY_NAME"| == 18;
  }

  lemma HostGroup(d: Deployment)
    ensures forall k <- HostMap(d).Keys :: IsHostName(k)
  {
    HostHolds(d, HostMap(d));
  }

  lemma AccessGroup(d: Deployment)
    ensures forall k <- AccessMap(d).Keys :: IsAccessName(k)
  {
    AccessHolds(d, AccessMap(d));
  }

  lemma ServiceGroup(d: Deployment)
    ensures forall k <- ServiceMap(d).Keys :: IsServiceName(k)
  {
    ServiceHolds(d, ServiceMap(d));
  }

  lemma OptionalGroup(d: Deployment)
    ensures forall k <- OptionalMap(d).Keys :: IsOptionalName(k)
  {
    OptionalHolds(d, OptionalMap(d));
  }

  lemma GroupsOf(d: Deployment, h: map<string, string>, a: map<string, string>, s: map<string, string>,
                 o: map<string, string>)
    requires h == HostMap(d) && a == AccessMap(d) && s == ServiceMap(d) && o == OptionalMap(d)
    ensures AreGrouped(h, a, s, o)
  {
    HostGroup(d);
    AccessGroup(d);
    ServiceGroup(d);
    OptionalGroup(d);
  }

  /** What the groups hold is in the file. */
  lemma IsThere(c: Secrets, d: Deployment, k: string, x: string)
    requires UnquotedAreOneLine(d)
    requires Holds(HostMap(d), k, x) || Holds(AccessMap(d), k, x) || Holds(ServiceMap(d), k, x)
    ensures Holds(ReadBack(c, d), k, x)
  {
    ReadBackEntries(c, d);
    TailIs(d);
    GroupsOf(d, HostMap(d), AccessMap(d), ServiceMap(d), OptionalMap(d));
    UnderOthers(SecretEntries(c), HostMap(d), AccessMap(d), ServiceMap(d), OptionalMap(d), ReadBack(c, d), k, x);
  }

  lemma OptionalIsThere(c: Secrets, d: Deployment, v: map<string, string>, m: map<string, string>, k: string)
    requires UnquotedAreOneLine(d) && v == ReadBack(c, d) && m == OptionalMap(d) && IsOptionalName(k)
    ensures (k in v <==> k in m) && (k in m ==> v[k] == m[k])
  {
    ReadBackEntries(c, d);
    TailIs(d);
    GroupsOf(d, HostMap(d), AccessMap(d), ServiceMap(d), OptionalMap(d));
    EntriesHold(c);
    SecretLengths();
    OnTop(SecretEntries(c), HostMap(d), AccessMap(d), ServiceMap(d), OptionalMap(d), v, k);
  }

  lemma UnquotedReadsAs(key: string, text: string, note: string)
    requires IsName(key) && IsPlainText(text) && (note == CADDY_NOTE || note == "")
    ensures ReadAs(key, text + note) == text
  {
    if note == "" {
      assert text + note == text;
      PlainIsRead(key, text);
    } else {
      NoteOfCaddy();
      NotedIsRead(key, text, note);
    }
  }

  lemma TrueIsNotFalse(b: bool)
    ensures BoolText(b) == "true" <==> b
    ensures BoolText(b) == "false" <==> !b
  {
  }

  /** Host and access settings read back as the fields they were written from. The host's address does if it means
      itself without quotes. */
  lemma HostSettingsReadBack(c: Secrets, d: Deployment)
    requires UnquotedAreOneLine(d)
    ensures var v := ReadBack(c, d);
            && "HOST_PORT" in v && v["HOST_PORT"] == Digits(d.hostPort)
            && (IsPlainText(d.hostBindIp) ==> Holds(v, "HOST_BIND_IP", d.hostBindIp))
            && Holds(v, "DEBUG", "false")
            && (Holds(v, "EXPOSE_DOCS", "true") <==> d.exposeDocs)
            && (Holds(v, "EXPOSE_DOCS", "false") <==> !d.exposeDocs)
  {
    var note := if d.caddyDomain.Some? then CADDY_NOTE else "";
    HostHolds(d, HostMap(d));
    AccessHolds(d, AccessMap(d));
    IsThere(c, d, "HOST_PORT", Digits(d.hostPort));
    IsThere(c, d, "HOST_BIND_IP", ReadAs("HOST_BIND_IP", d.hostBindIp + note));
    IsThere(c, d, "DEBUG", "false");
    IsThere(c, d, "EXPOSE_DOCS", BoolText(d.exposeDocs));
    TrueIsNotFalse(d.exposeDocs);
    if IsPlainText(d.hostBindIp) {
      HostNames();
      UnquotedReadsAs("HOST_BIND_IP", d.hostBindIp, note);
    }
  }

  /** The text of a list comes back as it is exactly if it holds nothing that looks like a comment. */
  lemma ListTextIff(values: seq<string>)
    ensures UnquoteEnvValue(ListToEnvJson(values)) == ListToEnvJson(values) <==> !HasNote(ListToEnvJson(values))
  {
    var text := ListToEnvJson(values);
    assert text[0] == '[' && text[|text| - 1] == ']';
    if HasNote(text) {
      NotedIsCut(text);
    } else {
      PlainIsItself(text);
    }
  }

  /** So do the lists of hosts and proxies, unless a name in them holds what looks like a comment. */
  lemma ListSettingsReadBack(c: Secrets, d: Deployment)
    requires UnquotedAreOneLine(d)
    ensures var v := ReadBack(c, d);
            && "TRUSTED_HOSTS" in v && "TRUSTED_PROXY_IPS" in v
            && (v["TRUSTED_HOSTS"] == ListToEnvJson(d.trustedHosts) <==> !HasNote(ListToEnvJson(d.trustedHosts)))
            && (!HasNote(ListToEnvJson(d.trustedHosts)) ==> LoadList(v["TRUSTED_HOSTS"]) == Some(d.trustedHosts))
            && (v["TRUSTED_PROXY_IPS"] == ListToEnvJson(d.trustedProxyIps)
                <==> !HasNote(ListToEnvJson(d.trustedProxyIps)))
            && (!HasNote(ListToEnvJson(d.trustedProxyIps)) ==>
                  LoadList(v["TRUSTED_PROXY_IPS"]) == Some(d.trustedProxyIps))
  {
    AccessHolds(d, AccessMap(d));
    IsThere(c, d, "TRUSTED_HOSTS", UnquoteEnvValue(ListToEnvJson(d.trustedHosts)));
    IsThere(c, d, "TRUSTED_PROXY_IPS", UnquoteEnvValue(ListToEnvJson(d.trustedProxyIps)));
    ListTextIff(d.trustedHosts);
    ListTextIff(d.trustedProxyIps);
    ListRoundTrip(d.trustedHosts);
    ListRoundTrip(d.trustedProxyIps);
  }

  /** So do the settings of the services, with the fixed limits on logins, whatever the name of the host is. */
  lemma ServiceSettingsReadBack(c: Secrets, d: Deployment)
    requires UnquotedAreOneLine(d)
    ensures var v := ReadBack(c, d);
            && Holds(v, "AUTH_ENFORCE_LOGIN_ORIGIN", "true") && Holds(v, "AUTH_LOGIN_MAX_FAILURES", "5")
            && Holds(v, "AUTH_RATE_LIMIT_WINDOW_SECONDS", "300")
            && (Holds(v, "ANALYTICS_ENABLED_DEFAULT", "true") <==> d.deployGoatcounter)
            && (Holds(v, "ANALYTICS_ENABLED_DEFAULT", "false") <==> !d.deployGoatcounter)
            && Holds(v, "GOATCOUNTER_SITE_HOST", d.goatcounterHost)
  {
    ServiceHolds(d, ServiceMap(d));
    IsThere(c, d, "AUTH_ENFORCE_LOGIN_ORIGIN", "true");
    IsThere(c, d, "AUTH_LOGIN_MAX_FAILURES", "5");
    IsThere(c, d, "AUTH_RATE_LIMIT_WINDOW_SECONDS", "300");
    IsThere(c, d, "ANALYTICS_ENABLED_DEFAULT", BoolText(d.deployGoatcounter));
    IsThere(c, d, "GOATCOUNTER_SITE_HOST", d.goatcounterHost);
    TrueIsNotFalse(d.deployGoatcounter);
  }

  /** The optional settings are there exactly if they were given. The size limit reads back if it means itself
      without quotes. */
  lemma OptionalSettingsReadBack(c: Secrets, d: Deployment)
    requires UnquotedAreOneLine(d)
    ensures var v := ReadBack(c, d);
            && ("MAX_CONTENT_SIZE" in v <==> d.maxContentSize.Some?)
            && (d.maxContentSize.Some? && IsPlainText(d.maxContentSize.value) ==>
                  v["MAX_CONTENT_SIZE"] == d.maxContentSize.value)
            && ("DISABLE_PASSWORD_CHANGE" in v <==> d.disablePasswordChange)
            && (d.disablePasswordChange ==> v["DISABLE_PASSWORD_CHANGE"] == "true")
            && ("AGBLOGGER_IMAGE" in v <==> d.imageRef.Some?)
            && (d.imageRef.Some? ==> v["AGBLOGGER_IMAGE"] == d.imageRef.value)
  {
    var v, m := ReadBack(c, d), OptionalMap(d);
    OptionalHolds(d, m);
    OptionalAreOptional();
    OptionalIsThere(c, d, v, m, "MAX_CONTENT_SIZE");
    OptionalIsThere(c, d, v, m, "DISABLE_PASSWORD_CHANGE");
    OptionalIsThere(c, d, v, m, "AGBLOGGER_IMAGE");
    if d.maxContentSize.Some? && IsPlainText(d.maxContentSize.value) {
      SizeReadsAs(d.maxContentSize.value);
    }
  }

  lemma SizeReadsAs(size: string)
    requires IsPlainText(size)
    ensures ReadAs("MAX_CONTENT_SIZE", size) == size
  {
    OptionalNames();
    PlainIsRead("MAX_CONTENT_SIZE", size);
  }

  lemma OptionalAreOptional()
    ensures IsOptionalName("MAX_CONTENT_SIZE") && IsOptionalName("DISABLE_PASSWORD_CHANGE")
    ensures IsOptionalName("AGBLOGGER_IMAGE")
  {
    OptionalLengths();
    SecondLetters();
  }
}
