/** When reading the `.env.production` file gives back the secrets it was written with. */
module EnvRoundTrip {
  import opened Options
  import opened PyText
  import opened JsonString
  import opened EnvFile
  import opened EnvLines

  /** The entries that the lines after the secrets amount to. They do not depend on the secrets. */
  function TailEntries(d: Deployment): map<string, string> {
    ParseLines(SplitLines(Unlines(TailLines(d))))
  }

  function ReadBack(c: Secrets, d: Deployment): map<string, string> {
    ParseLines(SplitLines(EnvText(c, d)))
  }

  predicate Holds(values: map<string, string>, key: string, value: string) {
    key in values && values[key] == value
  }

  predicate Recovers(c: Secrets, d: Deployment) {
    var values := ReadBack(c, d);
    && Holds(values, "SECRET_KEY", c.secretKey)
    && Holds(values, "ADMIN_USERNAME", c.adminUsername)
    && Holds(values, "ADMIN_PASSWORD", c.adminPassword)
    && Holds(values, "ADMIN_DISPLAY_NAME", c.adminDisplayName)
  }

  function SecretEntries(c: Secrets): map<string, string> {
    map["SECRET_KEY" := c.secretKey]["ADMIN_USERNAME" := c.adminUsername]
       ["ADMIN_PASSWORD" := c.adminPassword]["ADMIN_DISPLAY_NAME" := c.adminDisplayName]
  }

  lemma {:induction false} UnlinesAppend(a: seq<string>, b: seq<string>)
    ensures Unlines(a + b) == Unlines(a) + Unlines(b)
  {
    if a == [] {
      assert a + b == b;
    } else {
      assert (a + b)[0] == a[0] && (a + b)[1..] == a[1..] + b;
      UnlinesAppend(a[1..], b);
      Regroup(a[0], Unlines(a[1..]), Unlines(b));
    }
  }

  lemma FourLines(a: string, b: string, c: string, d: string)
    ensures ParseLines([a, b, c, d])
         == Store(Store(Store(Store(map[], ParseLine(a)), ParseLine(b)), ParseLine(c)), ParseLine(d))
  {
    TwoMoreLines([], a, b);
    TwoMoreLines([a, b], c, d);
    assert [] + [a, b] == [a, b] && [a, b] + [c, d] == [a, b, c, d];
  }

  lemma TwoMoreLines(lines: seq<string>, a: string, b: string)
    ensures ParseLines(lines + [a, b]) == Store(Store(ParseLines(lines), ParseLine(a)), ParseLine(b))
  {
    ParseLinesSnoc(lines, a);
    ParseLinesSnoc(lines + [a], b);
    OneAndOne(lines, a, b);
  }

  lemma OneAndOne(lines: seq<string>, a: string, b: string)
    ensures lines + [a] + [b] == lines + [a, b]
  {
  }

  lemma SecretNames()
    ensures forall k <- SECRET_KEYS :: IsName(k)
  {
    assert IsName("SECRET_KEY");
    assert IsName("ADMIN_USERNAME");
    assert IsName("ADMIN_PASSWORD");
    assert IsName("ADMIN_DISPLAY_NAME");
  }

  lemma SecretsAreRead(c: Secrets)
    ensures ParseLines(SecretLines(c)) == SecretEntries(c)
  {
    SecretNames();
    QuotedLineIsRead("SECRET_KEY", c.secretKey);
    QuotedLineIsRead("ADMIN_USERNAME", c.adminUsername);
    QuotedLineIsRead("ADMIN_PASSWORD", c.adminPassword);
    QuotedLineIsRead("ADMIN_DISPLAY_NAME", c.adminDisplayName);
    FourLines("SECRET_KEY" + "=" + QuoteEnvValue(c.secretKey),
              "ADMIN_USERNAME" + "=" + QuoteEnvValue(c.adminUsername),
              "ADMIN_PASSWORD" + "=" + QuoteEnvValue(c.adminPassword),
              "ADMIN_DISPLAY_NAME" + "=" + QuoteEnvValue(c.adminDisplayName));
  }

  lemma SecretsHaveNoBreak(c: Secrets)
    ensures forall l <- SecretLines(c) :: HasNoBreak(l)
  {
    SecretNames();
    QuotedLineHasNoBreak("SECRET_KEY", c.secretKey);
    QuotedLineHasNoBreak("ADMIN_USERNAME", c.adminUsername);
    QuotedLineHasNoBreak("ADMIN_PASSWORD", c.adminPassword);
    QuotedLineHasNoBreak("ADMIN_DISPLAY_NAME", c.adminDisplayName);
  }

  lemma HeaderIsPrintable()
    ensures forall c <- HEADER :: IsPrintable(c)
  {
    assert forall c <- " Auto-generated by" :: IsPrintable(c);
    assert forall c <- " tools/deploy_production.py" :: IsPrintable(c);
  }

  lemma CommentIsIgnored(text: string)
    ensures ParseLine("#" + text).None?
  {
    var raw := "#" + text;
    assert raw[0] == '#' && !IsSpace(raw[0]);
    assert SkipSpaces(raw, 0) == 0;
    var end := SkipSpacesBack(raw, 0, |raw|);
    assert end > 0 && Strip(raw) == raw[..end];
  }

  lemma HeaderIsIgnored()
    ensures HasNoBreak(HEADER) && ParseLine(HEADER).None?
  {
    HeaderIsPrintable();
    PrintableHasNoBreak(HEADER);
    CommentIsIgnored(" Auto-generated by" + " tools/deploy_production.py");
    assert HEADER == "#" + (" Auto-generated by" + " tools/deploy_production.py");
  }

  /** The file reads as its first lines followed by the lines that the tail breaks into. */
  lemma ReadBackLines(front: seq<string>, tail: seq<string>)
    requires forall l <- front :: HasNoBreak(l)
    ensures ParseLines(SplitLines(Unlines(front + tail))) == ParseLines(front) + ParseLines(SplitLines(Unlines(tail)))
  {
    UnlinesAppend(front, tail);
    SplitUnlines(front, Unlines(tail));
    ParseLinesAppend(front, SplitLines(Unlines(tail)));
  }

  lemma HeaderAddsNothing(lines: seq<string>)
    ensures ParseLines([HEADER] + lines) == ParseLines(lines)
  {
    HeaderIsIgnored();
    ParseLinesAppend([HEADER], lines);
    ParseLinesSnoc([], HEADER);
    assert [] + [HEADER] == [HEADER];
    assert map[] + ParseLines(lines) == ParseLines(lines);
  }

  /** The file reads as the secrets' entries, overridden by those of the lines that follow. */
  lemma ReadBackEntries(c: Secrets, d: Deployment)
    ensures ReadBack(c, d) == SecretEntries(c) + TailEntries(d)
  {
    HeaderIsIgnored();
    SecretsAreRead(c);
    SecretsHaveNoBreak(c);
    HeaderAddsNothing(SecretLines(c));
    ReadBackLines([HEADER] + SecretLines(c), TailLines(d));
  }

  lemma EntriesHold(c: Secrets)
    ensures SecretEntries(c).Keys == SECRET_KEYS
    ensures Holds(SecretEntries(c), "SECRET_KEY", c.secretKey)
    ensures Holds(SecretEntries(c), "ADMIN_USERNAME", c.adminUsername)
    ensures Holds(SecretEntries(c), "ADMIN_PASSWORD", c.adminPassword)
    ensures Holds(SecretEntries(c), "ADMIN_DISPLAY_NAME", c.adminDisplayName)
  {
    assert "SECRET_KEY"[0] == 'S' && "ADMIN_USERNAME"[6] == 'U' && "ADMIN_PASSWORD"[6] == 'P'
        && "ADMIN_DISPLAY_NAME"[6] == 'D';
    assert "ADMIN_USERNAME"[0] == "ADMIN_PASSWORD"[0] == "ADMIN_DISPLAY_NAME"[0] == 'A';
  }

  lemma HoldsUnderEach(values: map<string, string>, value: string, k: string)
    requires Holds(values, "SECRET_KEY", value) && Holds(values, "ADMIN_USERNAME", value)
    requires Holds(values, "ADMIN_PASSWORD", value) && Holds(values, "ADMIN_DISPLAY_NAME", value)
    requires k in SECRET_KEYS
    ensures Holds(values, k, value)
  {
  }

  /** The secrets come back exactly, whatever they are, if and only if no line after
      them assigns one of their four names. */
  lemma RecoversExactlyWhen(d: Deployment)
    ensures (forall c :: Recovers(c, d)) <==> TailEntries(d).Keys !! SECRET_KEYS
  {
    var tail := TailEntries(d);
    if tail.Keys !! SECRET_KEYS {
      forall c ensures Recovers(c, d) {
        ReadBackEntries(c, d);
        EntriesHold(c);
      }
    } else {
      var k :| k in tail.Keys && k in SECRET_KEYS;
      var other := tail[k] + "x";
      var c := Secrets(other, other, other, other);
      ReadBackEntries(c, d);
      if Recovers(c, d) {
        HoldsUnderEach(ReadBack(c, d), other, k);
        assert false;
      }
    }
  }

  // ----- The condition on the values that are written without quotes

  /** The three values that are written without quotes. */
  predicate UnquotedAreHarmless(d: Deployment) {
    && LaterLinesAreHarmless(d.hostBindIp)
    && (d.caddyDomain.Some? ==> LaterLinesAreHarmless(d.caddyDomain.value))
    && (d.maxContentSize.Some? ==> LaterLinesAreHarmless(d.maxContentSize.value))
  }

  /** A name that is told apart from the four secrets' names by its first letters. */
  predicate IsOtherName(key: string) {
    IsName(key) && |key| > 1 && key[0] != 'S' && !(key[0] == 'A' && key[1] == 'D')
  }

  lemma OtherNamesDiffer(key: string)
    requires IsOtherName(key)
    ensures key !in SECRET_KEYS
  {
    assert "SECRET_KEY"[0] == 'S' && "ADMIN_USERNAME"[1] == 'D' && "ADMIN_PASSWORD"[1] == 'D'
        && "ADMIN_DISPLAY_NAME"[1] == 'D';
    assert "ADMIN_USERNAME"[0] == "ADMIN_PASSWORD"[0] == "ADMIN_DISPLAY_NAME"[0] == 'A';
  }

  ghost predicate Unfold(k: nat) { true }

  /** The file's lines that this text makes name no secret. Kept out of the way of proofs that
      do not ask for it. */
  ghost predicate IsHarmless(text: string) {
    forall k: nat {:trigger Unfold(k)} :: Unfold(k) ==> AreHarmless(SplitLines(text + "\n"))
  }

  lemma IsHarmlessIff(text: string)
    ensures IsHarmless(text) <==> AreHarmless(SplitLines(text + "\n"))
  {
    assert Unfold(0);
  }

  lemma AllAreHarmless(lines: seq<string>)
    ensures (forall l <- lines :: IsHarmless(l)) <==> forall l <- lines :: AreHarmless(SplitLines(l + "\n"))
  {
    forall l | l in lines ensures IsHarmless(l) <==> AreHarmless(SplitLines(l + "\n")) {
      IsHarmlessIff(l);
    }
  }

  lemma OneLineIsHarmless(text: string)
    requires HasNoBreak(text)
    ensures LaterLinesAreHarmless(text)
  {
    OneLine(text);
  }

  lemma OtherLine(key: string, text: string)
    requires IsOtherName(key)
    ensures IsHarmless(key + "=" + text) <==> LaterLinesAreHarmless(text)
  {
    NameHasNoBreak(key);
    AppendHasNoBreak(key, "");
    assert key + "=" + "" == key + "=";
    forall first: string ensures !NamesSecret(key + "=" + first) {
      NameIsRead(key, first);
      OtherNamesDiffer(key);
    }
    PrefixedLine(key + "=", text);
    IsHarmlessIff(key + "=" + text);
  }

  lemma OtherOneLine(key: string, text: string)
    requires IsOtherName(key) && HasNoBreak(text)
    ensures IsHarmless(key + "=" + text)
  {
    OtherLine(key, text);
    OneLineIsHarmless(text);
  }

  lemma Notes()
    ensures IsNote(CADDY_NOTE) && IsNote(BLUESKY_END)
  {
    CaddyNote();
    BlueskyNote();
    EndOfNote();
    LongerNote("  # Uncomment to enable", " Bluesky cross-posting");
  }

  lemma CaddyNote()
    ensures IsNote(CADDY_NOTE)
  {
  }

  lemma BlueskyNote()
    ensures IsNote("  # Uncomment to enable")
  {
  }

  lemma EndOfNote()
    ensures HasNoBreak(" Bluesky cross-posting") && '=' !in " Bluesky cross-posting"
  {
  }

  lemma LongerNote(note: string, more: string)
    requires IsNote(note) && HasNoBreak(more) && '=' !in more
    ensures IsNote(note + more)
  {
  }

  lemma HostNames()
    ensures IsOtherName("HOST_PORT") && IsOtherName("HOST_BIND_IP")
  {
    assert IsName("HOST_PORT");
    assert IsName("HOST_BIND_IP");
  }

  lemma PortLineIsHarmless(port: nat, note: string)
    requires HasNoBreak(note)
    ensures IsHarmless("HOST_PORT" + "=" + (Digits(port) + note))
  {
    HostNames();
    PrintableHasNoBreak(Digits(port));
    ConcatHasNoBreak(Digits(port), note);
    OtherOneLine("HOST_PORT", Digits(port) + note);
  }

  lemma BindLineIs(ip: string, note: string)
    requires IsNote(note) || note == ""
    ensures IsHarmless("HOST_BIND_IP" + "=" + (ip + note)) <==> LaterLinesAreHarmless(ip)
  {
    HostNames();
    OtherLine("HOST_BIND_IP", ip + note);
    if note == "" {
      assert ip + note == ip;
    } else {
      NoteKeepsLines(ip, note);
    }
  }

  lemma HostLinesAre(d: Deployment)
    ensures (forall l <- HostLines(d) :: IsHarmless(l)) <==> LaterLinesAreHarmless(d.hostBindIp)
  {
    var note := if d.caddyDomain.Some? then CADDY_NOTE else "";
    Notes();
    PortLineIsHarmless(d.hostPort, note);
    BindLineIs(d.hostBindIp, note);
    BothHold("HOST_PORT" + "=" + (Digits(d.hostPort) + note), "HOST_BIND_IP" + "=" + (d.hostBindIp + note));
  }

  lemma BothHold(a: string, b: string)
    ensures (forall l <- [a, b] :: IsHarmless(l)) <==> IsHarmless(a) && IsHarmless(b)
  {
    assert a == [a, b][0] && b == [a, b][1];
  }

  lemma SettingNames1()
    ensures IsOtherName("DEBUG") && IsOtherName("EXPOSE_DOCS") && IsOtherName("TRUSTED_HOSTS")
    ensures IsOtherName("TRUSTED_PROXY_IPS")
  {
  }

  lemma SettingNames2()
    ensures IsOtherName("AUTH_ENFORCE_LOGIN_ORIGIN") && IsOtherName("AUTH_LOGIN_MAX_FAILURES")
  {
  }

  lemma SettingNames3()
    ensures IsOtherName("AUTH_RATE_LIMIT_WINDOW_SECONDS")
  {
  }

  lemma SettingNames4()
    ensures IsOtherName("ANALYTICS_ENABLED_DEFAULT") && IsOtherName("GOATCOUNTER_SITE_HOST")
  {
  }

  lemma FixedTexts()
    ensures HasNoBreak("true") && HasNoBreak("false") && HasNoBreak("5") && HasNoBreak("300")
  {
  }

  lemma AccessLinesAreHarmless(d: Deployment)
    ensures forall l <- AccessLines(d) :: IsHarmless(l)
  {
    SettingNames1();
    FixedTexts();
    PrintableHasNoBreak(ListToEnvJson(d.trustedHosts));
    PrintableHasNoBreak(ListToEnvJson(d.trustedProxyIps));
    OtherOneLine("DEBUG", "false");
    OtherOneLine("EXPOSE_DOCS", BoolText(d.exposeDocs));
    OtherOneLine("TRUSTED_HOSTS", ListToEnvJson(d.trustedHosts));
    OtherOneLine("TRUSTED_PROXY_IPS", ListToEnvJson(d.trustedProxyIps));
  }

  lemma ServiceLinesAreHarmless(d: Deployment)
    ensures forall l <- ServiceLines(d) :: IsHarmless(l)
  {
    LoginLinesAreHarmless();
    AnalyticsLinesAreHarmless(d.deployGoatcounter, d.goatcounterHost);
    FiveHold("AUTH_ENFORCE_LOGIN_ORIGIN" + "=" + "true", "AUTH_LOGIN_MAX_FAILURES" + "=" + "5",
             "AUTH_RATE_LIMIT_WINDOW_SECONDS" + "=" + "300",
             "ANALYTICS_ENABLED_DEFAULT" + "=" + BoolText(d.deployGoatcounter),
             "GOATCOUNTER_SITE_HOST" + "=" + QuoteEnvValue(d.goatcounterHost));
  }

  lemma FiveHold(a: string, b: string, c: string, d: string, e: string)
    requires IsHarmless(a) && IsHarmless(b) && IsHarmless(c) && IsHarmless(d) && IsHarmless(e)
    ensures forall l <- [a, b, c, d, e] :: IsHarmless(l)
  {
  }

  lemma LoginLinesAreHarmless()
    ensures IsHarmless("AUTH_ENFORCE_LOGIN_ORIGIN" + "=" + "true") && IsHarmless("AUTH_LOGIN_MAX_FAILURES" + "=" + "5")
    ensures IsHarmless("AUTH_RATE_LIMIT_WINDOW_SECONDS" + "=" + "300")
  {
    SettingNames2();
    SettingNames3();
    FixedTexts();
    OtherOneLine("AUTH_ENFORCE_LOGIN_ORIGIN", "true");
    OtherOneLine("AUTH_LOGIN_MAX_FAILURES", "5");
    OtherOneLine("AUTH_RATE_LIMIT_WINDOW_SECONDS", "300");
  }

  lemma AnalyticsLinesAreHarmless(enabled: bool, host: string)
    ensures IsHarmless("ANALYTICS_ENABLED_DEFAULT" + "=" + BoolText(enabled))
    ensures IsHarmless("GOATCOUNTER_SITE_HOST" + "=" + QuoteEnvValue(host))
  {
    SettingNames4();
    FixedTexts();
    PrintableHasNoBreak(QuoteEnvValue(host));
    OtherOneLine("ANALYTICS_ENABLED_DEFAULT", BoolText(enabled));
    OtherOneLine("GOATCOUNTER_SITE_HOST", QuoteEnvValue(host));
  }

  lemma SettingLinesAreHarmless(d: Deployment)
    ensures forall l <- SettingLines(d) :: IsHarmless(l)
  {
    AccessLinesAreHarmless(d);
    ServiceLinesAreHarmless(d);
    assert forall l <- SettingLines(d) :: l in AccessLines(d) || l in ServiceLines(d);
  }

  lemma BlueskyStart()
    ensures HasNoBreak(BLUESKY_START)
  {
    assert HasNoBreak(" BLUESKY_CLIENT_URL=");
    assert HasNoBreak("https://");
  }

  lemma DefaultDomain()
    ensures HasNoBreak("blog.example.com")
  {
  }

  lemma CommentLine(start: string, domain: string, note: string)
    requires HasNoBreak(start) && IsNote(note)
    ensures IsHarmless("#" + (start + (domain + note))) <==> LaterLinesAreHarmless(domain)
  {
    ConcatHasNoBreak("#", start);
    forall first: string ensures !NamesSecret("#" + start + first) {
      CommentIsIgnored(start + first);
      ConcatIsAssociative("#", start, first);
    }
    PrefixedLine("#" + start, domain + note);
    NoteKeepsLines(domain, note);
    ConcatIsAssociative("#", start, domain + note);
    IsHarmlessIff("#" + (start + (domain + note)));
  }

  lemma BlueskyLineIs(d: Deployment)
    ensures IsHarmless(BlueskyLine(d)) <==> d.caddyDomain.Some? ==> LaterLinesAreHarmless(d.caddyDomain.value)
  {
    BlueskyStart();
    Notes();
    if d.caddyDomain.Some? {
      CommentLine(BLUESKY_START, d.caddyDomain.value, BLUESKY_END);
    } else {
      DefaultDomain();
      OneLineIsHarmless("blog.example.com");
      CommentLine(BLUESKY_START, "blog.example.com", BLUESKY_END);
    }
  }

  lemma OptionalNames()
    ensures IsOtherName("MAX_CONTENT_SIZE") && IsOtherName("DISABLE_PASSWORD_CHANGE") && IsOtherName("AGBLOGGER_IMAGE")
  {
  }

  lemma OptionalLinesAre(d: Deployment)
    ensures (forall l <- OptionalLines(d) :: IsHarmless(l))
            <==> d.maxContentSize.Some? ==> LaterLinesAreHarmless(d.maxContentSize.value)
  {
    OptionalNames();
    FixedTexts();
    if d.maxContentSize.Some? {
      OtherLine("MAX_CONTENT_SIZE", d.maxContentSize.value);
      assert OptionalLines(d)[0] == "MAX_CONTENT_SIZE" + "=" + d.maxContentSize.value;
    }
    OtherOneLine("DISABLE_PASSWORD_CHANGE", "true");
    if d.imageRef.Some? {
      PrintableHasNoBreak(QuoteEnvValue(d.imageRef.value));
      OtherOneLine("AGBLOGGER_IMAGE", QuoteEnvValue(d.imageRef.value));
    }
  }

  /** The secrets come back exactly, whatever they are, if and only if no line after the first of
      a value that is written without quotes reads as an entry under the name of a secret. */
  lemma RecoversIff(d: Deployment)
    ensures (forall c :: Recovers(c, d)) <==> UnquotedAreHarmless(d)
  {
    var tail := TailLines(d);
    HostLinesAre(d);
    SettingLinesAreHarmless(d);
    BlueskyLineIs(d);
    OptionalLinesAre(d);
    TailIsHarmless(d);
    HarmlessLines(tail);
    AllAreHarmless(tail);
    NamedSecretsAreRead(SplitLines(Unlines(tail)));
    RecoversExactlyWhen(d);
  }

  lemma TailIsHarmless(d: Deployment)
    requires forall l <- SettingLines(d) :: IsHarmless(l)
    ensures (forall l <- TailLines(d) :: IsHarmless(l)) <==>
              && (forall l <- HostLines(d) :: IsHarmless(l)) && IsHarmless(BlueskyLine(d))
              && (forall l <- OptionalLines(d) :: IsHarmless(l))
  {
    assert forall l :: l in TailLines(d) <==>
                         l in HostLines(d) || l in SettingLines(d) || l == BlueskyLine(d) || l in OptionalLines(d);
  }

  // ----- One-line values, and one that is not

  /** The three values that are written without quotes hold no line break. */
  predicate UnquotedAreOneLine(d: Deployment) {
    && HasNoBreak(d.hostBindIp)
    && (d.caddyDomain.Some? ==> HasNoBreak(d.caddyDomain.value))
    && (d.maxContentSize.Some? ==> HasNoBreak(d.maxContentSize.value))
  }

  /** With one-line values the secrets come back exactly, whatever they are. */
  lemma OneLineValuesRecover(c: Secrets, d: Deployment)
    requires UnquotedAreOneLine(d)
    ensures Recovers(c, d)
  {
    OneLineIsHarmless(d.hostBindIp);
    if d.caddyDomain.Some? {
      OneLineIsHarmless(d.caddyDomain.value);
    }
    if d.maxContentSize.Some? {
      OneLineIsHarmless(d.maxContentSize.value);
    }
    RecoversIff(d);
  }

  /** A text whose second line assigns a secret's name. */
  lemma SecondLineNames(text: string)
    ensures !LaterLinesAreHarmless("1" + "\n" + ("SECRET_KEY" + "=" + text))
  {
    SecretNames();
    NameHasNoBreak("SECRET_KEY");
    AppendHasNoBreak("SECRET_KEY", "");
    assert "SECRET_KEY" + "=" + "" == "SECRET_KEY" + "=";
    var first, later := SplitAfterPrefix("SECRET_KEY" + "=", text);
    NameIsRead("SECRET_KEY", first);
    SecondLine("1", "SECRET_KEY" + "=", text, first, later);
  }

  lemma SecondLine(a: string, prefix: string, text: string, first: string, later: seq<string>)
    requires HasNoBreak(a) && SplitLines(prefix + (text + "\n")) == [prefix + first] + later
    requires NamesSecret(prefix + first)
    ensures !LaterLinesAreHarmless(a + "\n" + (prefix + text))
  {
    SplitFirst(a, prefix + (text + "\n"));
    ConcatIsAssociative(prefix, text, "\n");
    ConcatIsAssociative(a + "\n", prefix + text, "\n");
    assert ([a] + ([prefix + first] + later))[1] == prefix + first;
  }

  /** For every deployment, a size limit with a line break in it can assign a secret's name. */
  lemma BrokenSizeOverrides(d: Deployment, text: string)
    ensures !forall c :: Recovers(c, d.(maxContentSize := Some("1" + "\n" + ("SECRET_KEY" + "=" + text))))
  {
    SecondLineNames(text);
    RecoversIff(d.(maxContentSize := Some("1" + "\n" + ("SECRET_KEY" + "=" + text))));
  }
}
