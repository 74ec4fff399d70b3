/** The settings file (config_storage.go): what SaveConfigToEnv writes and LoadEnvFile reads back. */
module EnvFile {
  import opened Text
  import opened Wrappers

  datatype Config = Config(
    httpPort: int, turnPort: int, publicIP: string, topicID: string, duckDomain: string, duckToken: string,
    enableUPnP: bool, enableMDNS: bool, enableAutoUpdate: bool, username: string, password: string,
    realm: string, authSecret: string, adminPassword: string, allowWANDash: bool)

  datatype Entry = Entry(key: string, value: string)

  // ----------------------------------------------------------------- writing

  function FormatBool(b: bool): string {
    if b then "true" else "false"
  }

  function Entries(cfg: Config): (es: seq<Entry>)
    ensures |es| == 15
  {
    [ Entry("PORT", FormatInt(cfg.httpPort)),
      Entry("TURN_PORT", FormatInt(cfg.turnPort)),
      Entry("PUBLIC_IP", cfg.publicIP),
      Entry("TOPIC_ID", cfg.topicID),
      Entry("DUCKDNS_DOMAIN", cfg.duckDomain),
      Entry("DUCKDNS_TOKEN", cfg.duckToken),
      Entry("ENABLE_UPNP", FormatBool(cfg.enableUPnP)),
      Entry("ENABLE_MDNS", FormatBool(cfg.enableMDNS)),
      Entry("AUTO_UPDATE", FormatBool(cfg.enableAutoUpdate)),
      Entry("TURN_USER", cfg.username),
      Entry("TURN_PASS", cfg.password),
      Entry("TURN_REALM", cfg.realm),
      Entry("TURN_STATIC_AUTH_SECRET", cfg.authSecret),
      Entry("ADMIN_PASSWORD", cfg.adminPassword),
      Entry("ALLOW_WAN_DASHBOARD", FormatBool(cfg.allowWANDash)) ]
  }

  function Line(e: Entry): string {
    e.key + "=" + e.value
  }

  function Lines(es: seq<Entry>): (lines: seq<string>)
    ensures |lines| == |es|
  {
    seq(|es|, i requires 0 <= i < |es| => Line(es[i]))
  }

  const TITLE: string := "# Pingo Server " + "Environment Configuration"
  const ORIGIN: string := "# Generated automatically " + "by Setup Wizard / Dashboard"
  const HEADER: seq<string> := [TITLE, ORIGIN, ""]

  function Content(cfg: Config): string {
    Join(HEADER + Lines(Entries(cfg)) + [""], '\n')
  }

  /** The bytes written to disk: the rendered content, trimmed, with one final newline. */
  function FileText(cfg: Config): string {
    TrimSpace(Content(cfg)) + "\n"
  }

  // ----------------------------------------------------------------- reading

  type Env = map<string, string>

  function Getenv(env: Env, key: string): string {
    if key in env then env[key] else ""
  }

  /** os.Setenv: refuses an empty key, '=' or NUL in the key, NUL in the value. */
  function Setenv(env: Env, key: string, value: string): Env {
    if key == "" || '=' in key || '\0' in key || '\0' in value then env else env[key := value]
  }

  function ParseLine(raw: string): Option<Entry> {
    var line := TrimSpace(raw);
    if line == "" || line[0] == '#' then None
    else
      var i := IndexOf(line, '=');
      if i == |line| then None
      else Some(Entry(TrimSpace(line[..i]), Trim(TrimSpace(line[i + 1..]), IsQuote)))
  }

  function LoadLine(env: Env, raw: string): Env {
    match ParseLine(raw)
    case None => env
    case Some(e) => if Getenv(env, e.key) == "" then Setenv(env, e.key, e.value) else env
  }

  function LoadLines(env: Env, lines: seq<string>): Env {
    if lines == [] then env
    else LoadLine(LoadLines(env, lines[..|lines| - 1]), lines[|lines| - 1])
  }

  function Load(env: Env, text: string): Env {
    LoadLines(env, Split(text, '\n'))
  }

  /** The process environment that LoadEnvFile fills in place. */
  class Environment {
    var vars: Env

    constructor ()
      ensures vars == map[]
    {
      vars := map[];
    }

    /** `data` is the file's text, None when it cannot be read. */
    method LoadEnvFile(data: Option<string>)
      modifies this
      ensures vars == if data.Some? then Load(old(vars), data.value) else old(vars)
    {
      if data.None? {
        return;
      }
      var lines := Split(data.value, '\n');
      for n := 0 to |lines|
        invariant vars == LoadLines(old(vars), lines[..n])
      {
        assert lines[..n + 1][..n] == lines[..n];
        LoadOne(lines[n]);
      }
      assert lines[..|lines|] == lines;
    }

    /** The body of the loop. */
    method LoadOne(raw: string)
      modifies this
      ensures vars == LoadLine(old(vars), raw)
    {
      var line := TrimSpace(raw);
      if line == "" || line[0] == '#' {
        return;
      }
      var i := IndexOf(line, '=');
      if i < |line| {
        var k := TrimSpace(line[..i]);
        var v := TrimSpace(line[i + 1..]);
        v := Trim(v, IsQuote);
        if Getenv(vars, k) == "" {
          vars := Setenv(vars, k, v);
        }
      }
    }
  }

  // ------------------------------------------------------------- round trip

  /** A key as the writer uses it: LoadEnvFile cannot mistake or change it. */
  predicate PlainKey(key: string) {
    && key != "" && key[0] != '#' && CleanEnds(key, IsSpace)
    && '=' !in key && '\0' !in key && '\n' !in key
  }

  /** A value that survives the file: one line, no NUL, no outer white space or quotes. */
  predicate PlainValue(value: string) {
    && '\n' !in value && '\0' !in value
    && CleanEnds(value, IsSpace) && CleanEnds(value, IsQuote)
  }

  /** The value LoadEnvFile extracts from a line written for `value`. */
  function ReadBack(value: string): string {
    Trim(TrimSpace(TrimRight(value, IsSpace)), IsQuote)
  }

  lemma ReadBackFixpoint(value: string)
    ensures ReadBack(value) == value <==> CleanEnds(value, IsSpace) && CleanEnds(value, IsQuote)
  {
    var right := TrimRightSplits(value, IsSpace);
    var t := TrimRight(value, IsSpace);
    var l1, r1 := TrimSplits(t, IsSpace);
    var l2, r2 := TrimSplits(TrimSpace(t), IsQuote);
    TrimFixpoint(t, IsSpace);
    TrimFixpoint(value, IsSpace);
    TrimFixpoint(value, IsQuote);
  }

  lemma ParseWrittenLine(e: Entry)
    requires PlainKey(e.key)
    ensures ParseLine(Line(e)) == Some(Entry(e.key, ReadBack(e.value)))
  {
    var p := e.key + "=";
    assert Line(e) == p + e.value;
    TrimKeepsPrefix(p, e.value, IsSpace);
    var t := TrimRight(e.value, IsSpace);
    var line := TrimSpace(Line(e));
    assert line == e.key + ['='] + t;
    IndexOfPrefix(e.key, t, '=');
    assert line[..|e.key|] == e.key && line[|e.key| + 1..] == t;
    TrimFixpoint(e.key, IsSpace);
    assert line[0] == e.key[0];
  }

  lemma {:induction false} LoadAppend(env: Env, a: seq<string>, b: seq<string>)
    ensures LoadLines(env, a + b) == LoadLines(LoadLines(env, a), b)
    decreases |b|
  {
    if b == [] {
      assert a + b == a;
    } else {
      assert (a + b)[..|a + b| - 1] == a + b[..|b| - 1];
      LoadAppend(env, a, b[..|b| - 1]);
    }
  }

  ghost predicate DistinctKeys(es: seq<Entry>) {
    forall i, j :: 0 <= i < j < |es| ==> es[i].key != es[j].key
  }

  ghost predicate PlainKeys(es: seq<Entry>) {
    forall i :: 0 <= i < |es| ==> PlainKey(es[i].key)
  }

  /** What a variable holds after a line for it has been loaded: a variable already set wins,
      and a value the environment refuses leaves it unset. */
  function Settled(held: string, written: string): string {
    if held == "" && '\0' !in ReadBack(written) then ReadBack(written) else held
  }

  lemma LoadWrittenLine(env: Env, e: Entry, k: string)
    requires PlainKey(e.key)
    ensures Getenv(LoadLine(env, Line(e)), k) ==
              if k == e.key then Settled(Getenv(env, k), e.value) else Getenv(env, k)
  {
    ParseWrittenLine(e);
  }

  lemma {:induction false} LoadUnwritten(env: Env, es: seq<Entry>, k: string)
    requires PlainKeys(es) && forall i :: 0 <= i < |es| ==> es[i].key != k
    ensures Getenv(LoadLines(env, Lines(es)), k) == Getenv(env, k)
  {
    if es != [] {
      var n := |es| - 1;
      LoadUnwritten(env, es[..n], k);
      assert Lines(es)[..n] == Lines(es[..n]);
      LoadWrittenLine(LoadLines(env, Lines(es[..n])), es[n], k);
    }
  }

  lemma {:induction false} LoadWritten(env: Env, es: seq<Entry>, i: nat)
    requires PlainKeys(es) && DistinctKeys(es) && i < |es|
    ensures Getenv(LoadLines(env, Lines(es)), es[i].key) == Settled(Getenv(env, es[i].key), es[i].value)
  {
    var n := |es| - 1;
    assert Lines(es)[..n] == Lines(es[..n]);
    if i < n {
      LoadWritten(env, es[..n], i);
    } else {
      LoadUnwritten(env, es[..n], es[n].key);
    }
    LoadWrittenLine(LoadLines(env, Lines(es[..n])), es[n], es[i].key);
  }

  /** A fingerprint that tells the fifteen keys apart. */
  function Tag(key: string): (int, char) {
    (|key|, if |key| > 7 then key[7] else ' ')
  }

  /** How the fifteen keys are spelt; the lower bound '?' leaves out '#', '=', NUL and white space. */
  predicate KeyChars(key: string) {
    key != "" && forall i :: 0 <= i < |key| ==> '?' < key[i] < '\U{7F}'
  }

  lemma KeyCharsArePlain(key: string)
    requires KeyChars(key)
    ensures PlainKey(key)
  {}

  lemma Spelling1()
    ensures KeyChars("PORT") && KeyChars("TURN_PORT") && KeyChars("PUBLIC_IP") && KeyChars("TOPIC_ID")
    ensures KeyChars("DUCKDNS_DOMAIN") && KeyChars("DUCKDNS_TOKEN")
  {}

  lemma Spelling2()
    ensures KeyChars("ENABLE_UPNP") && KeyChars("ENABLE_MDNS") && KeyChars("AUTO_UPDATE")
    ensures KeyChars("TURN_USER") && KeyChars("TURN_PASS") && KeyChars("TURN_REALM")
  {}

  lemma Spelling3()
    ensures KeyChars("TURN_STATIC_AUTH_SECRET") && KeyChars("ADMIN_PASSWORD") && KeyChars("ALLOW_WAN_DASHBOARD")
  {}

  lemma EntriesPlain(cfg: Config)
    ensures PlainKeys(Entries(cfg))
  {
    Spelling1();
    Spelling2();
    Spelling3();
    forall i | 0 <= i < 15
      ensures PlainKey(Entries(cfg)[i].key)
    {
      assert KeyChars(Entries(cfg)[i].key);
      KeyCharsArePlain(Entries(cfg)[i].key);
    }
  }

  lemma EntriesDistinct(cfg: Config)
    ensures DistinctKeys(Entries(cfg))
  {
    var es := Entries(cfg);
    assert forall i, j :: 0 <= i < j < |es| ==> Tag(es[i].key) != Tag(es[j].key);
  }

  // --------------------------------------------------- the file as a whole

  lemma {:induction false} JoinSnoc(parts: seq<string>, last: string, sep: char)
    requires |parts| > 0
    ensures Join(parts + [last], sep) == Join(parts, sep) + [sep] + last
  {
    var all := parts + [last];
    if |parts| == 1 {
      assert all[1..] == [last];
    } else {
      JoinSnoc(parts[1..], last, sep);
      assert all[1..] == parts[1..] + [last];
    }
  }

  function Body(cfg: Config): seq<string> {
    HEADER + Lines(Entries(cfg))
  }

  /** Trimming the rendered content and adding a newline changes nothing. */
  lemma FileTextIsContent(cfg: Config)
    ensures FileText(cfg) == Content(cfg) == Join(Body(cfg) + [""], '\n')
  {
    var body := Body(cfg);
    var n := |body| - 1;
    var flag := FormatBool(cfg.allowWANDash);
    var text := Join(body, '\n');
    assert body[n] == Line(Entries(cfg)[14]) == "ALLOW_WAN_DASHBOARD" + "=" + flag;
    assert body == body[..n] + [body[n]];
    JoinSnoc(body[..n], body[n], '\n');
    JoinSnoc(body, "", '\n');
    assert text[|text| - 1] == 'e';
    assert body[0] == HEADER[0] && text[0] == '#';
    assert Content(cfg) == text + "\n";
    TrimKeepsPrefix(text, "\n", IsSpace);
    assert TrimRight("\n", IsSpace) == TrimRight("", IsSpace) == "";
  }

  ghost predicate OneLineValues(cfg: Config) {
    forall i :: 0 <= i < 15 ==> '\n' !in Entries(cfg)[i].value
  }

  predicate CommentLine(line: string) {
    && (forall i :: 0 <= i < |line| ==> line[i] >= ' ')
    && CleanEnds(line, IsSpace) && (line == "" || line[0] == '#')
  }

  predicate Printable(s: string) {
    forall i :: 0 <= i < |s| ==> s[i] >= ' '
  }

  lemma CommentLineOfHalves(left: string, right: string)
    requires Printable(left) && Printable(right) && left != "" && left[0] == '#'
    requires right != "" && !IsSpace(right[|right| - 1])
    ensures CommentLine(left + right)
  {}

  lemma TitleIsComment()
    ensures CommentLine(TITLE)
  {
    CommentLineOfHalves("# Pingo Server ", "Environment Configuration");
  }

  lemma OriginIsComment()
    ensures CommentLine(ORIGIN)
  {
    CommentLineOfHalves("# Generated automatically ", "by Setup Wizard / Dashboard");
  }

  lemma WrittenLines(cfg: Config)
    requires OneLineValues(cfg)
    ensures Split(FileText(cfg), '\n') == Body(cfg) + [""]
  {
    FileTextIsContent(cfg);
    EntriesPlain(cfg);
    TitleIsComment();
    OriginIsComment();
    var parts := Body(cfg) + [""];
    forall i | 0 <= i < |parts|
      ensures '\n' !in parts[i]
    {
      if i < 3 {
        assert CommentLine(parts[i]);
      } else if i < 18 {
        assert parts[i] == Line(Entries(cfg)[i - 3]);
      }
    }
    SplitJoin(parts, '\n');
  }

  lemma {:induction false} CommentsAreSkipped(env: Env, lines: seq<string>)
    requires forall i :: 0 <= i < |lines| ==> CommentLine(lines[i])
    ensures LoadLines(env, lines) == env
  {
    if lines != [] {
      var n := |lines| - 1;
      CommentsAreSkipped(env, lines[..n]);
      TrimFixpoint(lines[n], IsSpace);
    }
  }

  lemma LoadAmongComments(env: Env, before: seq<string>, lines: seq<string>, after: seq<string>)
    requires forall i :: 0 <= i < |before| ==> CommentLine(before[i])
    requires forall i :: 0 <= i < |after| ==> CommentLine(after[i])
    ensures LoadLines(env, before + lines + after) == LoadLines(env, lines)
  {
    LoadAppend(env, before + lines, after);
    LoadAppend(env, before, lines);
    CommentsAreSkipped(env, before);
    CommentsAreSkipped(LoadLines(env, lines), after);
  }

  /** Loading a saved file: each of the fifteen variables, in any starting environment. */
  lemma LoadSavedFile(env: Env, cfg: Config, i: nat)
    requires OneLineValues(cfg) && i < 15
    ensures var e := Entries(cfg)[i];
            Getenv(Load(env, FileText(cfg)), e.key) == Settled(Getenv(env, e.key), e.value)
  {
    WrittenLines(cfg);
    TitleIsComment();
    OriginIsComment();
    LoadAmongComments(env, HEADER, Lines(Entries(cfg)), [""]);
    EntriesPlain(cfg);
    EntriesDistinct(cfg);
    LoadWritten(env, Entries(cfg), i);
  }

  ghost predicate OneLineEnv(env: Env) {
    forall k :: k in env ==> '\n' !in env[k]
  }

  lemma SubstringHasNone(s: string, left: string, t: string, right: string, c: char)
    requires s == left + t + right && c !in s
    ensures c !in t
  {
    assert forall i :: 0 <= i < |t| ==> t[i] == s[|left| + i];
  }

  lemma TrimHasNone(s: string, cut: char -> bool, c: char)
    requires c !in s
    ensures c !in Trim(s, cut)
  {
    var left, right := TrimSplits(s, cut);
    SubstringHasNone(s, left, Trim(s, cut), right, c);
  }

  lemma {:induction false} LoadedStaysOneLine(env: Env, lines: seq<string>)
    requires OneLineEnv(env) && forall i :: 0 <= i < |lines| ==> '\n' !in lines[i]
    ensures OneLineEnv(LoadLines(env, lines))
  {
    if lines != [] {
      var n := |lines| - 1;
      LoadedStaysOneLine(env, lines[..n]);
      var line := TrimSpace(lines[n]);
      TrimHasNone(lines[n], IsSpace, '\n');
      var i := IndexOf(line, '=');
      if i < |line| {
        TrimHasNone(line[i + 1..], IsSpace, '\n');
        TrimHasNone(TrimSpace(line[i + 1..]), IsQuote, '\n');
      }
    }
  }

  /** The environment holds entry number `i` as it was rendered. */
  predicate Kept(cfg: Config, env: Env, i: nat)
    requires i < 15
  {
    Getenv(env, Entries(cfg)[i].key) == Entries(cfg)[i].value
  }

  function Flag(b: bool): string {
    if b then "true" else "false"
  }

  /** Every setting stands under its own name: numbers in decimal, flags as words, text as it is. */
  predicate Holds(cfg: Config, env: Env) {
    HoldsAddresses(cfg, env) && HoldsFlags(cfg, env) && HoldsSecrets(cfg, env)
  }

  predicate HoldsAddresses(cfg: Config, env: Env) {
    && Getenv(env, "PORT") == FormatInt(cfg.httpPort)
    && Getenv(env, "TURN_PORT") == FormatInt(cfg.turnPort)
    && Getenv(env, "PUBLIC_IP") == cfg.publicIP
    && Getenv(env, "TOPIC_ID") == cfg.topicID
    && Getenv(env, "DUCKDNS_DOMAIN") == cfg.duckDomain
    && Getenv(env, "DUCKDNS_TOKEN") == cfg.duckToken
  }

  predicate HoldsFlags(cfg: Config, env: Env) {
    && Getenv(env, "ENABLE_UPNP") == Flag(cfg.enableUPnP)
    && Getenv(env, "ENABLE_MDNS") == Flag(cfg.enableMDNS)
    && Getenv(env, "AUTO_UPDATE") == Flag(cfg.enableAutoUpdate)
    && Getenv(env, "ALLOW_WAN_DASHBOARD") == Flag(cfg.allowWANDash)
  }

  predicate HoldsSecrets(cfg: Config, env: Env) {
    && Getenv(env, "TURN_USER") == cfg.username
    && Getenv(env, "TURN_PASS") == cfg.password
    && Getenv(env, "TURN_REALM") == cfg.realm
    && Getenv(env, "TURN_STATIC_AUTH_SECRET") == cfg.authSecret
    && Getenv(env, "ADMIN_PASSWORD") == cfg.adminPassword
  }

  /** Every setting reads back from the saved file. */
  predicate RoundTrips(cfg: Config) {
    Holds(cfg, Load(map[], FileText(cfg)))
  }

  lemma AddressesAreEntries(cfg: Config, env: Env)
    ensures HoldsAddresses(cfg, env) == forall i :: 0 <= i < 6 ==> Kept(cfg, env, i)
  {
    assert HoldsAddresses(cfg, env)
        == (&& Kept(cfg, env, 0) && Kept(cfg, env, 1) && Kept(cfg, env, 2) && Kept(cfg, env, 3)
            && Kept(cfg, env, 4) && Kept(cfg, env, 5));
  }

  lemma FlagsAreEntries(cfg: Config, env: Env)
    ensures HoldsFlags(cfg, env) == ((forall i :: 6 <= i < 9 ==> Kept(cfg, env, i)) && Kept(cfg, env, 14))
  {
    assert HoldsFlags(cfg, env)
        == (Kept(cfg, env, 6) && Kept(cfg, env, 7) && Kept(cfg, env, 8) && Kept(cfg, env, 14));
  }

  lemma SecretsAreEntries(cfg: Config, env: Env)
    ensures HoldsSecrets(cfg, env) == forall i :: 9 <= i < 14 ==> Kept(cfg, env, i)
  {
    assert HoldsSecrets(cfg, env)
        == (&& Kept(cfg, env, 9) && Kept(cfg, env, 10) && Kept(cfg, env, 11) && Kept(cfg, env, 12)
            && Kept(cfg, env, 13));
  }

  lemma FieldsAreEntries(cfg: Config, env: Env)
    ensures Holds(cfg, env) == forall i :: 0 <= i < 15 ==> Kept(cfg, env, i)
  {
    AddressesAreEntries(cfg, env);
    FlagsAreEntries(cfg, env);
    SecretsAreEntries(cfg, env);
  }

  ghost predicate PlainConfig(cfg: Config) {
    && PlainValue(cfg.publicIP) && PlainValue(cfg.topicID) && PlainValue(cfg.duckDomain)
    && PlainValue(cfg.duckToken) && PlainValue(cfg.username) && PlainValue(cfg.password)
    && PlainValue(cfg.realm) && PlainValue(cfg.authSecret) && PlainValue(cfg.adminPassword)
  }

  lemma NumbersAndFlagsArePlain(n: int, b: bool)
    ensures PlainValue(FormatInt(n)) && PlainValue(FormatBool(b))
  {}

  lemma PlainRendering(cfg: Config)
    ensures PlainConfig(cfg) <==> forall i :: 0 <= i < 15 ==> PlainValue(Entries(cfg)[i].value)
  {
    var es := Entries(cfg);
    NumbersAndFlagsArePlain(cfg.httpPort, cfg.enableUPnP);
    NumbersAndFlagsArePlain(cfg.turnPort, cfg.enableMDNS);
    NumbersAndFlagsArePlain(cfg.turnPort, cfg.enableAutoUpdate);
    NumbersAndFlagsArePlain(cfg.turnPort, cfg.allowWANDash);
    assert [es[2].value, es[3].value, es[4].value, es[5].value, es[9].value, es[10].value, es[11].value,
            es[12].value, es[13].value]
        == [cfg.publicIP, cfg.topicID, cfg.duckDomain, cfg.duckToken, cfg.username, cfg.password, cfg.realm,
            cfg.authSecret, cfg.adminPassword];
    PlainSplit(es);
  }

  lemma PlainSplit(es: seq<Entry>)
    requires |es| == 15
    requires PlainValue(es[0].value) && PlainValue(es[1].value) && PlainValue(es[6].value)
    requires PlainValue(es[7].value) && PlainValue(es[8].value) && PlainValue(es[14].value)
    ensures (forall i :: 0 <= i < 15 ==> PlainValue(es[i].value))
       <==> PlainValue(es[2].value) && PlainValue(es[3].value) && PlainValue(es[4].value)
            && PlainValue(es[5].value) && PlainValue(es[9].value) && PlainValue(es[10].value)
            && PlainValue(es[11].value) && PlainValue(es[12].value) && PlainValue(es[13].value)
  {}

  lemma KeptLineByLine(cfg: Config)
    requires forall i :: 0 <= i < 15 ==> Kept(cfg, Load(map[], FileText(cfg)), i)
    ensures OneLineValues(cfg)
  {
    JoinSplit(FileText(cfg), '\n');
    LoadedStaysOneLine(map[], Split(FileText(cfg), '\n'));
    forall i | 0 <= i < 15
      ensures '\n' !in Entries(cfg)[i].value
    {
      assert Kept(cfg, Load(map[], FileText(cfg)), i);
    }
  }

  /** The file undoes itself for exactly the plain configurations, '=' in a value included. */
  lemma EnvRoundTrip(cfg: Config)
    ensures RoundTrips(cfg) <==> PlainConfig(cfg)
  {
    var es := Entries(cfg);
    PlainRendering(cfg);
    FieldsAreEntries(cfg, Load(map[], FileText(cfg)));
    if RoundTrips(cfg) {
      KeptLineByLine(cfg);
    }
    if OneLineValues(cfg) {
      forall i | 0 <= i < 15
        ensures Kept(cfg, Load(map[], FileText(cfg)), i) <==> PlainValue(es[i].value)
      {
        LoadSavedFile(map[], cfg, i);
        ReadBackFixpoint(es[i].value);
      }
    }
  }

  // ------------------------------------------------------ any file at all

  lemma ParsedParts(line: string, k: string, pad: string, v: string)
    requires line == k + pad + "=" + v && CleanEnds(k, IsSpace) && AllCut(pad, IsSpace) && (k == "" ==> pad == "")
    requires '=' !in k && '=' !in pad
    ensures IndexOf(line, '=') == |k + pad| && line[|k + pad| + 1..] == v
    ensures TrimSpace(line[..|k + pad|]) == k
  {
    IndexOfPrefix(k + pad, v, '=');
    assert line == (k + pad) + ['='] + v;
    assert line[..|k + pad|] == "" + k + pad;
    TrimUnique("", k, pad, IsSpace);
  }

  lemma TrimAroundEquals(a: string, b: string, left: string, k: string, pad: string)
    requires a == left + k + pad && AllCut(left, IsSpace) && AllCut(pad, IsSpace) && CleanEnds(k, IsSpace)
    requires k == "" ==> pad == ""
    ensures TrimSpace(a + "=" + b) == k + pad + "=" + TrimRight(b, IsSpace)
  {
    var right := TrimRightSplits(b, IsSpace);
    assert a == left + (k + pad);
    var v := TrimRight(b, IsSpace);
    AroundEquals(k + pad, v);
    assert k != "" ==> (k + pad)[0] == k[0];
    Regroup(left, k + pad, v, right);
    TrimUnique(left, k + pad + "=" + v, right, IsSpace);
  }

  lemma AroundEquals(x: string, v: string)
    requires (x == "" || !IsSpace(x[0])) && (v == "" || !IsSpace(v[|v| - 1]))
    ensures CleanEnds(x + "=" + v, IsSpace)
  {
    var t := x + "=" + v;
    assert t[0] == if x == "" then '=' else x[0];
    assert t[|t| - 1] == if v == "" then '=' else v[|v| - 1];
  }

  lemma Regroup(left: string, x: string, v: string, right: string)
    ensures left + x + "=" + (v + right) == left + (x + "=" + v) + right
  {
  }

  lemma TrimTwice(b: string)
    ensures TrimSpace(TrimRight(b, IsSpace)) == TrimSpace(b)
  {
    var right := TrimRightSplits(b, IsSpace);
    var v := TrimRight(b, IsSpace);
    var l, r := TrimSplits(v, IsSpace);
    var t := TrimSpace(v);
    assert b == l + t + (r + right);
    TrimUnique(l, t, r + right, IsSpace);
  }

  /** How any line with '=' is read: up to the first one the name, after it the value, both trimmed and the
      value without quotes at its ends; unless the line is a comment. */
  lemma ParseAnyLine(a: string, b: string)
    requires '=' !in a
    ensures var k := TrimSpace(a);
            ParseLine(a + "=" + b) ==
              if k != "" && k[0] == '#' then None
              else Some(Entry(k, Trim(TrimSpace(b), IsQuote)))
  {
    var left, pad := TrimSplits(a, IsSpace);
    var k := TrimSpace(a);
    if k == "" {
      left, pad := left + pad, "";
      assert a == left + k + pad;
    }
    TrimAroundEquals(a, b, left, k, pad);
    TrimTwice(b);
    ParsedParts(TrimSpace(a + "=" + b), k, pad, TrimRight(b, IsSpace));
  }

  /** A line without '=' sets nothing. */
  lemma ParseNoEquals(raw: string)
    requires '=' !in raw
    ensures ParseLine(raw) == None
  {
    TrimHasNone(raw, IsSpace, '=');
  }

  /** The value a line offers for `key`, or nothing. */
  function Offer(raw: string, key: string): string {
    match ParseLine(raw)
    case None => ""
    case Some(e) => if e.key == key && '\0' !in e.value then e.value else ""
  }

  /** The first value that is not empty. */
  function FirstOffer(lines: seq<string>, key: string): string {
    if lines == [] then ""
    else
      var before := FirstOffer(lines[..|lines| - 1], key);
      if before != "" then before else Offer(lines[|lines| - 1], key)
  }

  /** Loading any file: a variable that is set stays, any other takes the first value that is not empty. */
  lemma {:induction false} LoadAnyFile(env: Env, lines: seq<string>, key: string)
    requires key != "" && '=' !in key && '\0' !in key
    ensures Getenv(LoadLines(env, lines), key) ==
              if Getenv(env, key) != "" then Getenv(env, key) else FirstOffer(lines, key)
  {
    if lines != [] {
      LoadAnyFile(env, lines[..|lines| - 1], key);
    }
  }
}
