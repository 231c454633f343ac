/**
 * `ConfigUtils`: reads `server.conf` as `KEY=VALUE` lines, fills in defaults
 * for missing or empty settings, and caches the result in a static field.
 */
module ConfigUtils {
  import opened Wrappers
  import opened JsText

  /** The `Record<string, string>` that `parseConfigFile` builds. */
  type Settings = map<string, string>

  /**
   * What one line contributes: after trimming, blank lines and `#` comments
   * contribute nothing; otherwise the `KEY=VALUE` split of the trimmed line.
   */
  function LineEntry(line: string): Option<(string, string)> {
    var trimmed := Trim(line);
    if trimmed == [] || StartsWith(trimmed, "#") then None else KeyValue(trimmed)
  }

  /**
   * The trimmed text on either side of the first `=`; nothing when there is
   * no `=` or when it is the first character.
   */
  function KeyValue(trimmed: string): Option<(string, string)> {
    var equalIndex := IndexOf(trimmed, '=');
    if equalIndex > 0 then Some((Trim(trimmed[..equalIndex]), Trim(trimmed[equalIndex + 1..]))) else None
  }

  /** The entry sets `key`. */
  predicate Sets(entry: Option<(string, string)>, key: string) {
    entry.Some? && entry.value.0 == key
  }

  /** The line sets `key`. */
  predicate Defines(line: string, key: string) {
    Sets(LineEntry(line), key)
  }

  /** The settings after applying `entries` in order, a later key overwriting an earlier one. */
  function Assign(entries: seq<Option<(string, string)>>): Settings {
    if entries == [] then map[]
    else
      var config := Assign(entries[..|entries| - 1]);
      match entries[|entries| - 1]
      case None => config
      case Some((key, value)) => config[key := value]
  }

  function LineEntries(lines: seq<string>): (r: seq<Option<(string, string)>>)
    ensures |r| == |lines| && forall i :: 0 <= i < |lines| ==> r[i] == LineEntry(lines[i])
  {
    seq(|lines|, i requires 0 <= i < |lines| => LineEntry(lines[i]))
  }

  /** What `parseConfigFile` returns for the text of the file. */
  function ParseConfig(content: string): Settings {
    Assign(LineEntries(Split(content, '\n')))
  }

  /** `parseConfigFile`: the loop over the lines of the file, writing into `config`. */
  method ParseConfigFile(content: string) returns (config: Settings)
    ensures config == ParseConfig(content)
  {
    var lines := Split(content, '\n');
    ghost var entries := LineEntries(lines);
    config := map[];
    for i := 0 to |lines|
      invariant config == Assign(entries[..i])
    {
      assert entries[..i + 1][..i] == entries[..i];
      assert entries[i] == LineEntry(lines[i]);
      var trimmedLine := Trim(lines[i]);
      if trimmedLine == [] || StartsWith(trimmedLine, "#") {
        continue;
      }
      var equalIndex := IndexOf(trimmedLine, '=');
      if equalIndex > 0 {
        var key := Trim(trimmedLine[..equalIndex]);
        var value := Trim(trimmedLine[equalIndex + 1..]);
        config := config[key := value];
      }
    }
    assert entries[..|lines|] == entries;
  }

  /** Blank lines and lines that are `#` comments once trimmed contribute nothing. */
  lemma BlankOrCommentIgnored(line: string)
    requires Trim(line) == [] || Trim(line)[0] == '#'
    ensures LineEntry(line).None?
  {
    StartsWithChar(Trim(line), '#');
  }

  /** A line without `=`, or whose trimmed text starts with `=`, sets nothing. */
  lemma NoKeyIgnored(line: string)
    requires '=' !in Trim(line) || (Trim(line) != [] && Trim(line)[0] == '=')
    ensures LineEntry(line).None?
  {
    var t := Trim(line);
    IndexOfFinds(t, '=');
    if t != [] {
      StartsWithChar(t, '#');
    }
  }

  /** Text with no `=` before the separator splits at that separator. */
  lemma KeyValueOfJoined(a: string, b: string)
    requires a != [] && '=' !in a
    ensures KeyValue(a + "=" + b) == Some((Trim(a), Trim(b)))
  {
    var t := a + "=" + b;
    IndexOfAfterPrefix(a, '=', b);
    assert t[..|a|] == a;
    assert t[|a| + 1..] == b;
  }

  /** Trimming `k=v` removes the margins of `k` on the left and of `v` on the right. */
  lemma TrimOfAssignment(k: string, v: string) returns (c: nat, e: nat)
    requires !AllWhitespace(k)
    ensures c < |k| && e <= |v|
    ensures WhitespaceBetween(k, 0, c) && !IsWhitespace(k[c]) && WhitespaceBetween(v, e, |v|)
    ensures Trim(k + "=" + v) == k[c..] + "=" + v[..e]
  {
    var s := k + "=" + v;
    var d;
    c, d := TrimCore(k);
    if AllWhitespace(v) {
      e := 0;
    } else {
      var c2;
      c2, e := TrimCore(v);
    }
    var end := |k| + 1 + e;
    assert WhitespaceBetween(s, 0, c) by {
      forall i | 0 <= i < c ensures IsWhitespace(s[i]) {
        assert s[i] == k[i];
      }
    }
    assert WhitespaceBetween(s, end, |s|) by {
      forall i | end <= i < |s| ensures IsWhitespace(s[i]) {
        assert s[i] == v[i - |k| - 1];
      }
    }
    assert s[c] == k[c];
    assert !IsWhitespace(s[end - 1]) by {
      if e == 0 {
        assert s[end - 1] == '=';
      } else {
        assert s[end - 1] == v[e - 1];
      }
    }
    TrimIsCore(s, c, end);
    SliceAcrossSeparator(k, '=', v, c, e);
  }

  lemma SliceAcrossSeparator(a: string, sep: char, b: string, i: nat, j: nat)
    requires i <= |a| && j <= |b|
    ensures (a + [sep] + b)[i..|a| + 1 + j] == a[i..] + [sep] + b[..j]
  {
    var l := (a + [sep] + b)[i..|a| + 1 + j];
    var r := a[i..] + [sep] + b[..j];
    assert |l| == |r|;
    forall n | 0 <= n < |l|
      ensures l[n] == r[n]
    {
      if n < |a| - i {
        assert l[n] == a[i + n];
      } else if n > |a| - i {
        assert l[n] == b[n - (|a| - i) - 1];
      }
    }
  }

  /**
   * A line `k=v` whose `k` holds no `=`, is not blank and does not start a
   * comment sets the trimmed `k` to the trimmed `v`; `v` may itself contain `=`.
   */
  lemma LineEntryOfAssignment(k: string, v: string)
    requires '=' !in k && Trim(k) != [] && Trim(k)[0] != '#'
    ensures LineEntry(k + "=" + v) == Some((Trim(k), Trim(v)))
  {
    TrimEmpty(k);
    var c, e := TrimOfAssignment(k, v);
    AssignmentParts(k, v, c, e);
    LineEntryOfTrimmed(k + "=" + v, k[c..] + "=" + v[..e]);
  }

  /** The untrimmed parts of `k=v` between the outer margins split back into the trimmed `k` and `v`. */
  lemma AssignmentParts(k: string, v: string, c: nat, e: nat)
    requires '=' !in k && Trim(k) != [] && Trim(k)[0] != '#'
    requires c < |k| && e <= |v|
    requires WhitespaceBetween(k, 0, c) && !IsWhitespace(k[c]) && WhitespaceBetween(v, e, |v|)
    ensures k[c..][0] != '#'
    ensures KeyValue(k[c..] + "=" + v[..e]) == Some((Trim(k), Trim(v)))
  {
    var key, w := k[c..], v[..e];
    assert key[0] != '#' by {
      TrimEmpty(k);
      var a, b := TrimCore(k);
      LeadingMarginUnique(k, a, c);
    }
    assert '=' !in key by {
      forall j | 0 <= j < |key| ensures key[j] != '=' {
        assert key[j] == k[c + j];
      }
    }
    KeyValueOfJoined(key, w);
    assert Trim(key) == Trim(k) by {
      TrimDropsMargin(k, c, |k|);
      assert k[c..|k|] == key;
    }
    assert Trim(w) == Trim(v) by {
      TrimDropsMargin(v, 0, e);
      assert v[0..e] == w;
    }
  }

  /** A line whose trimmed text is neither blank nor a comment is split at its first `=`. */
  lemma LineEntryOfTrimmed(line: string, t: string)
    requires Trim(line) == t && t != [] && t[0] != '#'
    ensures LineEntry(line) == KeyValue(t)
  {
    StartsWithChar(t, '#');
  }

  /**
   * A line whose first non-blank character is at `c` and whose first `=` after
   * it is `eq` characters further is `k=v`, where `k` holds no `=` and, trimmed,
   * starts with that character.
   */
  lemma SplitAtFirstEquals(line: string, c: nat, eq: nat) returns (k: string, v: string)
    requires 0 < eq && c + eq < |line| && line[c + eq] == '='
    requires WhitespaceBetween(line, 0, c) && !IsWhitespace(line[c])
    requires forall j :: c <= j < c + eq ==> line[j] != '='
    ensures line == k + "=" + v && '=' !in k
    ensures Trim(k) != [] && Trim(k)[0] == line[c]
  {
    k, v := line[..c + eq], line[c + eq + 1..];
    forall j | 0 <= j < |k| ensures k[j] != '=' {
      if j >= c {
        assert k[j] == line[j];
      } else {
        assert IsWhitespace(line[j]);
      }
    }
    assert WhitespaceBetween(k, 0, c) by {
      forall j | 0 <= j < c ensures IsWhitespace(k[j]) {
        assert k[j] == line[j];
      }
    }
    assert k[c] == line[c];
    var c', d' := TrimCore(k);
    LeadingMarginUnique(k, c, c');
  }

  /** The leading whitespace of a text ends at its first non-whitespace character. */
  lemma LeadingMarginUnique(s: string, a: nat, b: nat)
    requires a < |s| && b < |s|
    requires WhitespaceBetween(s, 0, a) && !IsWhitespace(s[a])
    requires WhitespaceBetween(s, 0, b) && !IsWhitespace(s[b])
    ensures a == b
  {
  }

  /** The first `=` of a slice, as a position in the whole text. */
  lemma FirstEqualsOfSlice(s: string, c: nat, d: nat, eq: nat)
    requires c <= d <= |s| && eq < d - c
    requires s[c..d][eq] == '=' && forall j :: 0 <= j < eq ==> s[c..d][j] != '='
    ensures s[c + eq] == '=' && forall j :: c <= j < c + eq ==> s[j] != '='
  {
    forall j | c <= j < c + eq ensures s[j] != '=' {
      assert s[j] == s[c..d][j - c];
    }
  }

  /** Every line that sets a key has the shape that `LineEntryOfAssignment` describes. */
  lemma LineEntryIsAssignment(line: string) returns (k: string, v: string)
    requires LineEntry(line).Some?
    ensures line == k + "=" + v && '=' !in k && Trim(k) != [] && Trim(k)[0] != '#'
  {
    var t := Trim(line);
    StartsWithChar(t, '#');
    TrimEmpty(line);
    IndexOfFinds(t, '=');
    var c, d := TrimCore(line);
    var eq := IndexOf(t, '=');
    FirstEqualsOfSlice(line, c, d, eq);
    k, v := SplitAtFirstEquals(line, c, eq);
  }

  /** The key a line sets is never empty and never contains `=`. */
  lemma LineEntryKey(line: string)
    requires LineEntry(line).Some?
    ensures LineEntry(line).value.0 != [] && '=' !in LineEntry(line).value.0
  {
    var k, v := LineEntryIsAssignment(line);
    LineEntryOfAssignment(k, v);
    TrimEmpty(k);
    var c, d := TrimCore(k);
  }

  /**
   * A key is set exactly when some entry sets it, and its value is the one
   * given by the last entry that sets it.
   */
  lemma {:induction false} AssignLastWins(entries: seq<Option<(string, string)>>, key: string)
    ensures key in Assign(entries) <==> exists i :: 0 <= i < |entries| && Sets(entries[i], key)
    ensures key in Assign(entries) ==>
      exists i :: 0 <= i < |entries| && entries[i] == Some((key, Assign(entries)[key]))
                  && forall j :: i < j < |entries| ==> !Sets(entries[j], key)
  {
    if entries != [] {
      var front := entries[..|entries| - 1];
      AssignLastWins(front, key);
      assert forall i :: 0 <= i < |front| ==> front[i] == entries[i];
    }
  }

  /** Entries that set nothing can be dropped. */
  lemma {:induction false} AssignSkipsNone(before: seq<Option<(string, string)>>, after: seq<Option<(string, string)>>)
    ensures Assign(before + [None] + after) == Assign(before + after)
  {
    if after == [] {
      assert before + [None] + after == before + [None];
      assert (before + [None])[..|before|] == before;
      assert before + after == before;
    } else {
      var after' := after[..|after| - 1];
      var l := before + [None] + after;
      var r := before + after;
      assert l[..|l| - 1] == before + [None] + after';
      assert r[..|r| - 1] == before + after';
      assert l[|l| - 1] == r[|r| - 1];
      AssignSkipsNone(before, after');
    }
  }

  /** A key that some line of the file sets is a key of the parsed file. */
  lemma DefinedKeyIsSet(content: string, key: string, i: nat)
    requires i < |Split(content, '\n')| && Defines(Split(content, '\n')[i], key)
    ensures key in ParseConfig(content)
  {
    var entries := LineEntries(Split(content, '\n'));
    AssignLastWins(entries, key);
    assert Sets(entries[i], key);
  }

  /** A key of the parsed file holds the value of the last line that sets it: line `i`. */
  lemma ParseConfigLastWins(content: string, key: string) returns (i: nat)
    requires key in ParseConfig(content)
    ensures i < |Split(content, '\n')|
    ensures LineEntry(Split(content, '\n')[i]) == Some((key, ParseConfig(content)[key]))
    ensures forall j :: i < j < |Split(content, '\n')| ==> !Defines(Split(content, '\n')[j], key)
  {
    var lines := Split(content, '\n');
    var entries := LineEntries(lines);
    var config := ParseConfig(content);
    AssignLastWins(entries, key);
    i :| 0 <= i < |entries| && entries[i] == Some((key, config[key]))
          && forall j :: i < j < |entries| ==> !Sets(entries[j], key);
    forall j | i < j < |lines| ensures !Defines(lines[j], key) {
      assert !Sets(entries[j], key);
    }
  }

  /** Every key of the parsed file is non-empty and holds no `=`. */
  lemma ParsedKeys(content: string)
    ensures forall key :: key in ParseConfig(content) ==> key != [] && '=' !in key
  {
    var lines := Split(content, '\n');
    forall key | key in ParseConfig(content)
      ensures key != [] && '=' !in key
    {
      var i := ParseConfigLastWins(content, key);
      LineEntryKey(lines[i]);
    }
  }

  /** A blank line, a comment or a line without a key can be removed from the file without effect. */
  lemma IgnoredLineDropsOut(before: seq<string>, line: string, after: seq<string>)
    requires LineEntry(line).None?
    ensures Assign(LineEntries(before + [line] + after)) == Assign(LineEntries(before + after))
  {
    LineEntriesAround(before, line, after);
    LineEntriesConcat(before, after);
    AssignSkipsNone(LineEntries(before), LineEntries(after));
  }

  lemma LineEntriesAround(before: seq<string>, line: string, after: seq<string>)
    ensures LineEntries(before + [line] + after) == LineEntries(before) + [LineEntry(line)] + LineEntries(after)
  {
    LineEntriesConcat(before + [line], after);
    LineEntriesConcat(before, [line]);
  }

  lemma LineEntriesConcat(a: seq<string>, b: seq<string>)
    ensures LineEntries(a + b) == LineEntries(a) + LineEntries(b)
  {
  }

  /**
   * The settings the server runs with. A numeric setting holds what `parseInt`
   * made of its text, `None` standing for `NaN`.
   */
  datatype ServerConfig = ServerConfig(
    serverHost: string,
    serverPort: Option<int>,
    nodeEnv: string,
    corsOrigin: string,
    corsMethods: string,
    corsHeaders: string,
    logLevel: string,
    logFormat: string,
    requestTimeout: Option<int>,
    rateLimitWindow: Option<int>,
    rateLimitMaxRequests: Option<int>)

  /** The configuration used when `server.conf` cannot be read. */
  const DefaultConfig := ServerConfig(
    "localhost", Some(3000), "development", "*", "GET,POST,PUT,DELETE,OPTIONS",
    "Content-Type,Authorization", "info", "combined", Some(30000), Some(900000), Some(100))

  /** The keys `loadConfig` reads from the parsed file. */
  const Keys: seq<string> := [
    "SERVER_HOST", "SERVER_PORT", "NODE_ENV", "CORS_ORIGIN", "CORS_METHODS", "CORS_HEADERS",
    "LOG_LEVEL", "LOG_FORMAT", "REQUEST_TIMEOUT", "RATE_LIMIT_WINDOW", "RATE_LIMIT_MAX_REQUESTS"]

  /** `parsedConfig[key] || fallback`: a missing key and an empty value both fall back. */
  function Setting(settings: Settings, key: string, fallback: string): string {
    if key in settings && settings[key] != [] then settings[key] else fallback
  }

  /** The configuration `loadConfig` builds from the parsed file. */
  function FromSettings(settings: Settings): ServerConfig {
    ServerConfig(
      Setting(settings, "SERVER_HOST", "localhost"),
      ParseInt(Setting(settings, "SERVER_PORT", "3000")),
      Setting(settings, "NODE_ENV", "development"),
      Setting(settings, "CORS_ORIGIN", "*"),
      Setting(settings, "CORS_METHODS", "GET,POST,PUT,DELETE,OPTIONS"),
      Setting(settings, "CORS_HEADERS", "Content-Type,Authorization"),
      Setting(settings, "LOG_LEVEL", "info"),
      Setting(settings, "LOG_FORMAT", "combined"),
      ParseInt(Setting(settings, "REQUEST_TIMEOUT", "30000")),
      ParseInt(Setting(settings, "RATE_LIMIT_WINDOW", "900000")),
      ParseInt(Setting(settings, "RATE_LIMIT_MAX_REQUESTS", "100")))
  }

  /**
   * What `loadConfig` settles on for the text of `server.conf`, or `None` when
   * reading the file failed. Every text setting is non-empty, whatever the file says.
   */
  function Loaded(file: Option<string>): (c: ServerConfig)
    ensures && c.serverHost != [] && c.nodeEnv != [] && c.corsOrigin != [] && c.corsMethods != []
            && c.corsHeaders != [] && c.logLevel != [] && c.logFormat != []
  {
    match file
    case None => DefaultConfig
    case Some(content) => FromSettings(ParseConfig(content))
  }

  /**
   * Settings that leave every key missing or empty give the configuration of an
   * unreadable file: the fallbacks of the two paths of `loadConfig` agree.
   */
  lemma FallbacksAgree(settings: Settings)
    requires forall i :: 0 <= i < |Keys| ==> Setting(settings, Keys[i], "") == ""
    ensures FromSettings(settings) == DefaultConfig
  {
    FallsBack(settings, Keys[0], "localhost");
    FallsBack(settings, Keys[1], "3000");
    FallsBack(settings, Keys[2], "development");
    FallsBack(settings, Keys[3], "*");
    FallsBack(settings, Keys[4], "GET,POST,PUT,DELETE,OPTIONS");
    FallsBack(settings, Keys[5], "Content-Type,Authorization");
    FallsBack(settings, Keys[6], "info");
    FallsBack(settings, Keys[7], "combined");
    FallsBack(settings, Keys[8], "30000");
    FallsBack(settings, Keys[9], "900000");
    FallsBack(settings, Keys[10], "100");
    ParseIntOfIntToString(3000);
    ParseIntOfIntToString(30000);
    ParseIntOfIntToString(900000);
    ParseIntOfIntToString(100);
    assert IntToString(3000) == "3000" && IntToString(30000) == "30000" by {
      DecimalText3000();
    }
    assert IntToString(900000) == "900000" && IntToString(100) == "100" by {
      DecimalText900000();
    }
  }

  lemma FallsBack(settings: Settings, key: string, fallback: string)
    requires Setting(settings, key, "") == ""
    ensures Setting(settings, key, fallback) == fallback
  {
  }

  lemma DecimalText3000()
    ensures IntToString(3000) == "3000" && IntToString(30000) == "30000"
  {
    assert NatToString(3) == "3";
    assert NatToString(30) == "30";
    assert NatToString(300) == "300";
    assert NatToString(3000) == "3000";
    assert NatToString(30000) == "30000";
  }

  lemma DecimalText900000()
    ensures IntToString(900000) == "900000" && IntToString(100) == "100"
  {
    assert NatToString(9) == "9";
    assert NatToString(90) == "90";
    assert NatToString(900) == "900";
    assert NatToString(9000) == "9000";
    assert NatToString(90000) == "90000";
    assert NatToString(900000) == "900000";
    assert NatToString(1) == "1";
    assert NatToString(10) == "10";
    assert NatToString(100) == "100";
  }

  /** A file without settings, such as one holding only comments, gives the defaults. */
  lemma FileWithoutSettings(content: string)
    requires forall i :: 0 <= i < |Split(content, '\n')| ==> LineEntry(Split(content, '\n')[i]).None?
    ensures Loaded(Some(content)) == DefaultConfig
  {
    var settings := ParseConfig(content);
    forall i | 0 <= i < |Keys| ensures Setting(settings, Keys[i], "") == "" {
      if Keys[i] in settings {
        var j := ParseConfigLastWins(content, Keys[i]);
      }
    }
    FallbacksAgree(settings);
  }

  /** A port written as `SERVER_PORT=<n>` on the last line that sets it is read back as `n`. */
  lemma PortRoundTrip(content: string, n: int)
    requires "SERVER_PORT" in ParseConfig(content) && ParseConfig(content)["SERVER_PORT"] == IntToString(n)
    ensures Loaded(Some(content)).serverPort == Some(n)
  {
    ParseIntOfIntToString(n);
  }

  /** The message `getConfig` throws before any `loadConfig`. */
  const NotLoaded := "Configuração não foi carregada. Chame loadConfig() primeiro."

  /** The class's static `config` field: empty until the first `loadConfig`, then the cached configuration. */
  class ConfigStore {
    var config: Option<ServerConfig>

    constructor ()
      ensures config.None?
    {
      config := None;
    }

    /**
     * `loadConfig`: the cached configuration if there is one; otherwise the
     * configuration read from `file` (`None` when reading it failed), which is cached.
     */
    method LoadConfig(file: Option<string>) returns (r: ServerConfig)
      modifies this
      ensures old(config).Some? ==> r == old(config).value && config == old(config)
      ensures old(config).None? ==> r == Loaded(file) && config == Some(r)
    {
      if config.Some? {
        return config.value;
      }
      match file {
        case None =>
          r := DefaultConfig;
        case Some(content) =>
          var parsed := ParseConfigFile(content);
          r := FromSettings(parsed);
      }
      config := Some(r);
    }

    /** `getConfig`: the cached configuration, or the error thrown before any load. */
    function GetConfig(): (r: Result<ServerConfig, string>)
      reads this
      ensures r.Ok? <==> config.Some?
      ensures r.Ok? ==> r.value == config.value
      ensures r.Err? ==> r.error == NotLoaded
    {
      match config
      case None => Err(NotLoaded)
      case Some(c) => Ok(c)
    }

    /** `reloadConfig`: drops the cache, then loads from `file`. */
    method ReloadConfig(file: Option<string>) returns (r: ServerConfig)
      modifies this
      ensures r == Loaded(file) && config == Some(r)
    {
      config := None;
      r := LoadConfig(file);
    }
  }
}
