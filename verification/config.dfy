/** Configuration: built-in defaults, overridden by a private JSON file,
    overridden in turn by `SHELL_QUEUE_<KEY>` environment variables whose
    text is coerced to a boolean, an integer, a recipient list or left a
    string. Reading the file and the environment is outside the model: the
    parsed file and the environment are parameters. */
module Config {
  import opened Wrappers
  import opened Text

  /** The configuration values the core deals in. */
  datatype Value =
    | VBool(b: bool)
    | VInt(i: int)
    | VStr(s: string)
    | VList(items: seq<string>)
    | VNone

  type Settings = map<string, Value>

  const Recipients: string := "EMAIL_RECIPIENTS"

  /** The keys of `DEFAULT_CONFIG`, in declaration order. */
  const DefaultKeys: seq<string> := [
    "DEBUG", "TESTING", "HOST", "PORT", "LOG_LEVEL", "LOG_FILE",
    "MAX_QUEUE_SIZE", "MAX_HISTORY_SIZE", "SCRIPT_TIMEOUT",
    "EMAIL_ENABLED", "EMAIL_HOST", "EMAIL_PORT", "EMAIL_USERNAME", "EMAIL_PASSWORD",
    "EMAIL_SENDER", Recipients, "EMAIL_USE_TLS",
    "NOTIFY_QUEUE_LOW_THRESHOLD", "NOTIFY_ON_TASK_FAILURE"]

  /** `DEFAULT_CONFIG`. The script timeout is one week in seconds. */
  const DefaultConfig: Settings := map[
    "DEBUG" := VBool(false),
    "TESTING" := VBool(false),
    "HOST" := VStr("0.0.0.0"),
    "PORT" := VInt(5000),
    "LOG_LEVEL" := VStr("INFO"),
    "LOG_FILE" := VNone,
    "MAX_QUEUE_SIZE" := VInt(1000),
    "MAX_HISTORY_SIZE" := VInt(100),
    "SCRIPT_TIMEOUT" := VInt(60 * 60 * 24 * 7),
    "EMAIL_ENABLED" := VBool(false),
    "EMAIL_HOST" := VStr("smtp.example.com"),
    "EMAIL_PORT" := VInt(587),
    "EMAIL_USERNAME" := VStr(""),
    "EMAIL_PASSWORD" := VStr(""),
    "EMAIL_SENDER" := VStr("shell-queue@example.com"),
    Recipients := VList(["admin@example.com"]),
    "EMAIL_USE_TLS" := VBool(true),
    "NOTIFY_QUEUE_LOW_THRESHOLD" := VInt(1),
    "NOTIFY_ON_TASK_FAILURE" := VBool(true)]

  /** The default table and its key list describe the same nineteen keys. */
  lemma DefaultKeysAreTheTable()
    ensures |DefaultKeys| == 19
    ensures forall i, j :: 0 <= i < j < |DefaultKeys| ==> DefaultKeys[i] != DefaultKeys[j]
    ensures forall k :: k in DefaultConfig <==> k in DefaultKeys
    ensures DefaultConfig["SCRIPT_TIMEOUT"] == VInt(604800)
  {
    DefaultKeysDistinct();
  }

  lemma DefaultKeysDistinct()
    ensures forall i, j :: 0 <= i < j < |DefaultKeys| ==> DefaultKeys[i] != DefaultKeys[j]
  {
  }

  /** The environment variable that overrides `key`. */
  function EnvName(key: string): (n: string)
    ensures |n| == |key| + 12 && n[12..] == key
  {
    "SHELL_QUEUE_" + key
  }

  const TrueWords: seq<string> := ["true", "yes", "1"]
  const FalseWords: seq<string> := ["false", "no", "0"]

  /** The coercion of one environment value, tried in the source's order:
      a boolean word (any case), then a string of digits, then — for the
      recipient key only — a comma-separated list whose items are stripped
      of surrounding whitespace; anything else stays a string. */
  function Coerce(key: string, raw: string): (v: Value)
    ensures Lower(raw) in TrueWords <==> v == VBool(true)
    ensures Lower(raw) in FalseWords <==> v == VBool(false)
    ensures v.VInt? <==> Lower(raw) !in TrueWords + FalseWords && IsDigits(raw)
    ensures v.VInt? ==> v.i >= 0 && v.i == ParseNat(raw)
    ensures v.VList? <==> !v.VBool? && !v.VInt? && key == Recipients && ',' in raw
    ensures v.VList? ==> |v.items| == |Split(raw, ',')| >= 2
    ensures v.VList? ==> forall i :: 0 <= i < |v.items| ==> v.items[i] == Strip(Split(raw, ',')[i])
    ensures v.VStr? ==> v.s == raw
    ensures !v.VNone?
  {
    var low := Lower(raw);
    if low in TrueWords then VBool(true)
    else if low in FalseWords then VBool(false)
    else if IsDigits(raw) then VInt(ParseNat(raw))
    else if key == Recipients && ',' in raw then
      var parts := Split(raw, ',');
      assert |parts| >= 2 by {
        if |parts| == 1 { assert Join(parts, ',') == parts[0]; }
      }
      VList(seq(|parts|, i requires 0 <= i < |parts| => Strip(parts[i])))
    else VStr(raw)
  }

  /** `_load_from_environment`: exactly the default keys whose variable is
      set, each holding its coerced value; other variables are ignored. */
  function LoadFromEnvironment(env: map<string, string>): (r: Settings)
    ensures forall k :: k in r <==> k in DefaultConfig && EnvName(k) in env
    ensures forall k :: k in r ==> r[k] == Coerce(k, env[EnvName(k)])
  {
    map k | k in DefaultConfig.Keys && EnvName(k) in env :: Coerce(k, env[EnvName(k)])
  }

  /** What reading one private configuration file gave. */
  datatype FileRead = Absent | Unreadable | Parsed(settings: Settings)

  /** `_load_private_config`: the first candidate file that exists and
      parses; a missing or unreadable file passes on to the next, and no
      file at all gives an empty table. */
  function LoadPrivateConfig(files: seq<FileRead>): (r: Settings)
    ensures (forall i :: 0 <= i < |files| ==> !files[i].Parsed?) ==> r == map[]
    ensures forall i :: 0 <= i < |files| && files[i].Parsed? && (forall j :: 0 <= j < i ==> !files[j].Parsed?) ==> r == files[i].settings
    decreases |files|
  {
    if |files| == 0 then map[]
    else if files[0].Parsed? then files[0].settings
    else
      assert forall j :: 1 <= j < |files| ==> files[1..][j - 1] == files[j];
      LoadPrivateConfig(files[1..])
  }

  /** `load_config`: defaults, then the private file, then the
      environment, later sources winning key by key. */
  function LoadConfig(privateConfig: Settings, env: map<string, string>): (r: Settings)
    ensures forall k :: k in r <==> k in DefaultConfig || k in privateConfig
    ensures forall k :: k in DefaultConfig && EnvName(k) in env ==> r[k] == Coerce(k, env[EnvName(k)])
    ensures forall k :: k in privateConfig && !(k in DefaultConfig && EnvName(k) in env) ==>
      r[k] == privateConfig[k]
    ensures forall k :: k in DefaultConfig && k !in privateConfig && EnvName(k) !in env ==>
      r[k] == DefaultConfig[k]
  {
    DefaultConfig + privateConfig + LoadFromEnvironment(env)
  }

  /** With no private file and no variables the configuration is the
      defaults. */
  lemma LoadWithoutOverrides()
    ensures LoadConfig(map[], map[]) == DefaultConfig
  {
    var empty: Settings := map[];
    assert LoadFromEnvironment(map[]) == empty;
    MergeEmpty(DefaultConfig);
  }

  lemma MergeEmpty(m: Settings)
    ensures m + map[] + map[] == m
  {
  }

  // ------------------------------------------------------- coercions

  /** A number written out in decimal comes back as that number, except
      that 0 and 1 read as booleans first. */
  lemma NumberRoundTrip(key: string, n: nat)
    ensures n >= 2 ==> Coerce(key, NatToString(n)) == VInt(n)
    ensures n == 0 ==> Coerce(key, NatToString(n)) == VBool(false)
    ensures n == 1 ==> Coerce(key, NatToString(n)) == VBool(true)
  {
    var s := NatToString(n);
    ParseNatToString(n);
    LowerOfDigits(s);
    if n >= 2 {
      assert s != "0" && s != "1";
      DigitsAreNoWord(s);
    } else {
      assert s == [DigitChar(n)];
    }
  }

  /** The only boolean words made of digits are "0" and "1". */
  lemma DigitsAreNoWord(s: string)
    requires IsDigits(s) && s != "0" && s != "1"
    ensures s !in TrueWords + FalseWords
  {
    assert !IsDigit('t') && !IsDigit('y') && !IsDigit('f') && !IsDigit('n');
    assert "true"[0] == 't' && "yes"[0] == 'y' && "false"[0] == 'f' && "no"[0] == 'n';
  }

  /** A text holding a character no boolean word holds is no boolean word. */
  lemma ForeignCharIsNoWord(s: string, i: nat)
    requires i < |s| && s[i] in ",@"
    ensures Lower(s) !in TrueWords + FalseWords
    ensures !IsDigits(s)
  {
    assert Lower(s)[i] == s[i];
    assert !IsDigit(s[i]);
    var w := Lower(s);
    assert forall u :: u in TrueWords + FalseWords ==> forall j :: 0 <= j < |u| ==> u[j] !in ",@";
  }

  /** Lower-casing leaves digits alone. */
  lemma LowerOfDigits(s: string)
    requires IsDigits(s)
    ensures Lower(s) == s
  {
  }

  /** Boolean words are recognised in any letter case. */
  lemma BoolWordsIgnoreCase(key: string, a: string, b: string)
    requires Lower(a) == Lower(b)
    requires Lower(a) in TrueWords + FalseWords
    ensures Coerce(key, a) == Coerce(key, b)
  {
  }

  /** Joining two or more parts puts a separator right after the first. */
  lemma {:induction false} JoinSeparates(parts: seq<string>, sep: char)
    requires |parts| >= 2
    ensures |parts[0]| < |Join(parts, sep)| && Join(parts, sep)[|parts[0]|] == sep
  {
    assert Join(parts, sep) == parts[0] + [sep] + Join(parts[1..], sep);
  }

  /** A list of comma-free, already stripped addresses written with commas
      between them reads back as the same list. */
  lemma RecipientsRoundTrip(addrs: seq<string>)
    requires |addrs| >= 2
    requires forall i :: 0 <= i < |addrs| ==> ',' !in addrs[i] && Strip(addrs[i]) == addrs[i]
    ensures Coerce(Recipients, Join(addrs, ',')) == VList(addrs)
  {
    var raw := Join(addrs, ',');
    SplitJoin(addrs, ',');
    JoinSeparates(addrs, ',');
    CommaListItems(raw, |addrs[0]|);
    ListOfStrippedParts(raw, addrs);
  }

  /** A recipient list whose parts are already stripped is those parts. */
  lemma ListOfStrippedParts(raw: string, addrs: seq<string>)
    requires Coerce(Recipients, raw).VList? && Split(raw, ',') == addrs
    requires forall i :: 0 <= i < |addrs| ==> Strip(addrs[i]) == addrs[i]
    ensures Coerce(Recipients, raw) == VList(addrs)
  {
    var v := Coerce(Recipients, raw);
    StrippedItems(v.items, addrs);
  }

  lemma StrippedItems(items: seq<string>, parts: seq<string>)
    requires |items| == |parts|
    requires forall i :: 0 <= i < |parts| ==> items[i] == Strip(parts[i])
    requires forall i :: 0 <= i < |parts| ==> Strip(parts[i]) == parts[i]
    ensures items == parts
  {
  }

  /** A recipient value holding a comma reads as a list. */
  lemma CommaListItems(raw: string, i: nat)
    requires i < |raw| && raw[i] == ','
    ensures Coerce(Recipients, raw).VList?
  {
    ForeignCharIsNoWord(raw, i);
  }

  /** A single address stays a plain string, not a one-item list. */
  lemma SingleRecipientStaysString(addr: string)
    requires ',' !in addr && '@' in addr
    ensures Coerce(Recipients, addr) == VStr(addr)
  {
    var i :| 0 <= i < |addr| && addr[i] == '@';
    ForeignCharIsNoWord(addr, i);
  }

  // ----------------------------------------------------- email settings

  /** The dictionary `get_email_config` returns. */
  datatype EmailConfig = EmailConfig(
    enable: Value, host: Value, port: Value, username: Value,
    password: Value, sender: Value, recipients: Value, useTls: Value)

  function Get(c: Settings, key: string, default: Value): (v: Value)
    ensures key in c ==> v == c[key]
    ensures key !in c ==> v == default
  {
    if key in c then c[key] else default
  }

  /** `get_email_config`: the eight email fields, each falling back to its
      own default when the key is missing. */
  function GetEmailConfig(c: Settings): (e: EmailConfig)
    ensures e.enable == Get(c, "EMAIL_ENABLED", VBool(false))
    ensures e.host == Get(c, "EMAIL_HOST", VStr(""))
    ensures e.port == Get(c, "EMAIL_PORT", VInt(587))
    ensures e.username == Get(c, "EMAIL_USERNAME", VStr(""))
    ensures e.password == Get(c, "EMAIL_PASSWORD", VStr(""))
    ensures e.sender == Get(c, "EMAIL_SENDER", VStr(""))
    ensures e.recipients == Get(c, Recipients, VList([]))
    ensures e.useTls == Get(c, "EMAIL_USE_TLS", VBool(true))
  {
    EmailConfig(
      Get(c, "EMAIL_ENABLED", VBool(false)),
      Get(c, "EMAIL_HOST", VStr("")),
      Get(c, "EMAIL_PORT", VInt(587)),
      Get(c, "EMAIL_USERNAME", VStr("")),
      Get(c, "EMAIL_PASSWORD", VStr("")),
      Get(c, "EMAIL_SENDER", VStr("")),
      Get(c, Recipients, VList([])),
      Get(c, "EMAIL_USE_TLS", VBool(true)))
  }

  /** On a loaded configuration the fallbacks never apply: every email key
      is present, so with no overrides the email settings are the
      defaults. */
  lemma EmailConfigOfDefaults()
    ensures GetEmailConfig(LoadConfig(map[], map[])) == EmailConfig(
      VBool(false), VStr("smtp.example.com"), VInt(587), VStr(""), VStr(""),
      VStr("shell-queue@example.com"), VList(["admin@example.com"]), VBool(true))
  {
    LoadWithoutOverrides();
    DefaultEmailEntries();
  }

  /** Whatever the private file and the environment hold, a loaded
      configuration has every email key, so each email setting is the
      loaded value and no fallback applies. */
  lemma LoadedEmailConfigHasNoFallbacks(privateConfig: Settings, env: map<string, string>)
    ensures var c := LoadConfig(privateConfig, env);
      && "EMAIL_ENABLED" in c && "EMAIL_HOST" in c && "EMAIL_PORT" in c && "EMAIL_USERNAME" in c
      && "EMAIL_PASSWORD" in c && "EMAIL_SENDER" in c && Recipients in c && "EMAIL_USE_TLS" in c
      && GetEmailConfig(c) == EmailConfig(
           c["EMAIL_ENABLED"], c["EMAIL_HOST"], c["EMAIL_PORT"], c["EMAIL_USERNAME"],
           c["EMAIL_PASSWORD"], c["EMAIL_SENDER"], c[Recipients], c["EMAIL_USE_TLS"])
  {
    DefaultEmailEntries();
  }

  lemma DefaultEmailEntries()
    ensures "EMAIL_ENABLED" in DefaultConfig && DefaultConfig["EMAIL_ENABLED"] == VBool(false)
    ensures "EMAIL_HOST" in DefaultConfig && DefaultConfig["EMAIL_HOST"] == VStr("smtp.example.com")
    ensures "EMAIL_PORT" in DefaultConfig && DefaultConfig["EMAIL_PORT"] == VInt(587)
    ensures "EMAIL_USERNAME" in DefaultConfig && DefaultConfig["EMAIL_USERNAME"] == VStr("")
    ensures "EMAIL_PASSWORD" in DefaultConfig && DefaultConfig["EMAIL_PASSWORD"] == VStr("")
    ensures "EMAIL_SENDER" in DefaultConfig && DefaultConfig["EMAIL_SENDER"] == VStr("shell-queue@example.com")
    ensures Recipients in DefaultConfig && DefaultConfig[Recipients] == VList(["admin@example.com"])
    ensures "EMAIL_USE_TLS" in DefaultConfig && DefaultConfig["EMAIL_USE_TLS"] == VBool(true)
  {
  }

  /** A port set in the environment reaches the email settings, whatever
      the private file says. */
  lemma EmailPortFromEnvironment(privateConfig: Settings, env: map<string, string>, n: nat)
    requires n >= 2
    requires EnvName("EMAIL_PORT") in env && env[EnvName("EMAIL_PORT")] == NatToString(n)
    ensures GetEmailConfig(LoadConfig(privateConfig, env)).port == VInt(n)
  {
    NumberRoundTrip("EMAIL_PORT", n);
  }
}
