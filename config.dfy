/**
 * Start-up configuration read from the environment, and the MODS_DICT table.
 *
 * The environment is a map from variable name to value; a variable that is
 * not set is absent from the map. Python's `int(...)` on SERVER_ID and
 * BOT_CHANNEL_ID is modelled for an optional sign followed by ASCII digits.
 */
module Config {
  import opened Wrappers

  type Env = map<string, string>

  function Getenv(env: Env, name: string): Option<string> {
    if name in env then Some(env[name]) else None
  }

  /** `if not (v := os.getenv(name))`: unset and empty values are both falsy. */
  predicate Truthy(v: Option<string>) {
    v.Some? && v.value != ""
  }

  datatype Settings = Settings(discordToken: string, serverId: int, botChannelId: int, databaseUrl: string)

  /** BOT_SELF_ID: the bot's own Discord id. */
  const BotSelfId: int := 442370931772358666

  /** BOTSPAM_CHANNEL_ID: where scores are posted and messages are cleaned up. */
  const BotspamChannelId: int := 266580155860779009

  /** The ValueError raised while the configuration module is imported. */
  datatype ConfigError =
    | MissingVariable(name: string)   // "<name> environment variable is required"
    | NotAnInteger(text: string)      // int() refused the text

  predicate IsDigit(c: char) {
    '0' <= c <= '9'
  }

  /** The value of a non-empty string of ASCII digits. */
  function DigitsValue(s: string): nat
    requires forall i :: 0 <= i < |s| ==> IsDigit(s[i])
  {
    if s == [] then 0
    else
      assert IsDigit(s[|s| - 1]);
      DigitsValue(s[..|s| - 1]) * 10 + (s[|s| - 1] as int - '0' as int)
  }

  /** `int(s)` for an optional sign followed by at least one ASCII digit. */
  function ParseInt(s: string): (r: Option<int>)
    ensures r.Some? ==> s != []
  {
    if s != [] && (s[0] == '-' || s[0] == '+') then
      var d := s[1..];
      if d != [] && forall i :: 0 <= i < |d| ==> IsDigit(d[i]) then
        var magnitude: int := DigitsValue(d);
        Some(if s[0] == '-' then -magnitude else magnitude)
      else None
    else if s != [] && forall i :: 0 <= i < |s| ==> IsDigit(s[i]) then
      Some(DigitsValue(s))
    else None
  }

  /** The decimal digits of a natural number, most significant first. */
  function ShowNat(n: nat): (s: string)
    ensures s != [] && forall i :: 0 <= i < |s| ==> IsDigit(s[i])
  {
    if n < 10 then ['0' + n as char]
    else ShowNat(n / 10) + ['0' + (n % 10) as char]
  }

  /** Reading back the decimal digits of n gives n. */
  lemma {:induction false} ShowNatRoundTrip(n: nat)
    ensures DigitsValue(ShowNat(n)) == n
    ensures ParseInt(ShowNat(n)) == Some(n)
  {
    var s := ShowNat(n);
    if n >= 10 {
      ShowNatRoundTrip(n / 10);
      assert s[..|s| - 1] == ShowNat(n / 10);
    }
    assert s[0] != '-' && s[0] != '+';
  }

  /** An f-string renders a missing value as "None". */
  function ShowOptional(v: Option<string>): string {
    if v.Some? then v.value else "None"
  }

  /** DATABASE_URL: the variable itself when truthy, else a URL assembled from the POSTGRES_* variables. */
  function DatabaseUrl(env: Env): (url: string)
    ensures Truthy(Getenv(env, "DATABASE_URL")) ==> url == env["DATABASE_URL"]
    ensures !Truthy(Getenv(env, "DATABASE_URL")) ==>
      url == "postgresql://" + ShowOptional(Getenv(env, "POSTGRES_USER")) + ":"
             + ShowOptional(Getenv(env, "POSTGRES_PASSWORD")) + "@db:5432/"
             + ShowOptional(Getenv(env, "POSTGRES_DB"))
  {
    var given := Getenv(env, "DATABASE_URL");
    if Truthy(given) then given.value
    else "postgresql://" + ShowOptional(Getenv(env, "POSTGRES_USER")) + ":"
         + ShowOptional(Getenv(env, "POSTGRES_PASSWORD")) + "@db:5432/"
         + ShowOptional(Getenv(env, "POSTGRES_DB"))
  }

  /** Importing the configuration module: the three presence checks, then the two conversions. */
  function Load(env: Env): Result<Settings, ConfigError> {
    var token := Getenv(env, "DISCORD_TOKEN");
    var server := Getenv(env, "SERVER_ID");
    var channel := Getenv(env, "BOT_CHANNEL_ID");
    if !Truthy(token) then Failure(MissingVariable("DISCORD_TOKEN"))
    else if !Truthy(server) then Failure(MissingVariable("SERVER_ID"))
    else if !Truthy(channel) then Failure(MissingVariable("BOT_CHANNEL_ID"))
    else match ParseInt(server.value)
      case None => Failure(NotAnInteger(server.value))
      case Some(serverId) =>
        match ParseInt(channel.value)
        case None => Failure(NotAnInteger(channel.value))
        case Some(channelId) => Success(Settings(token.value, serverId, channelId, DatabaseUrl(env)))
  }

  /**
   * Loading succeeds exactly when the three required variables are truthy and the
   * two ids are integers; the settings then carry those values, and a failure names
   * the first missing variable in the order DISCORD_TOKEN, SERVER_ID, BOT_CHANNEL_ID.
   */
  lemma LoadOutcome(env: Env)
    ensures Load(env).Success? <==>
      Truthy(Getenv(env, "DISCORD_TOKEN")) && Truthy(Getenv(env, "SERVER_ID"))
      && Truthy(Getenv(env, "BOT_CHANNEL_ID"))
      && ParseInt(env["SERVER_ID"]).Some? && ParseInt(env["BOT_CHANNEL_ID"]).Some?
    ensures Load(env).Success? ==>
      Load(env).value == Settings(env["DISCORD_TOKEN"], ParseInt(env["SERVER_ID"]).value,
                                  ParseInt(env["BOT_CHANNEL_ID"]).value, DatabaseUrl(env))
    ensures !Truthy(Getenv(env, "DISCORD_TOKEN")) ==> Load(env) == Failure(MissingVariable("DISCORD_TOKEN"))
    ensures Truthy(Getenv(env, "DISCORD_TOKEN")) && !Truthy(Getenv(env, "SERVER_ID")) ==>
      Load(env) == Failure(MissingVariable("SERVER_ID"))
    ensures (Truthy(Getenv(env, "DISCORD_TOKEN")) && Truthy(Getenv(env, "SERVER_ID"))
             && !Truthy(Getenv(env, "BOT_CHANNEL_ID"))) ==>
      Load(env) == Failure(MissingVariable("BOT_CHANNEL_ID"))
  {
  }

  /** MODS_DICT: the bit value the performance calculator expects for each mod acronym. */
  function ModValue(acronym: string): Option<int> {
    match acronym
    case "NF" => Some(1)
    case "EZ" => Some(2)
    case "TD" => Some(4)
    case "HD" => Some(8)
    case "HR" => Some(16)
    case "SD" => Some(32)
    case "DT" => Some(64)
    case "RL" => Some(128)
    case "HT" => Some(256)
    case "NC" => Some(576)
    case "FL" => Some(1024)
    case "AT" => Some(2048)
    case "SO" => Some(4096)
    case "AP" => Some(8192)
    case "PF" => Some(16416)
    case _ => None
  }

  /** The keys of MODS_DICT in declaration order. */
  const ModAcronyms: seq<string> :=
    ["NF", "EZ", "TD", "HD", "HR", "SD", "DT", "RL", "HT", "NC", "FL", "AT", "SO", "AP", "PF"]

  function Pow2(k: nat): nat {
    if k == 0 then 1 else 2 * Pow2(k - 1)
  }

  /** The bit of MODS_DICT that each acronym stands for (NC is bit 9, PF bit 14). */
  function ModBit(acronym: string): nat {
    match acronym
    case "NF" => 0
    case "EZ" => 1
    case "TD" => 2
    case "HD" => 3
    case "HR" => 4
    case "SD" => 5
    case "DT" => 6
    case "RL" => 7
    case "HT" => 8
    case "NC" => 9
    case "FL" => 10
    case "AT" => 11
    case "SO" => 12
    case "AP" => 13
    case "PF" => 14
    case _ => 0
  }

  /**
   * Every MODS_DICT value is the single bit of its acronym, except the two composites:
   * NC carries DT's bit as well and PF carries SD's bit as well.
   */
  lemma ModValuesAreBits(acronym: string)
    requires acronym in ModAcronyms
    ensures ModValue(acronym).Some?
    ensures acronym != "NC" && acronym != "PF" ==> ModValue(acronym).value == Pow2(ModBit(acronym))
    ensures acronym == "NC" ==> ModValue(acronym).value == Pow2(ModBit("NC")) + ModValue("DT").value
    ensures acronym == "PF" ==> ModValue(acronym).value == Pow2(ModBit("PF")) + ModValue("SD").value
  {
    assert Pow2(1) == 2 && Pow2(2) == 4 && Pow2(3) == 8 && Pow2(4) == 16 && Pow2(5) == 32;
    assert Pow2(6) == 64 && Pow2(7) == 128 && Pow2(8) == 256 && Pow2(9) == 512;
    assert Pow2(10) == 1024 && Pow2(11) == 2048 && Pow2(12) == 4096;
    assert Pow2(13) == 8192 && Pow2(14) == 16384;
  }

  /** MODS_DICT knows exactly the listed acronyms. */
  lemma ModValueDomain(acronym: string)
    ensures ModValue(acronym).Some? <==> acronym in ModAcronyms
  {
  }
}
