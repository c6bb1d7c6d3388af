/**
 * The bot's configuration: the tables built from config.ini at start-up
 * (matrix-b0t.py lines 15-32), the `check_config` validation (lines 35-57) and
 * the choice of login mode (lines 99-102). The INI file is given already parsed,
 * as a map from section name to that section's options.
 */
module Config {
  import opened Wrappers
  import opened Text

  type Section = map<string, string>
  type Ini = map<string, Section>

  /** The `command_prefix` used when the Matrix section does not set one. */
  const DefaultPrefix: string := "!b0t"

  /** Everything the script reads from the configuration before it starts. */
  datatype Settings = Settings(
    userCommands: map<string, seq<string>>,  // sender -> allowed commands (line 15)
    commands: map<string, string>,           // command -> webhook URL (line 18)
    serverUrl: string,
    username: string,
    password: string,
    token: string,
    roomId: string,
    prefix: string)

  /** The dictionary comprehension of line 15: each value is split on `,`, untrimmed. */
  function UserCommands(users: Section): (table: map<string, seq<string>>)
    ensures table.Keys == users.Keys
  {
    map user | user in users :: Split(users[user], ',')
  }

  /**
   * A sender's allowed-command list is made of comma-free names that join back,
   * with `,`, to exactly the configured value; and it is the only such list.
   */
  lemma UserCommandsRoundTrip(users: Section, user: string, allowed: seq<string>)
    requires user in users
    ensures Join(UserCommands(users)[user], ',') == users[user]
    ensures forall i :: 0 <= i < |UserCommands(users)[user]| ==> ',' !in UserCommands(users)[user][i]
    ensures (&& |allowed| >= 1
             && (forall i :: 0 <= i < |allowed| ==> ',' !in allowed[i])
             && Join(allowed, ',') == users[user])
            ==> allowed == UserCommands(users)[user]
  {
    JoinSplit(users[user], ',');
    if |allowed| >= 1 && (forall i :: 0 <= i < |allowed| ==> ',' !in allowed[i]) {
      SplitJoin(allowed, ',');
    }
  }

  /** Line 32: the configured `command_prefix`, or `!b0t` when there is none. */
  function Prefix(matrix: Section): (p: string)
    ensures "command_prefix" in matrix ==> p == matrix["command_prefix"]
    ensures "command_prefix" !in matrix ==> p == "!b0t"
  {
    if "command_prefix" in matrix then matrix["command_prefix"] else DefaultPrefix
  }

  /** The options of the Matrix section that lines 21-29 read with `[]`, in that order. */
  const MatrixReads: seq<string> := ["server_url", "username", "password", "token", "room_id"]

  /** Every section and option that lines 15-29 read with `[]` is present. */
  predicate Loadable(ini: Ini) {
    && "Users" in ini && "Webhooks" in ini && "Matrix" in ini
    && var m := ini["Matrix"];
       "server_url" in m && "username" in m && "password" in m && "token" in m && "room_id" in m
  }

  /** The first name in `keys` that `section` lacks, if any. */
  function FirstAbsent(section: Section, keys: seq<string>): (r: Option<string>)
    ensures r == None <==> forall i :: 0 <= i < |keys| ==> keys[i] in section
    ensures r.Some? ==> exists i :: 0 <= i < |keys| && keys[i] == r.value && r.value !in section
                         && forall j :: 0 <= j < i ==> keys[j] in section
  {
    if keys == [] then None
    else if keys[0] !in section then Some(keys[0])
    else
      var r := FirstAbsent(section, keys[1..]);
      assert r.Some? ==> exists i :: 1 <= i < |keys| && keys[i] == r.value && r.value !in section
                          && forall j :: 0 <= j < i ==> keys[j] in section by {
        if r.Some? {
          var i :| 0 <= i < |keys| - 1 && keys[1..][i] == r.value && r.value !in section
                   && forall j :: 0 <= j < i ==> keys[1..][j] in section;
          assert keys[i + 1] == r.value;
          assert forall j :: 0 <= j < i + 1 ==> keys[j] in section by {
            forall j | 0 <= j < i + 1 ensures keys[j] in section {
              if j > 0 { assert keys[j] == keys[1..][j - 1]; }
            }
          }
        }
      }
      r
  }

  /**
   * Lines 15-32 run top to bottom: the first section or option that is missing
   * raises `KeyError` with its name; otherwise all the settings are read.
   */
  function LoadSettings(ini: Ini): (r: Result<Settings, string>)
    ensures r.Success? <==> Loadable(ini)
    ensures r.Failure? ==> r.error !in ini || ("Matrix" in ini && r.error !in ini["Matrix"])
    ensures r.Success? ==>
              var m := ini["Matrix"];
              && r.value.userCommands == UserCommands(ini["Users"])
              && r.value.commands == ini["Webhooks"]
              && r.value.serverUrl == m["server_url"] && r.value.roomId == m["room_id"]
              && r.value.username == m["username"] && r.value.password == m["password"]
              && r.value.token == m["token"] && r.value.prefix == Prefix(m)
  {
    if "Users" !in ini then Failure("Users")
    else if "Webhooks" !in ini then Failure("Webhooks")
    else if "Matrix" !in ini then Failure("Matrix")
    else
      var m := ini["Matrix"];
      assert MatrixReads[0] == "server_url" && MatrixReads[1] == "username" && MatrixReads[2] == "password";
      assert MatrixReads[3] == "token" && MatrixReads[4] == "room_id";
      match FirstAbsent(m, MatrixReads)
      case Some(key) => Failure(key)
      case None =>
        Success(Settings(UserCommands(ini["Users"]), ini["Webhooks"], m["server_url"],
                         m["username"], m["password"], m["token"], m["room_id"], Prefix(m)))
  }

  /** Why `check_config` rejects a configuration. */
  datatype ConfigError =
    | MissingSection(section: string)
    | MissingKey(key: string, section: string)
    | MissingCredentials

  /** `REQUIRED_CONFIG` (lines 35-39), in its iteration order. */
  const RequiredConfig: seq<(string, seq<string>)> :=
    [("Matrix", ["server_url", "room_id"]), ("Users", []), ("Webhooks", [])]

  /** One entry of `REQUIRED_CONFIG` holds: its section exists and has each of its keys. */
  predicate Satisfied(ini: Ini, entry: (string, seq<string>)) {
    entry.0 in ini && forall j :: 0 <= j < |entry.1| ==> entry.1[j] in ini[entry.0]
  }

  /** A reported missing section or key really is missing. */
  predicate Genuine(ini: Ini, e: ConfigError) {
    match e
    case MissingSection(section) => section !in ini
    case MissingKey(key, section) => section in ini && key !in ini[section]
    case MissingCredentials => "Matrix" in ini && !HasCredentials(ini["Matrix"])
  }

  /**
   * The loop of lines 48-53 over `required`: it passes exactly when every entry
   * holds, and otherwise reports a section or key that is really missing.
   */
  function CheckRequired(ini: Ini, required: seq<(string, seq<string>)>): (r: Outcome<ConfigError>)
    ensures r == Pass <==> forall i :: 0 <= i < |required| ==> Satisfied(ini, required[i])
    ensures r.Fail? ==> !r.error.MissingCredentials? && Genuine(ini, r.error)
  {
    if required == [] then Pass
    else
      var (section, keys) := required[0];
      if section !in ini then Fail(MissingSection(section))
      else match FirstAbsent(ini[section], keys)
        case Some(key) => Fail(MissingKey(key, section))
        case None =>
          var r := CheckRequired(ini, required[1..]);
          assert r == Pass ==> forall i :: 0 <= i < |required| ==> Satisfied(ini, required[i]) by {
            if r == Pass {
              forall i | 0 <= i < |required| ensures Satisfied(ini, required[i]) {
                if i > 0 { assert required[i] == required[1..][i - 1]; }
              }
            }
          }
          r
  }

  /** Line 56: a token, or both a username and a password. */
  predicate HasCredentials(matrix: Section) {
    "token" in matrix || ("username" in matrix && "password" in matrix)
  }

  /**
   * `check_config` (lines 47-57): required sections and keys first, then
   * credentials. Every error it raises names something the file really lacks.
   */
  function CheckConfig(ini: Ini): (r: Outcome<ConfigError>)
    ensures r.Fail? ==> Genuine(ini, r.error)
    ensures r == Pass ==> forall i :: 0 <= i < |RequiredConfig| ==> Satisfied(ini, RequiredConfig[i])
  {
    match CheckRequired(ini, RequiredConfig)
    case Fail(e) => Fail(e)
    case Pass =>
      if "Matrix" in ini && !HasCredentials(ini["Matrix"]) then Fail(MissingCredentials)
      else Pass
  }

  /** The three required sections and the two required Matrix keys are all present. */
  predicate RequiredPresent(ini: Ini) {
    && "Matrix" in ini && "Users" in ini && "Webhooks" in ini
    && "server_url" in ini["Matrix"] && "room_id" in ini["Matrix"]
  }

  /** Unrolls the check over `REQUIRED_CONFIG` into its five membership tests. */
  lemma CheckRequiredUnrolled(ini: Ini)
    ensures CheckRequired(ini, RequiredConfig) ==
      if "Matrix" !in ini then Fail(MissingSection("Matrix"))
      else if "server_url" !in ini["Matrix"] then Fail(MissingKey("server_url", "Matrix"))
      else if "room_id" !in ini["Matrix"] then Fail(MissingKey("room_id", "Matrix"))
      else if "Users" !in ini then Fail(MissingSection("Users"))
      else if "Webhooks" !in ini then Fail(MissingSection("Webhooks"))
      else Pass
  {
    var req := RequiredConfig;
    var r1 := req[1..];
    assert |r1| == 2 && r1[0] == ("Users", []) && r1[1] == ("Webhooks", []);
    var r2 := r1[1..];
    assert |r2| == 1 && r2[0] == ("Webhooks", []);
    assert r2[1..] == [];
    assert CheckRequired(ini, r2[1..]) == Pass;
    if "Webhooks" in ini {
      assert FirstAbsent(ini["Webhooks"], []) == None;
    }
    if "Users" in ini {
      assert FirstAbsent(ini["Users"], []) == None;
    }
    assert CheckRequired(ini, r2) == if "Webhooks" !in ini then Fail(MissingSection("Webhooks")) else Pass;
    assert CheckRequired(ini, r1) ==
      if "Users" !in ini then Fail(MissingSection("Users")) else CheckRequired(ini, r2);
    if "Matrix" in ini {
      var keys := req[0].1;
      assert |keys| == 2 && keys[0] == "server_url" && keys[1] == "room_id";
      assert keys[1..][1..] == [];
      var m := ini["Matrix"];
      assert FirstAbsent(m, keys) ==
        if "server_url" !in m then Some("server_url")
        else if "room_id" !in m then Some("room_id") else None;
    }
  }

  /**
   * `check_config` succeeds exactly when the required sections and keys are
   * present and the Matrix section holds a token or a username and a password.
   */
  lemma CheckConfigPassIff(ini: Ini)
    ensures CheckConfig(ini) == Pass <==> RequiredPresent(ini) && HasCredentials(ini["Matrix"])
  {
    CheckRequiredUnrolled(ini);
  }

  /**
   * Which error `check_config` raises: a missing section or key is reported before
   * the credentials are looked at, Matrix first, then its keys, then Users, then Webhooks.
   */
  lemma CheckConfigFailures(ini: Ini)
    ensures CheckConfig(ini) == Fail(MissingCredentials) <==>
              RequiredPresent(ini) && !HasCredentials(ini["Matrix"])
    ensures "Matrix" !in ini ==> CheckConfig(ini) == Fail(MissingSection("Matrix"))
    ensures "Matrix" in ini && "server_url" !in ini["Matrix"] ==>
              CheckConfig(ini) == Fail(MissingKey("server_url", "Matrix"))
    ensures "Matrix" in ini && "server_url" in ini["Matrix"] && "room_id" !in ini["Matrix"] ==>
              CheckConfig(ini) == Fail(MissingKey("room_id", "Matrix"))
    ensures CheckConfig(ini).Fail? && CheckConfig(ini).error.MissingSection? ==>
              CheckConfig(ini).error.section !in ini
  {
    CheckRequiredUnrolled(ini);
  }

  /**
   * Because lines 21-29 read `username`, `password` and `token` with `[]` before
   * line 88 runs `check_config`, a configuration that got that far always passes it.
   */
  lemma LoadedConfigPassesCheck(ini: Ini)
    requires LoadSettings(ini).Success?
    ensures CheckConfig(ini) == Pass
  {
    CheckConfigPassIff(ini);
  }

  /**
   * The converse fails: a token-only Matrix section passes `check_config` but the
   * script never reaches it, since line 24 raises `KeyError('username')` first.
   */
  lemma TokenOnlyConfigIsRejectedEarlier(token: string)
    ensures var ini := map["Matrix" := map["server_url" := "https://m.example", "room_id" := "!r:m.example",
                                          "token" := token],
                           "Users" := map[], "Webhooks" := map[]];
            CheckConfig(ini) == Pass && LoadSettings(ini) == Failure("username")
  {
    var ini := map["Matrix" := map["server_url" := "https://m.example", "room_id" := "!r:m.example",
                                  "token" := token],
                   "Users" := map[], "Webhooks" := map[]];
    CheckConfigPassIff(ini);
    assert FirstAbsent(ini["Matrix"], MatrixReads) == Some("username") by {
      assert MatrixReads[0] == "server_url" && MatrixReads[1..][0] == "username";
    }
  }

  /** How the client logs in (lines 99-102). */
  datatype Login = TokenLogin(token: string) | PasswordLogin(username: string, password: string)

  /** Line 99 tests the token for truth: only a non-empty string selects token login. */
  function LoginMode(s: Settings): (l: Login)
    ensures l.TokenLogin? <==> s.token != ""
  {
    if s.token != "" then TokenLogin(s.token) else PasswordLogin(s.username, s.password)
  }

  /**
   * For a configuration the script loads, the login uses the configured token
   * exactly when that option is non-empty, and the configured username and
   * password otherwise.
   */
  lemma LoginFromConfig(ini: Ini)
    requires LoadSettings(ini).Success?
    ensures var m := ini["Matrix"];
            && (m["token"] != "" <==> LoginMode(LoadSettings(ini).value) == TokenLogin(m["token"]))
            && (m["token"] == "" <==> LoginMode(LoadSettings(ini).value) == PasswordLogin(m["username"], m["password"]))
  {
  }
}
