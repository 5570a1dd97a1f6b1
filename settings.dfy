/**
 * Configuration loading (`loadConfig`, `getEnvWithDefault`). The process
 * environment is a map; a variable that is absent reads as "", exactly as
 * `os.Getenv` reports it.
 */
module Settings {
  import opened Wrappers
  import opened Strings

  type Env = map<string, string>

  /** The service's configuration, read once at startup. */
  datatype Config = Config(
    port: string,
    emailFrom: string,
    emailPassword: string,
    emailTo: seq<string>,
    smtpHost: string,
    smtpPort: string)

  /** `os.Getenv`: an unset variable reads as the empty string. */
  function Getenv(env: Env, key: string): (v: string)
    ensures key !in env ==> v == ""
    ensures key in env ==> v == env[key]
  {
    if key in env then env[key] else ""
  }

  /** The variables that must be set, in the order they are checked. */
  const RequiredEnvVars: seq<string> :=
    ["EMAIL_FROM", "EMAIL_PASSWORD", "EMAIL_TO", "SMTP_HOST", "SMTP_PORT"]

  /** The listener port used when PORT is unset or empty. */
  const DefaultPort: string := "3333"

  /** The error `loadConfig` returns for a missing variable. */
  function MissingVarError(name: string): string
  {
    "required environment variable " + name + " is not set"
  }

  /** `getEnvWithDefault`: the variable's value, or the default if it is empty. */
  function GetEnvWithDefault(env: Env, key: string, default: string): (v: string)
    ensures Getenv(env, key) != "" ==> v == Getenv(env, key)
    ensures Getenv(env, key) == "" ==> v == default
    ensures v == "" <==> Getenv(env, key) == "" && default == ""
  {
    var value := Getenv(env, key);
    if value == "" then default else value
  }

  /**
   * The recipient list made from EMAIL_TO: its comma-separated pieces,
   * each with surrounding whitespace trimmed.
   */
  function Recipients(emailTo: string): (to: seq<string>)
  {
    var parts := Split(emailTo, ',');
    seq(|parts|, i requires 0 <= i < |parts| => TrimSpace(parts[i]))
  }

  /** What a successfully loaded configuration guarantees. */
  predicate Valid(cfg: Config)
  {
    && cfg.port != ""
    && cfg.emailFrom != ""
    && cfg.emailPassword != ""
    && |cfg.emailTo| >= 1
    && cfg.smtpHost != ""
    && cfg.smtpPort != ""
  }

  /** RequiredEnvVars[k] is empty and every variable checked before it is set. */
  predicate FirstMissing(env: Env, k: int)
  {
    && 0 <= k < |RequiredEnvVars|
    && Getenv(env, RequiredEnvVars[k]) == ""
    && forall j :: 0 <= j < k ==> Getenv(env, RequiredEnvVars[j]) != ""
  }

  /**
   * `loadConfig`: fails with the first required variable, in check order,
   * whose value is empty; otherwise builds the configuration, trimming the
   * recipient list in place.
   */
  method LoadConfig(env: Env) returns (r: Result<Config, string>)
    ensures r.Failure? <==> exists k :: 0 <= k < |RequiredEnvVars| && Getenv(env, RequiredEnvVars[k]) == ""
    ensures r.Failure? ==> exists k :: FirstMissing(env, k) && r.error == MissingVarError(RequiredEnvVars[k])
    ensures r.Success? ==> r.value == Config(
      GetEnvWithDefault(env, "PORT", DefaultPort),
      Getenv(env, "EMAIL_FROM"),
      Getenv(env, "EMAIL_PASSWORD"),
      Recipients(Getenv(env, "EMAIL_TO")),
      Getenv(env, "SMTP_HOST"),
      Getenv(env, "SMTP_PORT"))
    ensures r.Success? ==> Valid(r.value)
  {
    for k := 0 to |RequiredEnvVars|
      invariant forall j :: 0 <= j < k ==> Getenv(env, RequiredEnvVars[j]) != ""
    {
      var name := RequiredEnvVars[k];
      if Getenv(env, name) == "" {
        return Failure(MissingVarError(name));
      }
    }

    RequiredAreSet(env);
    var emailToList := ParseRecipients(Getenv(env, "EMAIL_TO"));

    r := Success(Config(
      GetEnvWithDefault(env, "PORT", DefaultPort),
      Getenv(env, "EMAIL_FROM"),
      Getenv(env, "EMAIL_PASSWORD"),
      emailToList,
      Getenv(env, "SMTP_HOST"),
      Getenv(env, "SMTP_PORT")));
  }

  /** Once every required variable has passed the check, each configuration field they feed is non-empty. */
  lemma {:induction false} RequiredAreSet(env: Env)
    requires forall j :: 0 <= j < |RequiredEnvVars| ==> Getenv(env, RequiredEnvVars[j]) != ""
    ensures Getenv(env, "EMAIL_FROM") != "" && Getenv(env, "EMAIL_PASSWORD") != ""
    ensures Getenv(env, "SMTP_HOST") != "" && Getenv(env, "SMTP_PORT") != ""
  {
    assert Getenv(env, RequiredEnvVars[0]) != "";
    assert Getenv(env, RequiredEnvVars[1]) != "";
    assert Getenv(env, RequiredEnvVars[3]) != "";
    assert Getenv(env, RequiredEnvVars[4]) != "";
  }

  /** EMAIL_TO split at every comma, each piece then trimmed in place. */
  method ParseRecipients(emailTo: string) returns (list: seq<string>)
    ensures list == Recipients(emailTo)
  {
    var parts := Split(emailTo, ',');
    var emailToList := new string[|parts|](i requires 0 <= i < |parts| => parts[i]);
    assert emailToList[..] == parts;
    TrimEach(emailToList);
    list := emailToList[..];
    assert |list| == |parts| && forall k :: 0 <= k < |list| ==> list[k] == Recipients(emailTo)[k];
  }

  /** The loop trimming every entry of the recipient list in place. */
  method TrimEach(list: array<string>)
    modifies list
    ensures forall k :: 0 <= k < list.Length ==> list[k] == TrimSpace(old(list[k]))
  {
    for i := 0 to list.Length
      invariant forall k :: 0 <= k < i ==> list[k] == TrimSpace(old(list[k]))
      invariant forall k :: i <= k < list.Length ==> list[k] == old(list[k])
    {
      list[i] := TrimSpace(list[i]);
    }
  }

  /**
   * EMAIL_TO with n commas gives n + 1 recipients, the i-th being the
   * trimmed i-th piece; order and duplicates are kept.
   */
  lemma {:induction false} RecipientsShape(emailTo: string)
    ensures var to := Recipients(emailTo);
      |to| == Count(emailTo, ',') + 1
      && forall i :: 0 <= i < |to| ==> to[i] == TrimSpace(Split(emailTo, ',')[i])
  {
  }

  /** No recipient contains a comma. */
  lemma {:induction false} RecipientsHaveNoComma(emailTo: string)
    ensures forall i :: 0 <= i < |Recipients(emailTo)| ==> ',' !in Recipients(emailTo)[i]
  {
    var parts := Split(emailTo, ',');
    forall i | 0 <= i < |parts| ensures ',' !in Recipients(emailTo)[i] {
      TrimSpaceKeepsCharacters(parts[i], ',');
    }
  }

  /** Empty recipients are kept: "a,,b" has an empty middle entry. */
  lemma {:induction false} EmptyMiddleRecipientKept()
    ensures Recipients("a,,b") == ["a", "", "b"]
  {
    SplitTwoCommas();
    RecipientsOfPieces("a,,b", ["a", "", "b"]);
  }

  /** When EMAIL_TO splits into pieces that are already trimmed, the recipients are those pieces. */
  lemma {:induction false} RecipientsOfPieces(emailTo: string, pieces: seq<string>)
    requires Split(emailTo, ',') == pieces
    requires forall i :: 0 <= i < |pieces| ==> NoSpaceAtEnds(pieces[i])
    ensures Recipients(emailTo) == pieces
  {
    forall i | 0 <= i < |pieces| ensures TrimSpace(pieces[i]) == pieces[i] {
      var p := pieces[i];
      TrimSpaceUnique(p, 0, |p|);
      assert p[0..|p|] == p;
    }
  }

  lemma {:induction false} SplitTwoCommas()
    ensures Split("a,,b", ',') == ["a", "", "b"]
  {
    SplitWithoutSeparator("b", ',');
    SplitAtFirst("", ',', "b");
    assert "" + [','] + "b" == ",b";
    SplitAtFirst("a", ',', ",b");
    assert "a" + [','] + ",b" == "a,,b";
  }

  /** A blank EMAIL_TO passes the required check but yields one empty recipient. */
  lemma {:induction false} BlankRecipientListKept()
    ensures Recipients("  ") == [""]
  {
    SplitWithoutSeparator("  ", ',');
    TrimSpaceUnique("  ", 2, 2);
  }
}
