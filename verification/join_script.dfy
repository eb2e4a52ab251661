/**
  The parameter validation of the web UI's join-script endpoint, `getJoinScript`.

  The script is produced only when every input check passes: the join method
  and token format, the token's existence in the backend, a known proxy, the
  cluster CA, one install mode at most, and in app mode a DNS-1035 app name and
  an app URI drawn from a safe character set. Any failure returns an empty
  script with the error. Rendering the template is an oracle.
 */
module JoinScript {
  import opened Common

  newtype uint8 = x: int | 0 <= x < 256

  /** A join token of the token method is this many random bytes, hex encoded. */
  const TokenLenBytes: nat := 16

  const JoinMethodToken: string := "token"
  const JoinMethodIAM: string := "iam"

  /** Longest DNS-1035 label (section 2.3.4 of RFC 1035). */
  const DNS1035LabelMaxLength: nat := 63

  datatype ScriptSettings = ScriptSettings(
    token: string,
    joinMethod: string,
    appInstallMode: bool,
    appName: string,
    appURI: string,
    databaseInstallMode: bool)

  datatype ScriptError =
    | BadParameter(message: string)
    | NotFound(message: string)
    | InvalidHex
    | Failed(message: string)

  /**
    What `getJoinScript` asks the backend: whether a token exists, the proxies,
    the cluster CA certificate, and the rendered template for accepted settings.
   */
  datatype JoinEnv = JoinEnv(
    tokenExists: string -> bool,
    proxies: Result<seq<string>, string>,
    caCert: Result<string, string>,
    render: ScriptSettings -> string)

  /** Go's `(string, error)` result pair. */
  datatype ScriptResult = ScriptResult(script: string, err: Option<ScriptError>)

  // ---------------------------------------------------------------------------
  // Hex tokens (`hex.DecodeString`, and its inverse `hex.EncodeToString`).

  predicate IsHexDigit(c: char)
  {
    '0' <= c <= '9' || 'a' <= c <= 'f' || 'A' <= c <= 'F'
  }

  function HexValue(c: char): (v: uint8)
    requires IsHexDigit(c)
    ensures v < 16
  {
    if '0' <= c <= '9' then (c as int - '0' as int) as uint8
    else if 'a' <= c <= 'f' then (c as int - 'a' as int + 10) as uint8
    else (c as int - 'A' as int + 10) as uint8
  }

  function HexChar(v: uint8): (c: char)
    requires v < 16
    ensures IsHexDigit(c) && HexValue(c) == v
  {
    if v < 10 then ('0' as int + v as int) as char else ('a' as int + v as int - 10) as char
  }

  /** Decodes pairs of hex digits; fails on an odd length or a non-hex character. */
  function HexDecode(s: string): (r: Option<seq<uint8>>)
    ensures r.Some? <==> |s| % 2 == 0 && forall i :: 0 <= i < |s| ==> IsHexDigit(s[i])
    ensures r.Some? ==> 2 * |r.value| == |s|
    decreases |s|
  {
    if |s| == 0 then Some([])
    else if |s| == 1 then None
    else if !IsHexDigit(s[0]) || !IsHexDigit(s[1]) then None
    else
      assert forall i :: 0 <= i < |s| - 2 ==> s[2..][i] == s[i + 2];
      match HexDecode(s[2..])
      case None => None
      case Some(rest) => Some([HexValue(s[0]) * 16 + HexValue(s[1])] + rest)
  }

  /** Two lower-case hex digits per byte. */
  function HexEncode(b: seq<uint8>): (s: string)
    ensures |s| == 2 * |b|
    ensures forall i :: 0 <= i < |s| ==> IsHexDigit(s[i])
    decreases |b|
  {
    if |b| == 0 then ""
    else [HexChar(b[0] / 16), HexChar(b[0] % 16)] + HexEncode(b[1..])
  }

  lemma {:induction false} HexRoundTrip(b: seq<uint8>)
    ensures HexDecode(HexEncode(b)) == Some(b)
    decreases |b|
  {
    if |b| > 0 {
      HexRoundTrip(b[1..]);
      var s := HexEncode(b);
      assert s[2..] == HexEncode(b[1..]);
      assert HexValue(s[0]) * 16 + HexValue(s[1]) == b[0];
      assert b == [b[0]] + b[1..];
    }
  }

  // ---------------------------------------------------------------------------
  // App name and URI.

  predicate IsLower(c: char)
  {
    'a' <= c <= 'z'
  }

  predicate IsLowerAlnum(c: char)
  {
    IsLower(c) || '0' <= c <= '9'
  }

  predicate IsLabelChar(c: char)
  {
    IsLowerAlnum(c) || c == '-'
  }

  /**
    A DNS-1035 label: at most 63 characters matching `[a-z]([-a-z0-9]*[a-z0-9])?`,
    that is, a lower-case letter first, a letter or digit last, and letters,
    digits and hyphens between.
   */
  predicate IsDNS1035Label(s: string)
  {
    && 0 < |s| <= DNS1035LabelMaxLength
    && IsLower(s[0])
    && IsLowerAlnum(s[|s| - 1])
    && forall i :: 0 <= i < |s| ==> IsLabelChar(s[i])
  }

  /** Two labels joined by a hyphen form a label, length permitting. */
  lemma LabelsJoinWithHyphen(a: string, b: string)
    requires IsDNS1035Label(a) && IsDNS1035Label(b)
    requires |a| + 1 + |b| <= DNS1035LabelMaxLength
    ensures IsDNS1035Label(a + "-" + b)
  {
    var s := a + "-" + b;
    assert forall i :: 0 <= i < |s| ==> s[i] == (if i < |a| then a[i] else if i == |a| then '-' else b[i - |a| - 1]);
  }

  /** A character of the app URI pattern `[-\w/:. ]`. */
  predicate IsAppURIChar(c: char)
  {
    || 'a' <= c <= 'z' || 'A' <= c <= 'Z' || '0' <= c <= '9'
    || c == '_' || c == '-' || c == '/' || c == ':' || c == '.' || c == ' '
  }

  /** The app URI pattern `^[-\w/:. ]+$`. */
  predicate IsAppURI(s: string)
  {
    |s| > 0 && forall i :: 0 <= i < |s| ==> IsAppURIChar(s[i])
  }

  /** Matches a string against the label pattern in one left-to-right pass, as a regular-expression engine would. */
  method ScanDNS1035Label(s: string) returns (ok: bool)
    ensures ok <==> IsDNS1035Label(s)
  {
    if |s| == 0 || |s| > DNS1035LabelMaxLength || !IsLower(s[0]) {
      return false;
    }
    var i := 1;
    while i < |s|
      invariant 1 <= i <= |s|
      invariant forall k :: 0 <= k < i ==> IsLabelChar(s[k])
    {
      if !IsLabelChar(s[i]) {
        return false;
      }
      i := i + 1;
    }
    ok := IsLowerAlnum(s[|s| - 1]);
  }

  /** Matches a string against the app URI pattern in one left-to-right pass. */
  method ScanAppURI(s: string) returns (ok: bool)
    ensures ok <==> IsAppURI(s)
  {
    if |s| == 0 {
      return false;
    }
    var i := 0;
    while i < |s|
      invariant 0 <= i <= |s|
      invariant forall k :: 0 <= k < i ==> IsAppURIChar(s[k])
    {
      if !IsAppURIChar(s[i]) {
        return false;
      }
      i := i + 1;
    }
    return true;
  }

  /** None of the shell metacharacters `"`, backtick and `$` can appear in a valid name or URI. */
  predicate IsShellMeta(c: char)
  {
    c == '"' || c == '`' || c == '$'
  }

  lemma ValidatorsExcludeShellMeta(s: string, c: char)
    requires IsShellMeta(c) && c in s
    ensures !IsDNS1035Label(s) && !IsAppURI(s)
  {
    var i :| 0 <= i < |s| && s[i] == c;
    assert !IsLabelChar(s[i]) && !IsAppURIChar(s[i]);
  }

  // ---------------------------------------------------------------------------
  // getJoinScript

  /** What the join method demands of the token's format. */
  predicate MethodAccepts(s: ScriptSettings)
  {
    || ((s.joinMethod == "" || s.joinMethod == JoinMethodToken)
        && |s.token| == 2 * TokenLenBytes
        && forall i :: 0 <= i < |s.token| ==> IsHexDigit(s.token[i]))
    || s.joinMethod == JoinMethodIAM
  }

  /** The join-method check: a hex token of the right length, an IAM token, or no other method. */
  function CheckJoinMethod(s: ScriptSettings): (err: Option<ScriptError>)
    ensures err.None? <==> MethodAccepts(s)
    ensures err.Some? && (s.joinMethod == "" || s.joinMethod == JoinMethodToken) ==>
              (err.value == InvalidHex <==> HexDecode(s.token).None?)
  {
    if s.joinMethod == "" || s.joinMethod == JoinMethodToken then
      match HexDecode(s.token)
      case None => Some(InvalidHex)
      case Some(bytes) => if |bytes| != TokenLenBytes then Some(BadParameter("invalid token")) else None
    else if s.joinMethod == JoinMethodIAM then None
    else Some(BadParameter("join method is not supported via script"))
  }

  /** The app-mode checks. */
  function CheckApp(s: ScriptSettings): (err: Option<ScriptError>)
    ensures err.None? <==> IsDNS1035Label(s.appName) && IsAppURI(s.appURI)
    ensures err.Some? ==> err.value.BadParameter?
  {
    if !IsDNS1035Label(s.appName) then Some(BadParameter("appName must be a valid DNS subdomain"))
    else if !IsAppURI(s.appURI) then Some(BadParameter("appURI contains invalid characters"))
    else None
  }

  /** The app-mode checks run by scanning: the name first, then the URI, each in one pass. */
  method CheckAppByScanning(s: ScriptSettings) returns (err: Option<ScriptError>)
    ensures err == CheckApp(s)
  {
    var nameOk := ScanDNS1035Label(s.appName);
    if !nameOk {
      return Some(BadParameter("appName must be a valid DNS subdomain"));
    }
    var uriOk := ScanAppURI(s.appURI);
    if !uriOk {
      return Some(BadParameter("appURI contains invalid characters"));
    }
    return None;
  }

  /** When a script is produced, stated check by check. */
  predicate Accepted(s: ScriptSettings, env: JoinEnv)
  {
    && MethodAccepts(s)
    && env.tokenExists(s.token)
    && env.proxies.Ok? && |env.proxies.value| > 0
    && env.caCert.Ok?
    && !(s.databaseInstallMode && s.appInstallMode)
    && (s.appInstallMode ==> IsDNS1035Label(s.appName) && IsAppURI(s.appURI))
  }

  function Fail(e: ScriptError): (r: ScriptResult)
    ensures r.script == "" && r.err == Some(e)
  {
    ScriptResult("", Some(e))
  }

  /** `getJoinScript`. */
  function GetJoinScript(s: ScriptSettings, env: JoinEnv): (r: ScriptResult)
    ensures r.err.Some? ==> r.script == ""
    ensures r.err.None? <==> Accepted(s, env)
    ensures r.err.None? ==> r.script == env.render(s)
  {
    if CheckJoinMethod(s).Some? then Fail(CheckJoinMethod(s).value)
    else if !env.tokenExists(s.token) then Fail(BadParameter("invalid token"))
    else if env.proxies.Err? then Fail(Failed(env.proxies.error))
    else if |env.proxies.value| == 0 then Fail(NotFound("no proxy servers found"))
    else if env.caCert.Err? then Fail(Failed(env.caCert.error))
    else if s.databaseInstallMode && s.appInstallMode then
      Fail(BadParameter("database and app install modes are mutually exclusive"))
    else if s.appInstallMode && CheckApp(s).Some? then Fail(CheckApp(s).value)
    else ScriptResult(env.render(s), None)
  }

  /** Once the token and cluster checks pass, the result depends only on the install settings. */
  predicate ClusterChecksPass(s: ScriptSettings, env: JoinEnv)
  {
    && MethodAccepts(s)
    && env.tokenExists(s.token)
    && env.proxies.Ok? && |env.proxies.value| > 0
    && env.caCert.Ok?
  }

  /** In app mode an app name or URI holding `"`, a backtick or `$` yields an error and no script. */
  lemma ShellMetaRejected(s: ScriptSettings, env: JoinEnv, c: char)
    requires s.appInstallMode
    requires IsShellMeta(c) && (c in s.appName || c in s.appURI)
    ensures GetJoinScript(s, env).err.Some? && GetJoinScript(s, env).script == ""
  {
    if c in s.appName {
      ValidatorsExcludeShellMeta(s.appName, c);
    } else {
      ValidatorsExcludeShellMeta(s.appURI, c);
    }
  }

  /** An empty app name or URI in app mode is a bad parameter once the cluster checks pass. */
  lemma EmptyAppFieldIsBadParameter(s: ScriptSettings, env: JoinEnv)
    requires s.appInstallMode && !s.databaseInstallMode
    requires s.appName == "" || s.appURI == ""
    requires ClusterChecksPass(s, env)
    ensures var r := GetJoinScript(s, env);
      r.err.Some? && r.err.value.BadParameter? && r.script == ""
  {
  }

  /** Asking for both the database and the app install is an error with no script. */
  lemma BothInstallModesRejected(s: ScriptSettings, env: JoinEnv)
    requires s.appInstallMode && s.databaseInstallMode
    ensures GetJoinScript(s, env).err.Some? && GetJoinScript(s, env).script == ""
  {
  }

  /** A token-method token that is the hex form of anything but 16 bytes is refused. */
  lemma WrongTokenLengthRejected(s: ScriptSettings, env: JoinEnv, raw: seq<uint8>)
    requires s.joinMethod == "" || s.joinMethod == JoinMethodToken
    requires s.token == HexEncode(raw) && |raw| != TokenLenBytes
    ensures GetJoinScript(s, env).err == Some(BadParameter("invalid token"))
  {
    HexRoundTrip(raw);
  }

  /** A token that is the hex form of 16 bytes passes the format check, and the rest decides. */
  lemma RightTokenLengthAccepted(s: ScriptSettings, raw: seq<uint8>)
    requires s.joinMethod == "" || s.joinMethod == JoinMethodToken
    requires s.token == HexEncode(raw) && |raw| == TokenLenBytes
    ensures MethodAccepts(s)
  {
  }

  /** Outside app mode the app name and URI are never looked at. */
  lemma AppFieldsIgnoredOutsideAppMode(s: ScriptSettings, env: JoinEnv, name: string, uri: string)
    requires !s.appInstallMode
    ensures GetJoinScript(s, env).err == GetJoinScript(s.(appName := name, appURI := uri), env).err
  {
  }
}
