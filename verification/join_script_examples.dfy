/**
  The table-driven cases of the join-script tests, proved about the model with
  a backend that knows exactly the tests' tokens and one proxy.
 */
module JoinScriptExamples {
  import opened Common
  import opened JoinScript

  const ValidToken: string := "f18da1c9f6630a51e8daf121e7451daa"
  const ValidIAMToken: string := "valid-iam-token"

  function TestEnv(): JoinEnv
  {
    JoinEnv((t: string) => t == ValidToken || t == ValidIAMToken,
            Ok(["test-host:12345678"]), Ok("cluster CA"), (s: ScriptSettings) => "script")
  }

  function NodeSettings(token: string, joinMethod: string): ScriptSettings
  {
    ScriptSettings(token, joinMethod, false, "", "", false)
  }

  function AppSettings(name: string, uri: string): ScriptSettings
  {
    ScriptSettings(ValidToken, "", true, name, uri, false)
  }

  /** The test's valid token is 32 hex digits, that is, 16 bytes. */
  lemma ValidTokenIsWellFormed(joinMethod: string)
    requires joinMethod == "" || joinMethod == JoinMethodToken
    ensures MethodAccepts(ScriptSettings(ValidToken, joinMethod, false, "", "", false))
    ensures forall name, uri :: MethodAccepts(ScriptSettings(ValidToken, joinMethod, true, name, uri, false))
  {
    assert forall i :: 0 <= i < |ValidToken| ==> IsHexDigit(ValidToken[i]);
  }

  lemma ZeroValueRejected()
    ensures GetJoinScript(NodeSettings("", ""), TestEnv()) == ScriptResult("", Some(BadParameter("invalid token")))
  {
  }

  /** The short-token and unknown-token cases both hex-encode a string that is not 16 bytes long. */
  lemma HexOfWrongLengthRejected(raw: seq<uint8>)
    requires |raw| == 30 || |raw| == 32
    ensures GetJoinScript(NodeSettings(HexEncode(raw), ""), TestEnv()).err.Some?
    ensures GetJoinScript(NodeSettings(HexEncode(raw), ""), TestEnv()).script == ""
  {
    WrongTokenLengthRejected(NodeSettings(HexEncode(raw), ""), TestEnv(), raw);
  }

  lemma ValidTokenAccepted()
    ensures GetJoinScript(NodeSettings(ValidToken, ""), TestEnv()) == ScriptResult("script", None)
  {
    ValidTokenIsWellFormed("");
  }

  lemma InvalidIAMRejected(token: string)
    requires token != ValidToken && token != ValidIAMToken
    ensures GetJoinScript(NodeSettings(token, JoinMethodIAM), TestEnv()) == ScriptResult("", Some(BadParameter("invalid token")))
  {
  }

  lemma ValidIAMAccepted()
    ensures GetJoinScript(NodeSettings(ValidIAMToken, JoinMethodIAM), TestEnv()).err.None?
  {
  }

  lemma EmptyAppNameRejected()
    ensures var r := GetJoinScript(AppSettings("", "127.0.0.1:0"), TestEnv());
      r.script == "" && r.err.Some? && r.err.value.BadParameter?
  {
    ValidTokenIsWellFormed("");
  }

  lemma EmptyAppURIRejected()
    ensures var r := GetJoinScript(AppSettings("test-app", ""), TestEnv());
      r.script == "" && r.err.Some? && r.err.value.BadParameter?
  {
    ValidTokenIsWellFormed("");
  }

  lemma NodeOnlyWithBlankAppFieldsAccepted()
    ensures GetJoinScript(NodeSettings(ValidToken, ""), TestEnv()).err.None?
  {
    ValidTokenIsWellFormed("");
  }

  lemma AppSettingsAccepted()
    ensures GetJoinScript(AppSettings("test-app123", "http://localhost:12345/landing page__"), TestEnv()).err.None?
  {
    ValidTokenIsWellFormed("");
    assert IsDNS1035Label("test-app123");
    assert IsAppURI("http://localhost:12345/landing page__");
  }

  /** No script, and an error. */
  predicate Refused(r: ScriptResult)
  {
    r.err.Some? && r.script == ""
  }

  lemma ShellMetaInAppFieldsRejected()
    ensures Refused(GetJoinScript(AppSettings("ab\"cd", "https://1.2.3.4:54321"), TestEnv()))
    ensures Refused(GetJoinScript(AppSettings("abcd", "https://1.2.3.4:54321/x\"y\"z"), TestEnv()))
    ensures Refused(GetJoinScript(AppSettings("ab`whoami`cd", "https://1.2.3.4:54321"), TestEnv()))
    ensures Refused(GetJoinScript(AppSettings("abcd", "https://1.2.3.4:54321/`whoami`"), TestEnv()))
    ensures Refused(GetJoinScript(AppSettings("ab$HOME", "https://1.2.3.4:54321"), TestEnv()))
    ensures Refused(GetJoinScript(AppSettings("abcd", "https://1.2.3.4:54321/$HOME"), TestEnv()))
  {
    ShellMetaRejected(AppSettings("ab\"cd", "https://1.2.3.4:54321"), TestEnv(), '"');
    ShellMetaRejected(AppSettings("abcd", "https://1.2.3.4:54321/x\"y\"z"), TestEnv(), '"');
    ShellMetaRejected(AppSettings("ab`whoami`cd", "https://1.2.3.4:54321"), TestEnv(), '`');
    ShellMetaRejected(AppSettings("abcd", "https://1.2.3.4:54321/`whoami`"), TestEnv(), '`');
    ShellMetaRejected(AppSettings("ab$HOME", "https://1.2.3.4:54321"), TestEnv(), '$');
    ShellMetaRejected(AppSettings("abcd", "https://1.2.3.4:54321/$HOME"), TestEnv(), '$');
  }

  lemma DatabaseModeAccepted()
    ensures GetJoinScript(ScriptSettings(ValidToken, "", false, "", "", true), TestEnv()) == ScriptResult("script", None)
  {
    ValidTokenIsWellFormed("");
  }

  lemma TwoInstallMethodsRejected()
    ensures GetJoinScript(ScriptSettings(ValidToken, "", true, "", "", true), TestEnv()).err.Some?
  {
  }
}
