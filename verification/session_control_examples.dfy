/**
  The table-driven cases of the session controller's admission test, proved
  about the model with the same configuration and identity values.
 */
module SessionControlExamples {
  import opened Common
  import Strings
  import opened SessionControl

  function TestConfig(component: Component, build: BuildType, deviceTrust: DeviceTrustMode): ControllerConfig
  {
    ControllerConfig(AuthPreference(LockingModeStrict, PolicyNone, deviceTrust), component, "1234", build)
  }

  /** The user "alpaca" logging in as "alpaca" with the given certificate, role key policy and limit. */
  function Alpaca(cert: Certificate, keyPolicy: KeyPolicy, maxConnections: int): Identity
  {
    Identity("alpaca", "alpaca", cert, AccessChecker(None, Some(keyPolicy), maxConnections, []))
  }

  const NoneKeyCert: Certificate := Certificate(map[CertExtensionPrivateKeyPolicy := "none"])

  const NoLock: LockOracle := (mode: LockingMode, targets: seq<LockTarget>) => None

  const TestLease: Lease := Lease(SemaphoreKindConnection, "test", "1")

  lemma ProxyAccessAllowed(acquire: SemaphoreOracle)
    ensures var d := AcquireSessionContext(TestConfig(ComponentProxy, BuildOSS, DeviceTrustOff),
                                           Alpaca(NoneKeyCert, PolicyNone, 1), "127.0.0.1:1", "127.0.0.1:2",
                                           NoLock, acquire);
      d.outcome.Admitted? && d.events == [] && d.acquireRequests == []
  {
  }

  lemma NodeAccessAllowed()
    ensures var d := AcquireSessionContext(TestConfig(ComponentNode, BuildOSS, DeviceTrustOff),
                                           Alpaca(NoneKeyCert, PolicyNone, 1), "127.0.0.1:1", "127.0.0.1:2",
                                           NoLock, (r: AcquireRequest) => Acquired(TestLease));
      d.outcome == Admitted(SessionContext(Alpaca(NoneKeyCert, PolicyNone, 1), Some(TestLease))) && d.events == []
  {
  }

  lemma RejectedDueToLock(acquire: SemaphoreOracle)
    ensures var d := AcquireSessionContext(TestConfig(ComponentNode, BuildOSS, DeviceTrustOff),
                                           Alpaca(NoneKeyCert, PolicyNone, 1), "127.0.0.1:1", "127.0.0.1:2",
                                           (mode: LockingMode, targets: seq<LockTarget>) => Some("lock in force"),
                                           acquire);
      && d.outcome == AccessDenied("lock in force")
      && |d.events| == 1
      && d.events[0].eventType == SessionRejectedEvent
      && d.events[0].code == SessionRejectedCode
      && d.events[0].protocol == EventProtocolSSH
      && d.events[0].reason == "lock in force"
  {
  }

  lemma RejectedDueToKeyPolicy(acquire: SemaphoreOracle)
    ensures var d := AcquireSessionContext(TestConfig(ComponentNode, BuildOSS, DeviceTrustOff),
                                           Alpaca(NoneKeyCert, PolicyHardwareKey, 1), "127.0.0.1:1", "127.0.0.1:2",
                                           NoLock, acquire);
      d.outcome.BadParameter? && d.events == []
  {
  }

  lemma RejectedDueToConnectionLimit()
    ensures var d := AcquireSessionContext(TestConfig(ComponentNode, BuildOSS, DeviceTrustOff),
                                           Alpaca(NoneKeyCert, PolicyNone, 1), "127.0.0.1:1", "127.0.0.1:2",
                                           NoLock, (r: AcquireRequest) => LimitExceeded);
      && d.outcome.AccessDenied?
      && |d.events| == 1
      && d.events[0].eventType == SessionRejectedEvent
      && d.events[0].code == SessionRejectedCode
      && d.events[0].protocol == EventProtocolSSH
      && d.events[0].reason == SessionRejectedEvent
      && d.events[0].maximum == 1
  {
  }

  lemma NoConnectionLimitSkipsSemaphore()
    ensures var d := AcquireSessionContext(TestConfig(ComponentNode, BuildOSS, DeviceTrustOff),
                                           Alpaca(NoneKeyCert, PolicyNone, 0), "127.0.0.1:1", "127.0.0.1:2",
                                           NoLock, (r: AcquireRequest) => LimitExceeded);
      d.outcome.Admitted? && d.events == []
  {
  }

  /** The minimal identity's certificate carries no extensions at all. */
  const BareCert: Certificate := Certificate(map[])

  lemma DeviceExtensionsNotEnforcedForOSS(acquire: SemaphoreOracle)
    ensures AcquireSessionContext(TestConfig(ComponentNode, BuildOSS, DeviceTrustRequired),
                                  Alpaca(BareCert, PolicyNone, 0), "127.0.0.1:1", "127.0.0.1:2",
                                  NoLock, acquire).outcome.Admitted?
  {
  }

  lemma DeviceExtensionsEnforcedForEnterprise(acquire: SemaphoreOracle)
    ensures var d := AcquireSessionContext(TestConfig(ComponentNode, BuildEnterprise, DeviceTrustRequired),
                                           Alpaca(BareCert, PolicyNone, 0), "127.0.0.1:1", "127.0.0.1:2",
                                           NoLock, acquire);
      d.outcome.AccessDenied? && Strings.Contains(d.outcome.message, "device")
  {
  }

  lemma DeviceExtensionsValidForEnterprise(acquire: SemaphoreOracle)
    ensures AcquireSessionContext(TestConfig(ComponentNode, BuildEnterprise, DeviceTrustRequired),
                                  Alpaca(Certificate(map[CertExtensionDeviceID := "deviceid1",
                                                         CertExtensionDeviceAssetTag := "assettag1",
                                                         CertExtensionDeviceCredentialID := "credentialid1"]),
                                         PolicyNone, 0),
                                  "127.0.0.1:1", "127.0.0.1:2", NoLock, acquire).outcome.Admitted?
  {
  }
}
