/**
  Session admission: the decision `SessionController.AcquireSessionContext`
  takes before an SSH session may start on a node or proxy.

  The collaborators become oracles: the lock enforcer is a function from the
  locking mode and lock targets to an optional lock message, and the semaphore
  service is a function from an acquire request to its result. The decision
  records the audit events it emits and the acquire requests it sends, so that
  "no event" and "never consulted" are statements about the result.

  The checks run in the order lock, private-key policy, device trust,
  connection limit, and the first rejection ends the decision.
 */
module SessionControl {
  import opened Common
  import Strings

  // ---------------------------------------------------------------------------
  // Constants of the audit schema, certificate extensions and semaphores.

  const SessionRejectedEvent: string := "session.rejected"
  const SessionRejectedCode: string := "T1006W"
  const EventProtocolSSH: string := "ssh"
  const SemaphoreKindConnection: string := "connection"

  const CertExtensionPrivateKeyPolicy: string := "private-key-policy"
  const CertExtensionDeviceID: string := "teleport-device-id"
  const CertExtensionDeviceAssetTag: string := "teleport-device-asset-tag"
  const CertExtensionDeviceCredentialID: string := "teleport-device-credential-id"

  /** The access-denied message of a failed device-trust check. */
  const TrustedDeviceRequired: string := "trusted device required"

  // ---------------------------------------------------------------------------
  // Data model.

  datatype BuildType = BuildOSS | BuildEnterprise

  datatype Component = ComponentNode | ComponentProxy

  datatype LockingMode = LockingModeBestEffort | LockingModeStrict

  /** Cluster device-trust mode; an unset mode reads as off. */
  datatype DeviceTrustMode = DeviceTrustOff | DeviceTrustOptional | DeviceTrustRequired

  datatype KeyPolicy = PolicyNone | PolicyHardwareKey | PolicyHardwareKeyTouch

  /** The cluster's authentication preference, read fresh for every decision. */
  datatype AuthPreference = AuthPreference(
    lockingMode: LockingMode,
    privateKeyPolicy: KeyPolicy,
    deviceTrustMode: DeviceTrustMode)

  /** The controller's configuration, including the build it runs in. */
  datatype ControllerConfig = ControllerConfig(
    authPreference: AuthPreference,
    component: Component,
    serverID: string,
    build: BuildType)

  datatype Certificate = Certificate(extensions: map<string, string>)

  /** The role-derived overrides; `None` falls back to the cluster setting. */
  datatype AccessChecker = AccessChecker(
    lockingMode: Option<LockingMode>,
    privateKeyPolicy: Option<KeyPolicy>,
    maxConnections: int,
    roleNames: seq<string>)

  datatype Identity = Identity(
    teleportUser: string,
    login: string,
    certificate: Certificate,
    accessChecker: AccessChecker)

  datatype LockTarget =
    | LockTargetUser(user: string)
    | LockTargetLogin(login: string)
    | LockTargetNode(node: string)
    | LockTargetRole(role: string)

  datatype Lease = Lease(kind: string, name: string, leaseID: string)

  datatype AcquireRequest = AcquireRequest(kind: string, name: string, maxLeases: int)

  /** What the semaphore service answers; limit-exceeded is told apart from every other failure. */
  datatype AcquireResult = Acquired(lease: Lease) | LimitExceeded | AcquireFailed(message: string)

  /** The `SessionReject` audit event. */
  datatype SessionReject = SessionReject(
    eventType: string,
    code: string,
    protocol: string,
    user: string,
    login: string,
    serverID: string,
    localAddr: string,
    remoteAddr: string,
    reason: string,
    maximum: int)

  /** The execution context handed back on admission, holding the lease if one was taken. */
  datatype SessionContext = SessionContext(identity: Identity, lease: Option<Lease>)

  datatype Outcome =
    | Admitted(context: SessionContext)
    | AccessDenied(message: string)
    | BadParameter(message: string)
    | Fatal(message: string)

  datatype Decision = Decision(
    outcome: Outcome,
    events: seq<SessionReject>,
    acquireRequests: seq<AcquireRequest>)

  type LockOracle = (LockingMode, seq<LockTarget>) -> Option<string>

  type SemaphoreOracle = AcquireRequest -> AcquireResult

  // ---------------------------------------------------------------------------
  // The individual checks.

  function EffectiveLockingMode(cfg: ControllerConfig, id: Identity): LockingMode
  {
    id.accessChecker.lockingMode.GetOr(cfg.authPreference.lockingMode)
  }

  /** The identity's user, login, the server and each role may be locked. */
  function LockTargets(cfg: ControllerConfig, id: Identity): (targets: seq<LockTarget>)
    ensures LockTargetUser(id.teleportUser) in targets
    ensures LockTargetLogin(id.login) in targets
    ensures LockTargetNode(cfg.serverID) in targets
    ensures forall r :: r in id.accessChecker.roleNames ==> LockTargetRole(r) in targets
  {
    var roles := id.accessChecker.roleNames;
    var roleTargets := seq(|roles|, i requires 0 <= i < |roles| => LockTargetRole(roles[i]));
    assert forall i :: 0 <= i < |roles| ==> roleTargets[i] == LockTargetRole(roles[i]);
    [LockTargetUser(id.teleportUser), LockTargetLogin(id.login), LockTargetNode(cfg.serverID)] + roleTargets
  }

  function EffectiveKeyPolicy(cfg: ControllerConfig, id: Identity): KeyPolicy
  {
    id.accessChecker.privateKeyPolicy.GetOr(cfg.authPreference.privateKeyPolicy)
  }

  function PolicyName(p: KeyPolicy): string
  {
    match p
    case PolicyNone => "none"
    case PolicyHardwareKey => "hardware_key"
    case PolicyHardwareKeyTouch => "hardware_key_touch"
  }

  /** The key-policy extension of the certificate, empty when absent. */
  function CertKeyPolicy(cert: Certificate): string
  {
    if CertExtensionPrivateKeyPolicy in cert.extensions then cert.extensions[CertExtensionPrivateKeyPolicy] else ""
  }

  function PolicyRank(p: KeyPolicy): nat
  {
    match p
    case PolicyNone => 0
    case PolicyHardwareKey => 1
    case PolicyHardwareKeyTouch => 2
  }

  /**
   * Whether a certificate whose key-policy extension reads `certPolicy` meets
   * `required`. Policies form a chain (none < hardware_key < hardware_key_touch):
   * a certificate naming a policy meets a requirement iff its own policy is at
   * least as strong, and an extension naming no known policy meets only "none".
   */
  predicate SatisfiesPolicy(required: KeyPolicy, certPolicy: string): (met: bool)
    ensures forall held: KeyPolicy :: certPolicy == PolicyName(held) ==>
      (met <==> PolicyRank(held) >= PolicyRank(required))
    ensures (forall p: KeyPolicy :: certPolicy != PolicyName(p)) ==> (met <==> required == PolicyNone)
  {
    assert PolicyName(PolicyHardwareKey) == "hardware_key";
    assert PolicyName(PolicyHardwareKeyTouch) == "hardware_key_touch";
    match required
    case PolicyNone => true
    case PolicyHardwareKey => certPolicy == "hardware_key" || certPolicy == "hardware_key_touch"
    case PolicyHardwareKeyTouch => certPolicy == "hardware_key_touch"
  }

  function PolicyErrorMessage(required: KeyPolicy): string
  {
    "private key policy not met: " + PolicyName(required)
  }

  predicate DeviceTrustEnforced(cfg: ControllerConfig)
  {
    cfg.build == BuildEnterprise && cfg.authPreference.deviceTrustMode == DeviceTrustRequired
  }

  predicate HasExtension(cert: Certificate, name: string)
  {
    name in cert.extensions && cert.extensions[name] != ""
  }

  predicate HasDeviceExtensions(cert: Certificate)
  {
    && HasExtension(cert, CertExtensionDeviceID)
    && HasExtension(cert, CertExtensionDeviceAssetTag)
    && HasExtension(cert, CertExtensionDeviceCredentialID)
  }

  /**
    The device-trust check: the error message, if the certificate fails it.
    Only an Enterprise build with the mode set to required enforces it.
   */
  function VerifyDeviceTrust(cfg: ControllerConfig, cert: Certificate): (err: Option<string>)
    ensures err.Some? <==> DeviceTrustEnforced(cfg) && !HasDeviceExtensions(cert)
    ensures err.Some? ==> Strings.Contains(err.value, "device")
  {
    if cfg.build != BuildEnterprise then None
    else if cfg.authPreference.deviceTrustMode != DeviceTrustRequired then None
    else if HasDeviceExtensions(cert) then None
    else
      assert Strings.OccursAt(TrustedDeviceRequired, "device", 8);
      Some(TrustedDeviceRequired)
  }

  /** The connection limit is enforced on nodes, and only for a positive maximum. */
  predicate LimitApplies(cfg: ControllerConfig, id: Identity)
  {
    cfg.component == ComponentNode && id.accessChecker.maxConnections > 0
  }

  function ConnectionRequest(id: Identity): AcquireRequest
  {
    AcquireRequest(SemaphoreKindConnection, id.teleportUser, id.accessChecker.maxConnections)
  }

  function TooManyConnectionsMessage(user: string, max: nat): string
  {
    "too many concurrent ssh connections for user \"" + user + "\" (max=" + Strings.Decimal(max) + ")"
  }

  function RejectEvent(cfg: ControllerConfig, id: Identity, localAddr: string, remoteAddr: string,
                       reason: string, maximum: int): (e: SessionReject)
    ensures e.eventType == SessionRejectedEvent && e.code == SessionRejectedCode
    ensures e.protocol == EventProtocolSSH
    ensures e.reason == reason && e.maximum == maximum
    ensures e.user == id.teleportUser && e.serverID == cfg.serverID
  {
    SessionReject(SessionRejectedEvent, SessionRejectedCode, EventProtocolSSH,
                  id.teleportUser, id.login, cfg.serverID, localAddr, remoteAddr, reason, maximum)
  }

  // ---------------------------------------------------------------------------
  // The admission decision.

  /** Every check before the connection limit passes. */
  predicate PolicyChecksPass(cfg: ControllerConfig, id: Identity, lockCheck: LockOracle)
  {
    && lockCheck(EffectiveLockingMode(cfg, id), LockTargets(cfg, id)).None?
    && SatisfiesPolicy(EffectiveKeyPolicy(cfg, id), CertKeyPolicy(id.certificate))
    && !(DeviceTrustEnforced(cfg) && !HasDeviceExtensions(id.certificate))
  }

  /** When a session may start, stated check by check. */
  predicate Admissible(cfg: ControllerConfig, id: Identity, lockCheck: LockOracle, acquire: SemaphoreOracle)
  {
    && PolicyChecksPass(cfg, id, lockCheck)
    && (LimitApplies(cfg, id) ==> acquire(ConnectionRequest(id)).Acquired?)
  }

  /** A rejection that is audited: a lock, or the connection limit. */
  predicate AuditedRejection(cfg: ControllerConfig, id: Identity, lockCheck: LockOracle, acquire: SemaphoreOracle)
  {
    || lockCheck(EffectiveLockingMode(cfg, id), LockTargets(cfg, id)).Some?
    || (PolicyChecksPass(cfg, id, lockCheck) && LimitApplies(cfg, id)
        && acquire(ConnectionRequest(id)) == LimitExceeded)
  }

  /** `SessionController.AcquireSessionContext`. */
  function AcquireSessionContext(cfg: ControllerConfig, id: Identity, localAddr: string, remoteAddr: string,
                                 lockCheck: LockOracle, acquire: SemaphoreOracle): (d: Decision)
    ensures d.outcome.Admitted? <==> Admissible(cfg, id, lockCheck, acquire)
    ensures d.outcome.Admitted? ==> d.outcome.context.identity == id
    ensures |d.events| <= 1
    ensures d.events != [] <==> AuditedRejection(cfg, id, lockCheck, acquire)
    ensures forall e :: e in d.events ==>
              e.eventType == SessionRejectedEvent && e.code == SessionRejectedCode && e.protocol == EventProtocolSSH
    // the semaphore is asked at most once, and only after every policy check passed
    ensures d.acquireRequests == [] || d.acquireRequests == [ConnectionRequest(id)]
    ensures d.acquireRequests != [] <==> PolicyChecksPass(cfg, id, lockCheck) && LimitApplies(cfg, id)
    // a lease is held exactly when the semaphore granted one to an admitted session
    ensures d.outcome.Admitted? && d.outcome.context.lease.Some? <==>
              d.acquireRequests != [] && acquire(ConnectionRequest(id)).Acquired?
    ensures d.outcome.Admitted? && d.outcome.context.lease.Some? ==>
              acquire(ConnectionRequest(id)) == Acquired(d.outcome.context.lease.value)
  {
    var lockErr := lockCheck(EffectiveLockingMode(cfg, id), LockTargets(cfg, id));
    if lockErr.Some? then
      Decision(AccessDenied(lockErr.value), [RejectEvent(cfg, id, localAddr, remoteAddr, lockErr.value, 0)], [])
    else if !SatisfiesPolicy(EffectiveKeyPolicy(cfg, id), CertKeyPolicy(id.certificate)) then
      Decision(BadParameter(PolicyErrorMessage(EffectiveKeyPolicy(cfg, id))), [], [])
    else if VerifyDeviceTrust(cfg, id.certificate).Some? then
      Decision(AccessDenied(VerifyDeviceTrust(cfg, id.certificate).value), [], [])
    else if !LimitApplies(cfg, id) then
      Decision(Admitted(SessionContext(id, None)), [], [])
    else
      var request := ConnectionRequest(id);
      var max := id.accessChecker.maxConnections;
      match acquire(request)
      case Acquired(lease) =>
        Decision(Admitted(SessionContext(id, Some(lease))), [], [request])
      case LimitExceeded =>
        Decision(AccessDenied(TooManyConnectionsMessage(id.teleportUser, max)),
                 [RejectEvent(cfg, id, localAddr, remoteAddr, SessionRejectedEvent, max)], [request])
      case AcquireFailed(message) =>
        Decision(Fatal(message), [], [request])
  }

  // ---------------------------------------------------------------------------
  // Properties, one per behaviour the controller's tests pin down.

  /** No lock, a met key policy, no device requirement and no limit: admitted, nothing audited. */
  lemma AdmitsWithoutEvents(cfg: ControllerConfig, id: Identity, localAddr: string, remoteAddr: string,
                            lockCheck: LockOracle, acquire: SemaphoreOracle)
    requires lockCheck(EffectiveLockingMode(cfg, id), LockTargets(cfg, id)).None?
    requires SatisfiesPolicy(EffectiveKeyPolicy(cfg, id), CertKeyPolicy(id.certificate))
    requires !DeviceTrustEnforced(cfg)
    requires !LimitApplies(cfg, id)
    ensures AcquireSessionContext(cfg, id, localAddr, remoteAddr, lockCheck, acquire)
         == Decision(Admitted(SessionContext(id, None)), [], [])
  {
  }

  /** On a node with a positive limit, a granted lease admits the session holding that lease, unaudited. */
  lemma NodeAdmitsWithLease(cfg: ControllerConfig, id: Identity, localAddr: string, remoteAddr: string,
                            lockCheck: LockOracle, acquire: SemaphoreOracle, lease: Lease)
    requires PolicyChecksPass(cfg, id, lockCheck)
    requires LimitApplies(cfg, id)
    requires acquire(ConnectionRequest(id)) == Acquired(lease)
    ensures AcquireSessionContext(cfg, id, localAddr, remoteAddr, lockCheck, acquire)
         == Decision(Admitted(SessionContext(id, Some(lease))), [], [ConnectionRequest(id)])
  {
  }

  /** A lock in force denies access with the lock's message and emits exactly one reject event carrying it. */
  lemma LockRejectsWithOneEvent(cfg: ControllerConfig, id: Identity, localAddr: string, remoteAddr: string,
                                lockCheck: LockOracle, acquire: SemaphoreOracle, message: string)
    requires lockCheck(EffectiveLockingMode(cfg, id), LockTargets(cfg, id)) == Some(message)
    ensures var d := AcquireSessionContext(cfg, id, localAddr, remoteAddr, lockCheck, acquire);
      && d.outcome == AccessDenied(message)
      && |d.events| == 1
      && d.events[0].eventType == SessionRejectedEvent
      && d.events[0].code == SessionRejectedCode
      && d.events[0].protocol == EventProtocolSSH
      && d.events[0].reason == message
      && d.acquireRequests == []
  {
  }

  /** A key policy the certificate does not meet is a bad parameter, never audited, whatever the limit. */
  lemma WeakKeyPolicyIsBadParameter(cfg: ControllerConfig, id: Identity, localAddr: string, remoteAddr: string,
                                    lockCheck: LockOracle, acquire: SemaphoreOracle)
    requires lockCheck(EffectiveLockingMode(cfg, id), LockTargets(cfg, id)).None?
    requires !SatisfiesPolicy(EffectiveKeyPolicy(cfg, id), CertKeyPolicy(id.certificate))
    ensures var d := AcquireSessionContext(cfg, id, localAddr, remoteAddr, lockCheck, acquire);
      d.outcome.BadParameter? && d.events == [] && d.acquireRequests == []
  {
  }

  /** A full semaphore denies access with one event whose reason is the event type and whose maximum is the limit. */
  lemma LimitExceededRejectsWithOneEvent(cfg: ControllerConfig, id: Identity, localAddr: string, remoteAddr: string,
                                         lockCheck: LockOracle, acquire: SemaphoreOracle)
    requires PolicyChecksPass(cfg, id, lockCheck)
    requires LimitApplies(cfg, id)
    requires acquire(ConnectionRequest(id)) == LimitExceeded
    ensures var d := AcquireSessionContext(cfg, id, localAddr, remoteAddr, lockCheck, acquire);
      && d.outcome.AccessDenied?
      && |d.events| == 1
      && d.events[0].eventType == SessionRejectedEvent
      && d.events[0].reason == SessionRejectedEvent
      && d.events[0].maximum == id.accessChecker.maxConnections
      && d.outcome.message == TooManyConnectionsMessage(id.teleportUser, id.accessChecker.maxConnections)
  {
  }

  /** Any other semaphore failure is surfaced as it is, unaudited. */
  lemma AcquireFailureIsFatal(cfg: ControllerConfig, id: Identity, localAddr: string, remoteAddr: string,
                              lockCheck: LockOracle, acquire: SemaphoreOracle, message: string)
    requires PolicyChecksPass(cfg, id, lockCheck)
    requires LimitApplies(cfg, id)
    requires acquire(ConnectionRequest(id)) == AcquireFailed(message)
    ensures var d := AcquireSessionContext(cfg, id, localAddr, remoteAddr, lockCheck, acquire);
      d.outcome == Fatal(message) && d.events == []
  {
  }

  /**
    With no positive connection limit the semaphore is never consulted:
    the decision is the same whatever the semaphore would answer.
   */
  lemma NoLimitIgnoresSemaphore(cfg: ControllerConfig, id: Identity, localAddr: string, remoteAddr: string,
                                lockCheck: LockOracle, acquire1: SemaphoreOracle, acquire2: SemaphoreOracle)
    requires id.accessChecker.maxConnections <= 0
    ensures AcquireSessionContext(cfg, id, localAddr, remoteAddr, lockCheck, acquire1)
         == AcquireSessionContext(cfg, id, localAddr, remoteAddr, lockCheck, acquire2)
    ensures AcquireSessionContext(cfg, id, localAddr, remoteAddr, lockCheck, acquire1).acquireRequests == []
  {
  }

  /** A proxy does not enforce the connection limit either. */
  lemma ProxyIgnoresSemaphore(cfg: ControllerConfig, id: Identity, localAddr: string, remoteAddr: string,
                              lockCheck: LockOracle, acquire1: SemaphoreOracle, acquire2: SemaphoreOracle)
    requires cfg.component == ComponentProxy
    ensures AcquireSessionContext(cfg, id, localAddr, remoteAddr, lockCheck, acquire1)
         == AcquireSessionContext(cfg, id, localAddr, remoteAddr, lockCheck, acquire2)
  {
  }

  /** An OSS build never enforces device trust, whatever the mode and the certificate. */
  lemma OSSIgnoresDeviceTrust(cfg: ControllerConfig, cert: Certificate)
    requires cfg.build == BuildOSS
    ensures VerifyDeviceTrust(cfg, cert) == None
  {
  }

  /** An Enterprise build requiring device trust denies a certificate lacking a device extension, naming "device". */
  lemma EnterpriseRequiresDeviceExtensions(cfg: ControllerConfig, id: Identity, localAddr: string, remoteAddr: string,
                                           lockCheck: LockOracle, acquire: SemaphoreOracle)
    requires cfg.build == BuildEnterprise && cfg.authPreference.deviceTrustMode == DeviceTrustRequired
    requires !HasDeviceExtensions(id.certificate)
    requires lockCheck(EffectiveLockingMode(cfg, id), LockTargets(cfg, id)).None?
    requires SatisfiesPolicy(EffectiveKeyPolicy(cfg, id), CertKeyPolicy(id.certificate))
    ensures var d := AcquireSessionContext(cfg, id, localAddr, remoteAddr, lockCheck, acquire);
      && d.outcome.AccessDenied?
      && Strings.Contains(d.outcome.message, "device")
      && d.acquireRequests == []
  {
  }

  /** The same configuration admits a certificate carrying all three device extensions. */
  lemma EnterpriseAdmitsDeviceExtensions(cfg: ControllerConfig, id: Identity, localAddr: string, remoteAddr: string,
                                         lockCheck: LockOracle, acquire: SemaphoreOracle)
    requires cfg.build == BuildEnterprise && cfg.authPreference.deviceTrustMode == DeviceTrustRequired
    requires HasDeviceExtensions(id.certificate)
    requires lockCheck(EffectiveLockingMode(cfg, id), LockTargets(cfg, id)).None?
    requires SatisfiesPolicy(EffectiveKeyPolicy(cfg, id), CertKeyPolicy(id.certificate))
    requires !LimitApplies(cfg, id)
    ensures AcquireSessionContext(cfg, id, localAddr, remoteAddr, lockCheck, acquire).outcome.Admitted?
  {
  }
}
