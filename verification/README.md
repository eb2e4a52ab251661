# Teleport host users, session admission and join tokens in Dafny

This project models three decision cores of Teleport in Dafny, using pure
functions over immutable datatypes, and proves properties of them.

1. **Temporary host-user management** (`HostUserManagment` and `userCloser`
   in `lib/srv/usermgmt.go`).
   - Modules: `HostBackend` (host_backend.dfy) and `HostUsers` (host_users.dfy).
   - The operating-system backend (`HostUsersBackend`) is a state record
     `Host`. It holds the user listing, each user's group IDs, and the groups
     with their IDs.
   - Every backend call returns the new world and a Go-style `(value, error)`
     pair. It also appends itself to a call log, so the contracts can say
     which calls were attempted.
   - Errors are injected by a fault oracle `Faults = Call -> Option<BackendError>`.
   - On this backend the model covers:
     - `CreateUser`, with the "already exists" short cut and group creation
       that continues past failures;
     - `createGroupIfNotExist`;
     - `DeleteUser`, guarded by membership of a group ID and silent about a
       user still logged in;
     - `DeleteAllUsers`;
     - `userCloser.Close`.
2. **Session admission** (`SessionController.AcquireSessionContext`).
   - Module: `SessionControl` (session_control.dfy).
   - The behaviour follows the table-driven test
     `TestSessionController_AcquireSessionContext` and its mocks in
     `lib/srv/session_control_test.go`.
   - The lock enforcer and the semaphore service are oracles.
   - The result is a `Decision`: the outcome (admitted with a session context,
     access denied, bad parameter, or a fatal error), the audit events
     emitted, and the semaphore requests made.
   - The test cases themselves are stated in `SessionControlExamples`.
3. **Join-token helpers** of the web UI.
   - Rule helpers, in module `TokenRules` (token_rules.dfy):
     - `sortRules`: ascending by AWS account, ties broken by ARN;
     - `isSameRuleSet`: equality after sorting;
     - `generateIAMTokenName`: a fixed prefix and the decimal form of a
       32-bit hash of the sorted rules. The hash is an oracle.
   - Module `JoinScript` (join_script.dfy) models the input validation of
     `getJoinScript`: join method and hex token, token lookup, proxies, CA,
     exclusive install modes, and app name and URI validation. Template
     rendering is an oracle.
   - The test tables are in `TokenRulesExamples` and `JoinScriptExamples`.

Shared helpers:
- `Common` (common.dfy) holds `Option` and `Result`.
- `Strings` (strings.dfy) holds:
  - Go's byte-wise string order, proved to be a strict total order;
  - a substring predicate;
  - decimal rendering of naturals, with its parse round trip and injectivity.

`lib/srv/session_control.go` and `lib/web/join_tokens.go` are not part of
this model. The admission and join-script models are therefore reconstructed
from the tests in those packages.
- The order of the admission checks is a modelling choice: lock, then
  private-key policy, then device trust, then the connection limit. The
  tests never observe this order.
- The lock targets (the Teleport user, the login, the server and each role)
  are a modelling choice: the test's lock enforcer accepts any targets and
  answers only from its configured error.
- The order of the join-script checks is also a modelling choice: method and
  token format, token existence, proxies, CA, install modes, then app fields.
- The app-name rule is a DNS-1035 label of at most 63 characters.
- The app-URI rule allows letters, digits, `_`, `-`, `/`, `:`, `.` and space.
- The tests fix only which inputs are accepted and rejected. Both rules agree
  with every such case, and neither admits `"`, a backtick or `$`.

## Model

| member | source | states |
|---|---|---|
| HostBackend.GetAllUsers | lib/srv/usermgmt.go:50-51 | The call is logged once and never changes the host. It succeeds exactly when no error is injected, and then lists exactly the host's users (on a consistent host). |
| HostBackend.Lookup | lib/srv/usermgmt.go:54-55 | The call is logged once and never changes the host. An injected error is what the caller sees. Otherwise the user is found exactly when it exists, and a miss is "unknown user". |
| HostBackend.UserGids | lib/srv/usermgmt.go:52-53 | The call is logged once and never changes the host. On success the IDs are the user's group IDs; without an injected error it succeeds exactly for an existing user. |
| HostBackend.LookupGroup | lib/srv/usermgmt.go:56-57 | The call is logged once and never changes the host. On success the ID is the group's; without an injected error it succeeds exactly for an existing group, and a miss is "unknown group". |
| HostBackend.CreateGroup | lib/srv/usermgmt.go:58-59 | The call is logged once, an injected error is returned, and a failure changes nothing. Without an injected error it succeeds exactly for a new group, else reports "already exists". A created group gets an ID no group of a consistent host has; other groups and all users are unchanged. |
| HostBackend.CreateUser | lib/srv/usermgmt.go:60-61 | The call is logged once, an injected error is returned, and a failure changes nothing. Without an injected error it succeeds exactly for a new user whose groups all exist, and an existing user is "already exists". A created user is appended to the listing with the IDs of exactly the listed groups, in order; other users and groups are unchanged. |
| HostBackend.DeleteUser | lib/srv/usermgmt.go:62-63 | The call is logged once, an injected error is returned, and a failure changes nothing. Without an injected error it succeeds exactly for an existing user, which is then gone from the listing and the membership table; nothing else changes. |
| HostBackend.CreateGroupKeepsValid | lib/srv/usermgmt.go:58-59 | Creating a group keeps the host consistent: listing and membership table name the same users, every group ID is below the next free one. |
| HostBackend.CreateUserKeepsValid | lib/srv/usermgmt.go:60-61 | Creating a user keeps the host consistent. |
| HostBackend.DeleteUserKeepsValid | lib/srv/usermgmt.go:62-63 | Deleting a user keeps the host consistent. |
| HostUsers.CreateGroupIfNotExist | lib/srv/usermgmt.go:139-149 | The group lookup is the first call. A lookup error other than "unknown group" is returned as is, with no CreateGroup call and no change. Otherwise CreateGroup follows. The result is nil exactly when the creation succeeded or reported "already exists", and otherwise it is the failing call's own error (`GroupErrorOf`): the lookup's, or the creation's. Users are never touched, and existing groups keep their IDs. |
| HostUsers.CreateGroupIfNotExistIdempotent | lib/srv/usermgmt.go:139-149 | Ensuring a group a second time, with the backend answering each call as before, leaves the host exactly as the first time left it. |
| HostUsers.EnsuredGroupStaysPut | lib/srv/usermgmt.go:139-149 | Once an ensure has created or found the group, any later ensure, whatever its calls return, leaves the host unchanged. |
| HostUsers.CreateGroups | lib/srv/usermgmt.go:117-126 | Every group in the list is looked up, even after earlier failures. Only group calls are made. The error list is exactly the groups' errors in list order (`GroupErrors`), so it is empty exactly when every group was ensured. When in addition no group creation had an injected error, every group exists; an injected "already exists" for an absent group leaves it absent. |
| HostUsers.CreateGroupsCallsStep | lib/srv/usermgmt.go:118-123 | Ensuring the first group and then the rest looks up every group and makes only group calls. |
| HostUsers.MemberGroups | lib/srv/usermgmt.go:118 | The groups a temporary user is put in contain every requested group and the Teleport service group. |
| HostUsers.CreateFreshUser | lib/srv/usermgmt.go:117-136 | For a user the lookup did not find, every requested group and the service group is attempted. A closer is returned exactly when there is no error. A group failure means no CreateUser call and no change to the users. Success means the backend was asked to create the user in those groups. |
| HostUsers.CreateFreshUserOutcome | lib/srv/usermgmt.go:117-136 | The fresh-user path fails exactly when some group cannot be ensured, and then with `GroupsFailed` of exactly the groups' errors in list order and no closer. Otherwise a backend "already exists", whether injected or because the user is there, is success with a closer and no error. Any other injected creation error is returned as the creation failure with no closer. With no injected error and a new user, success holds exactly when every member group exists. |
| HostUsers.CreateUserUnknownIsFresh | lib/srv/usermgmt.go:101-117 | A user the lookup reports unknown takes the fresh-user path right after the lookup. |
| HostUsers.CreateUser | lib/srv/usermgmt.go:100-137 | The user lookup is the first call. A closer for this user comes back on success and alongside "already exists", and in no other case. |
| HostUsers.CreateUserExisting | lib/srv/usermgmt.go:101-115 | A user the lookup finds gets a closer with the "already exists" error. Nothing beyond the lookup is done. |
| HostUsers.CreateUserLookupFails | lib/srv/usermgmt.go:101-104 | A lookup error other than "unknown user" is returned with no closer. Nothing beyond the lookup is done. |
| HostUsers.CreateUserUnknownAttemptsAllGroups | lib/srv/usermgmt.go:117-126 | For an unknown user, every requested group and the service group is attempted. If any group failed there is no closer, no CreateUser call and no change to the users. |
| HostUsers.CreateFreshUserAddsUser | lib/srv/usermgmt.go:128-136 | On success, all member groups exist and the user is appended to the listing. Its group IDs are those of the requested groups followed by the service group. |
| HostUsers.CreateFreshUserFaultFree | lib/srv/usermgmt.go:117-136 | On a host that injects no faults, creating a user the host lacks succeeds. |
| HostUsers.CreateUserFreshJoinsServiceGroup | lib/srv/usermgmt.go:99-137 | On a fault-free host, a new user is created with a closer and no error. It joins exactly the requested groups and the service group, and it holds the service group's ID. |
| HostUsers.DeleteUser | lib/srv/usermgmt.go:170-191 | The user is removed exactly when both lookups and the deletion succeed and the user holds `gid`; otherwise the host is unchanged. The backend deletion is attempted only for a member of `gid`. The calls are a prefix of Lookup, UserGIDs, DeleteUser. The error is non-nil exactly when `DeleteFails`: a lookup fails, the user is unknown, or the user holds `gid` and the deletion fails with anything but "still logged in". The error returned is the failing call's own: an injected lookup error, "unknown user" for a user the host lacks, an injected group-ID error, or the deletion's error (`DeleteErrorOf`). |
| HostUsers.LoggedInUserKept | lib/srv/usermgmt.go:179-186 | When the backend reports the user still logged in, the result is nil and the user stays. |
| HostUsers.DeleteEach | lib/srv/usermgmt.go:161-164 | Every listed user is looked up, with no short-circuit. Exactly the listed users that DeleteUser removes are gone. Groups and the remaining users' memberships are unchanged. No error is collected exactly when the list is deleted cleanly: no deletion fails, and no user listed twice is removed by its first deletion. The collected failures are exactly the deletions' errors in list order, each as DeleteUser returns it on the original host, with a repeat of an already removed user reported unknown (`ErrorsFrom`). |
| HostUsers.ErrorsFromShift | lib/srv/usermgmt.go:161-164 | Deleting one user first is the same, for the errors of the rest of the list, as counting that user as listed earlier on the original host. |
| HostUsers.DeleteEachErrorsStep | lib/srv/usermgmt.go:161-164 | One step of the bulk deletion: the first user's error followed by the rest's errors are the list's errors, and they are empty exactly when the list is deleted cleanly. |
| HostUsers.DeletesCleanlyStep | lib/srv/usermgmt.go:161-164 | Deleting the first listed user leaves each other user's outcome as it was, so the whole list is clean exactly when the first deletion does not fail and the rest is clean on the host after it. |
| HostUsers.DeleteAllUsers | lib/srv/usermgmt.go:152-166 | Nothing is deleted when listing the users or looking up the service group fails. Otherwise every listed user is looked up, and exactly the listed users that DeleteUser removes with the service group's ID are gone. An aggregate error is never empty, and the aggregate is nil exactly when every listed user is deleted cleanly with the service group's ID. A listing error is returned wrapped as the listing failure, and a service-group lookup error (including "unknown group") as the lookup failure. Otherwise the result is nil when no deletion failed, and else the aggregate of exactly the deletions' errors in listing order. |
| HostUsers.DeleteAllUsersRemovesOnlyServiceMembers | lib/srv/usermgmt.go:151-166 | Any user the bulk deletion removes was a member of the service group. |
| HostUsers.DeleteAllUsersFaultFree | lib/srv/usermgmt.go:152-166 | On a fault-free host, a user is removed exactly when it holds the service group's ID. |
| HostUsers.Close | lib/srv/usermgmt.go:72-79 | A failed service-group lookup changes nothing and is returned. Otherwise the closer's user is deleted under the DeleteUser rule with the service group's ID, and the error is non-nil exactly when that deletion fails. The error is then exactly the deletion's (`DeleteErrorOf`); a failed lookup returns the injected error, or "unknown group" when the group is missing. |
| HostUsers.CreateGroupIfNotExistPreservesValid | lib/srv/usermgmt.go:139-149 | Ensuring a group keeps a consistent host consistent. |
| HostUsers.CreateGroupsPreservesValid | lib/srv/usermgmt.go:117-126 | Ensuring a list of groups keeps a consistent host consistent. |
| HostUsers.CreateFreshUserPreservesValid | lib/srv/usermgmt.go:117-136 | The fresh-user path keeps a consistent host consistent. |
| HostUsers.CreateUserPreservesValid | lib/srv/usermgmt.go:100-137 | Creating a temporary user keeps a consistent host consistent. |
| HostUsers.DeleteUserPreservesValid | lib/srv/usermgmt.go:170-191 | Deleting a user keeps a consistent host consistent. |
| HostUsers.DeleteEachPreservesValid | lib/srv/usermgmt.go:161-164 | Deleting a list of users keeps a consistent host consistent. |
| HostUsers.DeleteAllUsersPreservesValid | lib/srv/usermgmt.go:151-166 | The bulk deletion keeps a consistent host consistent. |
| HostUsers.ClosePreservesValid | lib/srv/usermgmt.go:72-79 | Closing a closer keeps a consistent host consistent. |
| HostUsers.CreateThenCloseRestoresUsers | lib/srv/usermgmt.go:72-137 | On a fault-free host, creating a temporary user and closing its closer gives back the original user listing and memberships. |
| SessionControl.LockTargets | lib/srv/session_control_test.go:39-45 | The lock check covers the Teleport user, the login, the node and every role of the identity. The test's lock enforcer ignores its targets, so this list is a modelling choice (see above). |
| SessionControl.SatisfiesPolicy | lib/srv/session_control_test.go:309-348 | A certificate naming a key policy satisfies the required one exactly when its policy is at least as strong (none < hardware_key < hardware_key_touch). A policy name that is not a known policy satisfies only the requirement "none". |
| SessionControl.VerifyDeviceTrust | lib/srv/session_control_test.go:450-476 | Device trust fails exactly when it is enforced (Enterprise build, mode "required") and a device extension is missing. The message then mentions "device". |
| SessionControl.AcquireSessionContext | lib/srv/session_control_test.go:164-496 | Admitted exactly when every check passes, with the identity kept. At most one event, emitted exactly for a lock or connection-limit rejection, with the fixed type, code and protocol. The semaphore is asked at most once, exactly when the policy checks pass on a node with a positive limit. A lease is held exactly when the semaphore granted one. |
| SessionControl.AdmitsWithoutEvents | lib/srv/session_control_test.go:171-209 | No lock, a sufficient key policy, no device requirement and no applicable limit give admission with no events and no semaphore request. |
| SessionControl.NodeAdmitsWithLease | lib/srv/session_control_test.go:210-260 | On a node with a limit, a granted lease gives admission with that lease and no events. |
| SessionControl.LockRejectsWithOneEvent | lib/srv/session_control_test.go:261-308 | A lock in force gives access denied with the lock's message, exactly one event with the fixed type, code and protocol whose reason is that message, and no semaphore request. |
| SessionControl.WeakKeyPolicyIsBadParameter | lib/srv/session_control_test.go:309-348 | Without a lock, an insufficient certificate key policy gives bad parameter and no events. |
| SessionControl.LimitExceededRejectsWithOneEvent | lib/srv/session_control_test.go:349-403 | When the semaphore reports the limit exceeded, the result is access denied. There is exactly one event, with reason equal to the session-rejected event type and maximum equal to the limit. |
| SessionControl.AcquireFailureIsFatal | lib/srv/session_control_test.go:349-403 | Any other semaphore failure is returned as a fatal error with no events. |
| SessionControl.NoLimitIgnoresSemaphore | lib/srv/session_control_test.go:404-449 | With a limit of zero or below, the decision does not depend on the semaphore, and the semaphore is never asked. |
| SessionControl.ProxyIgnoresSemaphore | lib/srv/session_control_test.go:171-209 | On the proxy the decision does not depend on the semaphore. |
| SessionControl.OSSIgnoresDeviceTrust | lib/srv/session_control_test.go:450-457 | An OSS build never fails the device-trust check. |
| SessionControl.EnterpriseRequiresDeviceExtensions | lib/srv/session_control_test.go:458-467 | Enterprise with mode "required" and missing device extensions gives access denied mentioning "device", and the semaphore is not asked. |
| SessionControl.EnterpriseAdmitsDeviceExtensions | lib/srv/session_control_test.go:468-476 | Enterprise with mode "required" admits a certificate carrying the three device extensions. |
| SessionControlExamples.ProxyAccessAllowed | lib/srv/session_control_test.go:171-209 | The "proxy: access allowed" case, with any semaphore. |
| SessionControlExamples.NodeAccessAllowed | lib/srv/session_control_test.go:210-260 | The "node: access allowed" case: admitted with the mocked lease. |
| SessionControlExamples.RejectedDueToLock | lib/srv/session_control_test.go:261-308 | The "session rejected due to lock" case and its event fields. |
| SessionControlExamples.RejectedDueToKeyPolicy | lib/srv/session_control_test.go:309-348 | The "session rejected due to private key policy" case. |
| SessionControlExamples.RejectedDueToConnectionLimit | lib/srv/session_control_test.go:349-403 | The "session rejected due to connection limit" case and its event fields. |
| SessionControlExamples.NoConnectionLimitSkipsSemaphore | lib/srv/session_control_test.go:404-449 | The "no connection limits prevent acquiring semaphore lock" case. |
| SessionControlExamples.DeviceExtensionsNotEnforcedForOSS | lib/srv/session_control_test.go:450-457 | The OSS device-trust case. |
| SessionControlExamples.DeviceExtensionsEnforcedForEnterprise | lib/srv/session_control_test.go:458-467 | The Enterprise case without device extensions. |
| SessionControlExamples.DeviceExtensionsValidForEnterprise | lib/srv/session_control_test.go:468-476 | The Enterprise case with device extensions. |
| Strings.LessTransitive | lib/web/join_tokens_test.go:74-267 | Go's string order, used by the rule sort, is transitive (with irreflexivity, asymmetry and totality in the neighbouring lemmas). |
| Strings.LessTotal | lib/web/join_tokens_test.go:74-267 | Any two different strings are ordered one way or the other. |
| Strings.DecimalRoundTrip | lib/web/join_tokens_test.go:43-48 | The decimal form of the hash in a token name parses back to the number. |
| Strings.DecimalInjective | lib/web/join_tokens_test.go:43-48 | Different numbers have different decimal forms. |
| TokenRules.RuleLessTotal | lib/web/join_tokens_test.go:74-267 | The rule order (by account, then ARN) orders any two different rules. |
| TokenRules.SortRules | lib/web/join_tokens_test.go:74-267 | The sorted rules are in ascending (account, ARN) order and are a permutation of the input. |
| TokenRules.SortedUnique | lib/web/join_tokens_test.go:74-267 | Two sorted permutations of the same rules are equal, so the sort's result is fully determined by its input's contents. |
| TokenRules.SortRulesKeepsSorted | lib/web/join_tokens_test.go:92-102 | Already ordered rules are left as they are. |
| TokenRules.SortRulesIdempotent | lib/web/join_tokens_test.go:126-171 | Sorting twice is sorting once. |
| TokenRules.SortRulesOrderIndependent | lib/web/join_tokens_test.go:74-267 | Reorderings of the same rules sort to the same list. |
| TokenRules.SortRulesEqualIffPermutation | lib/web/join_tokens_test.go:74-267 | Two rule lists sort to the same list exactly when they hold the same rules equally often. |
| TokenRules.IsSameRuleSet | lib/web/join_tokens_test.go:688-790 | Two rule lists are the same set exactly when they hold the same rules equally often, in any order. |
| TokenRules.IsSameRuleSetRejectsMissingRule | lib/web/join_tokens_test.go:713-726 | A rule in one list and absent from the other makes the sets differ. |
| TokenRules.GenerateIAMTokenName | lib/web/join_tokens_test.go:43-48 | A token name is the prefix "teleport-ui-iam-" followed by a non-empty string of digits. |
| TokenRules.IAMTokenNameOrderIndependent | lib/web/join_tokens_test.go:55-62 | Reordering the rules does not change the token name. |
| TokenRules.IAMTokenNameMatchesHash | lib/web/join_tokens_test.go:64-71 | Two rule lists share a token name exactly when the hash of their sorted forms agrees. |
| TokenRulesExamples.SortRulesSameAccountDifferentArn | lib/web/join_tokens_test.go:172-194 | The "same account ID, different ARN" case. |
| TokenRulesExamples.SortRulesDifferentAccountWithArn | lib/web/join_tokens_test.go:103-125 | The "different account ID, with ARN" case. |
| TokenRulesExamples.EmptyRuleSets | lib/web/join_tokens_test.go:695-698 | The "empty slice" case is the same rule set. |
| TokenRulesExamples.SimpleIdenticalRules | lib/web/join_tokens_test.go:699-712 | The "simple identical rules" case is the same rule set. |
| TokenRulesExamples.DifferentRules | lib/web/join_tokens_test.go:713-726 | The "different rules" case is not. |
| TokenRulesExamples.SameRulesInDifferentOrder | lib/web/join_tokens_test.go:727-754 | The "same rules in different order" case is the same rule set. |
| TokenRulesExamples.AlmostTheSameRules | lib/web/join_tokens_test.go:755-782 | The "almost the same rules" case, differing by one ARN character, is not. |
| TokenRulesExamples.IAMTokenNameTwoRulesEitherOrder | lib/web/join_tokens_test.go:50-62 | The two-rule token name is the same in either order. |
| JoinScript.HexDecode | lib/web/join_tokens_test.go:269 | Decoding succeeds exactly for an even-length string of hex digits and gives half as many bytes. |
| JoinScript.HexRoundTrip | lib/web/join_tokens_test.go:269 | Decoding the hex encoding of any bytes gives them back. |
| JoinScript.LabelsJoinWithHyphen | lib/web/join_tokens_test.go:473-486 | Two DNS-1035 labels joined by a hyphen form a label when within 63 characters. |
| JoinScript.ScanDNS1035Label | lib/web/join_tokens_test.go:460-546 | The scanning check of an app name accepts exactly the DNS-1035 labels. |
| JoinScript.ScanAppURI | lib/web/join_tokens_test.go:460-546 | The scanning check of an app URI accepts exactly the strings over the safe character set. |
| JoinScript.CheckAppByScanning | lib/web/join_tokens_test.go:404-425 | Running the app check as two scans gives the same answer, error included, as the app check. |
| JoinScript.ValidatorsExcludeShellMeta | lib/web/join_tokens_test.go:487-546 | Neither validator admits a string containing `"`, a backtick or `$`. |
| JoinScript.CheckJoinMethod | lib/web/join_tokens_test.go:310-355 | The join-method check passes exactly for a 32-hex-digit token under the token method (or no method), or for the IAM method. Its error is the hex error exactly when decoding fails. |
| JoinScript.CheckApp | lib/web/join_tokens_test.go:404-425 | The app check passes exactly for a valid name and URI, and fails only with bad parameter. |
| JoinScript.GetJoinScript | lib/web/join_tokens_test.go:366-377 | Every error comes with an empty script. There is no error exactly when all the checks hold, and then the script is the rendered template. |
| JoinScript.ShellMetaRejected | lib/web/join_tokens_test.go:487-563 | In app mode, a name or URI containing `"`, a backtick or `$` is rejected with an empty script. |
| JoinScript.EmptyAppFieldIsBadParameter | lib/web/join_tokens_test.go:404-425 | In app mode, an empty app name or URI is a bad parameter with an empty script. |
| JoinScript.BothInstallModesRejected | lib/web/join_tokens_test.go:615-623 | Database and app install mode together are rejected with an empty script. |
| JoinScript.WrongTokenLengthRejected | lib/web/join_tokens_test.go:315-324 | A token-method token that hex-encodes anything but 16 bytes is rejected as invalid. |
| JoinScript.RightTokenLengthAccepted | lib/web/join_tokens_test.go:325-336 | A token that hex-encodes 16 bytes passes the join-method check. |
| JoinScript.AppFieldsIgnoredOutsideAppMode | lib/web/join_tokens_test.go:441-458 | Outside app mode, the app name and URI do not affect the outcome. |
| JoinScriptExamples.ZeroValueRejected | lib/web/join_tokens_test.go:310-314 | The "zero value" settings are rejected with an empty script. |
| JoinScriptExamples.HexOfWrongLengthRejected | lib/web/join_tokens_test.go:315-324 | The "short token length" and "valid length but does not exist" tokens (hex of 30 and 32 bytes) are rejected with an empty script. |
| JoinScriptExamples.ValidTokenAccepted | lib/web/join_tokens_test.go:325-336 | The "valid" token yields the rendered script. |
| JoinScriptExamples.InvalidIAMRejected | lib/web/join_tokens_test.go:337-344 | An unknown IAM token is rejected with an empty script. |
| JoinScriptExamples.ValidIAMAccepted | lib/web/join_tokens_test.go:345-355 | The "valid iam" token is accepted. |
| JoinScriptExamples.EmptyAppNameRejected | lib/web/join_tokens_test.go:404-421 | The empty app name is a bad parameter with an empty script. |
| JoinScriptExamples.EmptyAppURIRejected | lib/web/join_tokens_test.go:411-425 | The empty app URI is a bad parameter with an empty script. |
| JoinScriptExamples.NodeOnlyWithBlankAppFieldsAccepted | lib/web/join_tokens_test.go:441-458 | Node-only mode with blank app fields is accepted. |
| JoinScriptExamples.AppSettingsAccepted | lib/web/join_tokens_test.go:459-472 | "test-app123" with "http://localhost:12345/landing page__" is accepted. |
| JoinScriptExamples.ShellMetaInAppFieldsRejected | lib/web/join_tokens_test.go:487-546 | Each of the six shell-metacharacter cases is rejected with an error and an empty script. |
| JoinScriptExamples.DatabaseModeAccepted | lib/web/join_tokens_test.go:624-649 | Database install mode with the valid token yields the rendered script. |
| JoinScriptExamples.TwoInstallMethodsRejected | lib/web/join_tokens_test.go:615-623 | The "two installation methods" case is rejected. |

## Left out

- `lib/srv/usermgmt_unix.go` (cgo `getpwent`, shelling out to useradd, groupadd and userdel, sudoers files) is replaced by the abstract backend. Its mapping of the "user logged in" exit status to `ErrUserLoggedIn` is an assumption of the backend: the fault oracle may inject `UserLoggedIn` for a `DeleteUser` call.
- The unix backend's `GetAllUsers` reports "not found" for an empty listing. The abstract backend returns the listing as it is, and a failure only through the fault oracle.
- The fault oracle is a function of the call: the same call on the same arguments always fails the same way. A retried call therefore cannot fail the first time and succeed the next. `HostUsers.CreateGroupIfNotExistIdempotent` relies on this; `HostUsers.EnsuredGroupStaysPut` does not.
- Group IDs are natural numbers rather than the decimal strings the backend returns. `Strings.DecimalInjective` shows that comparing the strings is comparing the numbers.
- The `append(groups, TeleportServiceGroup)` in `CreateUser` may write into the caller's slice when it has spare capacity. The model builds a fresh sequence.
- Logging in `usermgmt.go` and the `runtime.GOOS` backend selection in `newHostUsersBackend` are not modelled: they are logging and platform plumbing.
- The certificate reloader (`lib/service/certreloader_test.go`) is file I/O, PEM/X.509 parsing and a background goroutine, so it is not modelled.
- Semaphore lease lifetime is not modelled: TTL, expiry from the clock, release when the context ends, and cancellation. The semaphore is only an acquire-result oracle, and the lease is reported as granted.
- The context returned with a rejection is not modelled; the tests assert only that it is not nil.
- SessionControl.AcquireSessionContext: the reason of the connection-limit event is the session-rejected event type, as the test asserts. A limit of zero or below disables the limit. The tests cover only zero.
- SessionControl.VerifyDeviceTrust: the failure message is fixed as "trusted device required". The test requires only that it mention "device".
- TokenRules.GenerateIAMTokenName: the hash (FNV-1a over the sorted rule fields) is an oracle, so the concrete name "teleport-ui-iam-2218897454" and the claim that different rules give different names are not proved. Different names for different rules would be collision-freedom of a 32-bit hash.
- A `TokenRule` keeps only the AWS account and AWS ARN, the fields the web UI's IAM rules set; `types.TokenRule` is not part of this model, and any other field it carries is not modelled. Equal account and ARN imply equal rule values only in this reduced model.
- `sortRules` sorts a `[]*types.TokenRule` slice in place with an unstable sort. The model returns a sorted sequence of values. Rules with equal account and ARN are equal values, so stability does not matter.
- The seven-rule "multiple account ID and ARNs" sort case (`lib/web/join_tokens_test.go:195-258`) is not stated as its own lemma. It follows from `TokenRules.SortRules` and `TokenRules.SortedUnique`, but the literal seven-element permutation is too costly to discharge directly.
- The "all settings set correctly with a longer app name" case (`lib/web/join_tokens_test.go:473-486`) is not stated as its own lemma, because its 53-character literal is too costly to check character by character. `JoinScript.LabelsJoinWithHyphen` covers how such names are built.
- Rendering the join script is an oracle `render`. This covers the proxy host and port, the `sha256:` CA pin, download URLs, label and YAML blocks, and the `JOIN_METHOD='iam'` line. The "internal resourceid label" case and the database label blocks are about rendering.
- JoinScript.GetJoinScript: the token lookup is a yes/no oracle. Its `NotFound` error is reported as an invalid token.
- Go's distinction between a nil and an empty slice (visible to `reflect.DeepEqual`) is not modelled.
