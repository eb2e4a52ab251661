/**
  The abstract operating-system backend of temporary host-user management
  (the `HostUsersBackend` interface).

  The host is an immutable record: the user database in listing order, each
  user's group IDs, and the groups with their IDs. Every backend call records
  itself in the world's call log and either fails with the error the fault
  oracle injects for that call, leaving the host as it was, or behaves as a
  well-behaved host would.

  Group IDs are natural numbers here. The backend reports them as decimal
  strings, and decimal printing is injective, so comparing the strings is
  comparing the numbers.
 */
module HostBackend {
  import opened Common

  type UserName = string
  type GroupName = string
  type Gid = nat

  datatype Host = Host(
    passwd: seq<UserName>,
    memberships: map<UserName, seq<Gid>>,
    groups: map<GroupName, Gid>,
    nextGid: Gid)

  /** The user listing and the membership table name the same users, and group IDs are below the next free one. */
  predicate Valid(h: Host)
  {
    && (forall u :: u in h.passwd ==> u in h.memberships)
    && (forall u :: u in h.memberships ==> u in h.passwd)
    && (forall g :: g in h.groups ==> h.groups[g] < h.nextGid)
  }

  datatype Call =
    | GetAllUsersCall
    | LookupCall(name: UserName)
    | UserGidsCall(user: UserName)
    | LookupGroupCall(group: GroupName)
    | CreateGroupCall(group: GroupName)
    | CreateUserCall(newUser: UserName, groups: seq<GroupName>)
    | DeleteUserCall(victim: UserName)

  /**
    Backend errors. `UnknownUser` and `UnknownGroup` are the lookup misses
    (`user.UnknownUserError`, `user.UnknownGroupError`); `UserLoggedIn` is
    `ErrUserLoggedIn`, which the backend reports when the user still has a
    session or process.
   */
  datatype BackendError =
    | UnknownUser(name: UserName)
    | UnknownGroup(group: GroupName)
    | AlreadyExists(what: string)
    | UserLoggedIn
    | Failure(message: string)

  /** The error, if any, that the host returns for a call. */
  type Faults = Call -> Option<BackendError>

  const NoFaults: Faults := (c: Call) => None

  datatype World = World(host: Host, log: seq<Call>)

  /** A backend call's outcome: the world after it, and Go's `(T, error)` pair. */
  datatype Step<+T> = Step(world: World, result: Result<T, BackendError>)

  function Record(w: World, call: Call): World
  {
    w.(log := w.log + [call])
  }

  /** `w1` is `w0` after further calls. */
  predicate Extends(w0: World, w1: World)
  {
    |w0.log| <= |w1.log| && w1.log[..|w0.log|] == w0.log
  }

  /** The calls made between `w0` and `w1`. */
  function Since(w0: World, w1: World): seq<Call>
    requires Extends(w0, w1)
  {
    w1.log[|w0.log|..]
  }

  /** `s` without any occurrence of `x`. */
  function Without(s: seq<UserName>, x: UserName): (r: seq<UserName>)
    ensures forall y :: y in r <==> y in s && y != x
    decreases |s|
  {
    if |s| == 0 then []
    else (if s[0] == x then [] else [s[0]]) + Without(s[1..], x)
  }

  /** The group IDs of the named groups, in order. */
  function GidsOf(groups: map<GroupName, Gid>, names: seq<GroupName>): (ids: seq<Gid>)
    requires forall g :: g in names ==> g in groups
    ensures |ids| == |names|
    ensures forall i :: 0 <= i < |names| ==> ids[i] == groups[names[i]]
    decreases |names|
  {
    if |names| == 0 then [] else [groups[names[0]]] + GidsOf(groups, names[1..])
  }

  /** The host with `name` gone from the listing and the membership table. */
  function RemoveUser(h: Host, name: UserName): Host
  {
    h.(passwd := Without(h.passwd, name), memberships := h.memberships - {name})
  }

  // ---------------------------------------------------------------------------
  // The backend calls.

  /**
    What every call promises: it is recorded once in the log, an injected error
    is exactly what the caller sees, and a failed call leaves the host as it was.
   */
  predicate Answers<T>(w: World, faults: Faults, call: Call, s: Step<T>)
  {
    && s.world.log == w.log + [call]
    && (faults(call).Some? ==> s.result == Err(faults(call).value))
    && (s.result.Err? ==> s.world.host == w.host)
  }

  /** The user listing, in the host's order. */
  function GetAllUsers(w: World, faults: Faults): (s: Step<seq<UserName>>)
    ensures Answers(w, faults, GetAllUsersCall, s) && s.world.host == w.host
    ensures s.result.Ok? <==> faults(GetAllUsersCall).None?
    ensures s.result.Ok? && Valid(w.host) ==> forall u :: u in s.result.value <==> u in w.host.memberships
  {
    var w' := Record(w, GetAllUsersCall);
    match faults(GetAllUsersCall)
    case Some(e) => Step(w', Err(e))
    case None => Step(w', Ok(w.host.passwd))
  }

  /** A found user is represented by its name. */
  function Lookup(w: World, faults: Faults, name: UserName): (s: Step<UserName>)
    ensures Answers(w, faults, LookupCall(name), s) && s.world.host == w.host
    ensures s.result.Ok? ==> s.result.value == name && name in w.host.memberships
    ensures faults(LookupCall(name)).None? ==> (s.result.Ok? <==> name in w.host.memberships)
    ensures faults(LookupCall(name)).None? && s.result.Err? ==> s.result.error == UnknownUser(name)
  {
    var w' := Record(w, LookupCall(name));
    match faults(LookupCall(name))
    case Some(e) => Step(w', Err(e))
    case None => if name in w.host.memberships then Step(w', Ok(name)) else Step(w', Err(UnknownUser(name)))
  }

  function UserGids(w: World, faults: Faults, name: UserName): (s: Step<seq<Gid>>)
    ensures Answers(w, faults, UserGidsCall(name), s) && s.world.host == w.host
    ensures s.result.Ok? ==> name in w.host.memberships && s.result.value == w.host.memberships[name]
    ensures faults(UserGidsCall(name)).None? ==> (s.result.Ok? <==> name in w.host.memberships)
  {
    var w' := Record(w, UserGidsCall(name));
    match faults(UserGidsCall(name))
    case Some(e) => Step(w', Err(e))
    case None =>
      if name in w.host.memberships then Step(w', Ok(w.host.memberships[name])) else Step(w', Err(UnknownUser(name)))
  }

  function LookupGroup(w: World, faults: Faults, group: GroupName): (s: Step<Gid>)
    ensures Answers(w, faults, LookupGroupCall(group), s) && s.world.host == w.host
    ensures s.result.Ok? ==> group in w.host.groups && s.result.value == w.host.groups[group]
    ensures faults(LookupGroupCall(group)).None? ==> (s.result.Ok? <==> group in w.host.groups)
    ensures faults(LookupGroupCall(group)).None? && s.result.Err? ==> s.result.error == UnknownGroup(group)
  {
    var w' := Record(w, LookupGroupCall(group));
    match faults(LookupGroupCall(group))
    case Some(e) => Step(w', Err(e))
    case None => if group in w.host.groups then Step(w', Ok(w.host.groups[group])) else Step(w', Err(UnknownGroup(group)))
  }

  /** A new group takes the next free ID; an existing one is reported as already existing. */
  function CreateGroup(w: World, faults: Faults, group: GroupName): (s: Step<()>)
    ensures Answers(w, faults, CreateGroupCall(group), s)
    ensures faults(CreateGroupCall(group)).None? ==> (s.result.Ok? <==> group !in w.host.groups)
    ensures faults(CreateGroupCall(group)).None? && s.result.Err? ==> s.result.error == AlreadyExists(group)
    // a created group is new, has an ID no other group of a valid host has, and nothing else changes
    ensures s.result.Ok? ==>
              && group !in w.host.groups && group in s.world.host.groups
              && (Valid(w.host) ==> forall g :: g in w.host.groups ==> w.host.groups[g] != s.world.host.groups[group])
              && (forall g :: g in w.host.groups ==> g in s.world.host.groups && s.world.host.groups[g] == w.host.groups[g])
              && s.world.host.passwd == w.host.passwd && s.world.host.memberships == w.host.memberships
  {
    var w' := Record(w, CreateGroupCall(group));
    match faults(CreateGroupCall(group))
    case Some(e) => Step(w', Err(e))
    case None =>
      if group in w.host.groups then Step(w', Err(AlreadyExists(group)))
      else
        var h := w.host.(groups := w.host.groups[group := w.host.nextGid], nextGid := w.host.nextGid + 1);
        Step(w'.(host := h), Ok(()))
  }

  /** A new user joins every listed group, all of which must exist. */
  function CreateUser(w: World, faults: Faults, name: UserName, groups: seq<GroupName>): (s: Step<()>)
    ensures Answers(w, faults, CreateUserCall(name, groups), s)
    ensures faults(CreateUserCall(name, groups)).None? ==>
              (s.result.Ok? <==> name !in w.host.memberships && forall g :: g in groups ==> g in w.host.groups)
    ensures faults(CreateUserCall(name, groups)).None? && name in w.host.memberships ==>
              s.result == Err(AlreadyExists(name))
    // a created user is appended to the listing, holds the IDs of exactly the listed groups, and nothing else changes
    ensures s.result.Ok? ==>
              && name !in w.host.memberships
              && s.world.host.passwd == w.host.passwd + [name]
              && name in s.world.host.memberships
              && |s.world.host.memberships[name]| == |groups|
              && (forall i :: 0 <= i < |groups| ==> s.world.host.memberships[name][i] == w.host.groups[groups[i]])
              && (forall u :: u != name ==> (u in s.world.host.memberships <==> u in w.host.memberships))
              && (forall u :: u in w.host.memberships ==> s.world.host.memberships[u] == w.host.memberships[u])
              && s.world.host.groups == w.host.groups && s.world.host.nextGid == w.host.nextGid
  {
    var w' := Record(w, CreateUserCall(name, groups));
    match faults(CreateUserCall(name, groups))
    case Some(e) => Step(w', Err(e))
    case None =>
      if name in w.host.memberships then Step(w', Err(AlreadyExists(name)))
      else if exists g :: g in groups && g !in w.host.groups then Step(w', Err(Failure("group does not exist")))
      else
        var h := w.host.(passwd := w.host.passwd + [name],
                         memberships := w.host.memberships[name := GidsOf(w.host.groups, groups)]);
        Step(w'.(host := h), Ok(()))
  }

  function DeleteUser(w: World, faults: Faults, name: UserName): (s: Step<()>)
    ensures Answers(w, faults, DeleteUserCall(name), s)
    ensures faults(DeleteUserCall(name)).None? ==> (s.result.Ok? <==> name in w.host.memberships)
    // a deleted user is gone from the listing and the membership table, and nothing else changes
    ensures s.result.Ok? ==>
              && name in w.host.memberships
              && (forall u :: u in s.world.host.passwd <==> u in w.host.passwd && u != name)
              && s.world.host.memberships == w.host.memberships - {name}
              && s.world.host.groups == w.host.groups && s.world.host.nextGid == w.host.nextGid
  {
    var w' := Record(w, DeleteUserCall(name));
    match faults(DeleteUserCall(name))
    case Some(e) => Step(w', Err(e))
    case None =>
      if name in w.host.memberships then Step(w'.(host := RemoveUser(w.host, name)), Ok(()))
      else Step(w', Err(UnknownUser(name)))
  }

  // ---------------------------------------------------------------------------
  // The backend keeps a valid host valid.

  lemma CreateGroupKeepsValid(w: World, faults: Faults, group: GroupName)
    requires Valid(w.host)
    ensures Valid(CreateGroup(w, faults, group).world.host)
  {
  }

  lemma CreateUserKeepsValid(w: World, faults: Faults, name: UserName, groups: seq<GroupName>)
    requires Valid(w.host)
    ensures Valid(CreateUser(w, faults, name, groups).world.host)
  {
  }

  lemma DeleteUserKeepsValid(w: World, faults: Faults, name: UserName)
    requires Valid(w.host)
    ensures Valid(DeleteUser(w, faults, name).world.host)
  {
  }
}
