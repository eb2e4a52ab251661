/**
  Temporary host-user management (`HostUserManagment` and `userCloser`) over
  the abstract backend.

  Every temporary user is placed in the Teleport service group, and deletion is
  guarded by membership of a group ID, so that the bulk clean-up removes only
  temporary users. A user still logged in is left in place without an error.
 */
module HostUsers {
  import opened Common
  import opened HostBackend

  /** `types.TeleportServiceGroup`, the group every temporary user belongs to. */
  const TeleportServiceGroup: GroupName := "teleport-system"

  /** The `io.Closer` handed back for a temporary user: closing it deletes the user if still temporary. */
  datatype Closer = UserCloser(user: UserName)

  /** A Go `error` (nil or not) together with the world after the calls that produced it. */
  datatype Attempt = Attempt(world: World, err: Option<BackendError>)

  /** The user listing and memberships are as they were. */
  predicate UsersUnchanged(h0: Host, h1: Host)
  {
    h1.passwd == h0.passwd && h1.memberships == h0.memberships
  }

  /** Every group of `h0` is still there with the same ID. */
  predicate GroupsKept(h0: Host, h1: Host)
  {
    forall g :: g in h0.groups ==> g in h1.groups && h1.groups[g] == h0.groups[g]
  }

  lemma ExtendsTransitive(w0: World, w1: World, w2: World)
    requires Extends(w0, w1) && Extends(w1, w2)
    ensures Extends(w0, w2)
    ensures Since(w0, w2) == Since(w0, w1) + Since(w1, w2)
  {
    assert w2.log[..|w0.log|] == w2.log[..|w1.log|][..|w0.log|];
  }

  // ---------------------------------------------------------------------------
  // createGroupIfNotExist

  /** The group lookup fails with something other than "unknown group". */
  predicate GroupLookupFails(faults: Faults, group: GroupName)
  {
    faults(LookupGroupCall(group)).Some? && faults(LookupGroupCall(group)).value != UnknownGroup(group)
  }

  /** Ensuring the group succeeds: the lookup fails at most with "unknown group", and the creation succeeds or finds the group. */
  predicate GroupEnsured(faults: Faults, group: GroupName)
  {
    && !GroupLookupFails(faults, group)
    && (faults(CreateGroupCall(group)).None? || faults(CreateGroupCall(group)).value.AlreadyExists?)
  }

  /**
    The error `createGroupIfNotExist` returns, which depends only on what the
    backend answers: a lookup failure other than "unknown group", else nothing
    when the creation succeeds or finds the group, else the creation's error.
   */
  function GroupErrorOf(faults: Faults, group: GroupName): Option<BackendError>
  {
    if GroupLookupFails(faults, group) then faults(LookupGroupCall(group))
    else if GroupEnsured(faults, group) then None
    else faults(CreateGroupCall(group))
  }

  /** The errors of ensuring each group in turn, in list order. */
  function GroupErrors(faults: Faults, groups: seq<GroupName>): seq<BackendError>
    decreases |groups|
  {
    if |groups| == 0 then []
    else
      var e := GroupErrorOf(faults, groups[0]);
      (if e.Some? then [e.value] else []) + GroupErrors(faults, groups[1..])
  }

  /** `createGroupIfNotExist`: create the group, treating "already exists" as success. */
  function CreateGroupIfNotExist(w: World, faults: Faults, group: GroupName): (a: Attempt)
    ensures Extends(w, a.world) && |Since(w, a.world)| >= 1 && Since(w, a.world)[0] == LookupGroupCall(group)
    ensures UsersUnchanged(w.host, a.world.host) && GroupsKept(w.host, a.world.host)
    // a failed lookup is returned as it is, without trying to create the group
    ensures GroupLookupFails(faults, group) ==>
              a == Attempt(Record(w, LookupGroupCall(group)), faults(LookupGroupCall(group)))
    ensures !GroupLookupFails(faults, group) ==> Since(w, a.world) == [LookupGroupCall(group), CreateGroupCall(group)]
    // success exactly when the creation succeeded or found the group already there
    ensures a.err.None? <==> GroupEnsured(faults, group)
    ensures a.err.None? && faults(CreateGroupCall(group)).None? ==> group in a.world.host.groups
    ensures a.err.Some? ==> a.world.host == w.host
    // the error is the failing call's own
    ensures a.err == GroupErrorOf(faults, group)
  {
    var s1 := LookupGroup(w, faults, group);
    if s1.result.Err? && s1.result.error != UnknownGroup(group) then
      Attempt(s1.world, Some(s1.result.error))
    else
      var s2 := CreateGroup(s1.world, faults, group);
      assert s2.world.log == w.log + [LookupGroupCall(group), CreateGroupCall(group)];
      if s2.result.Err? && s2.result.error.AlreadyExists? then Attempt(s2.world, None)
      else if s2.result.Err? then Attempt(s2.world, Some(s2.result.error))
      else Attempt(s2.world, None)
  }

  /** Ensuring a group twice leaves the host as ensuring it once. */
  lemma CreateGroupIfNotExistIdempotent(w: World, faults: Faults, group: GroupName)
    ensures var once := CreateGroupIfNotExist(w, faults, group);
            CreateGroupIfNotExist(once.world, faults, group).world.host == once.world.host
  {
  }

  /**
    Once an ensure has put the group on the host, ensuring it again leaves the
    host unchanged whatever the second attempt's calls return.
   */
  lemma EnsuredGroupStaysPut(w: World, faults: Faults, faults2: Faults, group: GroupName)
    requires CreateGroupIfNotExist(w, faults, group).err.None? && faults(CreateGroupCall(group)).None?
    ensures var once := CreateGroupIfNotExist(w, faults, group);
            CreateGroupIfNotExist(once.world, faults2, group).world.host == once.world.host
  {
  }

  /** The calls of ensuring a first group and then the rest, taken together. */
  lemma CreateGroupsCallsStep(w: World, w1: World, w2: World, groups: seq<GroupName>)
    requires |groups| > 0
    requires Extends(w, w1) && |Since(w, w1)| >= 1 && Since(w, w1)[0] == LookupGroupCall(groups[0])
    requires forall c :: c in Since(w, w1) ==> c.LookupGroupCall? || c.CreateGroupCall?
    requires Extends(w1, w2)
    requires forall x :: x in groups[1..] ==> LookupGroupCall(x) in Since(w1, w2)
    requires forall c :: c in Since(w1, w2) ==> c.LookupGroupCall? || c.CreateGroupCall?
    ensures Extends(w, w2)
    ensures forall x :: x in groups ==> LookupGroupCall(x) in Since(w, w2)
    ensures forall c :: c in Since(w, w2) ==> c.LookupGroupCall? || c.CreateGroupCall?
  {
    ExtendsTransitive(w, w1, w2);
    assert forall x :: x in groups ==> x == groups[0] || x in groups[1..];
  }

  /** Attempt every group, in order, collecting the failures without stopping at one. */
  function CreateGroups(w: World, faults: Faults, groups: seq<GroupName>): (g: (World, seq<BackendError>))
    ensures Extends(w, g.0)
    ensures forall x :: x in groups ==> LookupGroupCall(x) in Since(w, g.0)
    ensures forall c :: c in Since(w, g.0) ==> c.LookupGroupCall? || c.CreateGroupCall?
    ensures UsersUnchanged(w.host, g.0.host) && GroupsKept(w.host, g.0.host)
    ensures |g.1| <= |groups|
    ensures g.1 == [] <==> forall x :: x in groups ==> GroupEnsured(faults, x)
    // the failures are exactly the groups' errors, in list order
    ensures g.1 == GroupErrors(faults, groups)
    ensures g.1 == [] && (forall x :: x in groups ==> faults(CreateGroupCall(x)).None?) ==>
              forall x :: x in groups ==> x in g.0.host.groups
    decreases |groups|
  {
    if |groups| == 0 then (w, [])
    else
      var a := CreateGroupIfNotExist(w, faults, groups[0]);
      var rest := CreateGroups(a.world, faults, groups[1..]);
      CreateGroupsCallsStep(w, a.world, rest.0, groups);
      assert forall x :: x in groups ==> x == groups[0] || x in groups[1..];
      (rest.0, (if a.err.Some? then [a.err.value] else []) + rest.1)
  }

  /** Calls made after `call` start with `call`. */
  lemma ExtendsRecorded(w: World, call: Call, w2: World)
    requires Extends(Record(w, call), w2)
    ensures Extends(w, w2) && |Since(w, w2)| >= 1 && Since(w, w2)[0] == call
  {
    ExtendsTransitive(w, Record(w, call), w2);
    assert Since(w, Record(w, call)) == [call];
  }

  // ---------------------------------------------------------------------------
  // CreateUser

  datatype CreateUserError =
    | LookupFailed(cause: BackendError)
    | UserAlreadyExists
    | GroupsFailed(causes: seq<BackendError>)
    | UserCreateFailed(cause: BackendError)

  /** Go's `(io.Closer, error)` pair, with the world after the calls. */
  datatype Created = Created(world: World, closer: Option<Closer>, err: Option<CreateUserError>)

  /** The groups a temporary user is created in: the requested ones and the service group. */
  function MemberGroups(groups: seq<GroupName>): (all: seq<GroupName>)
    ensures TeleportServiceGroup in all
    ensures forall g :: g in groups ==> g in all
  {
    groups + [TeleportServiceGroup]
  }

  /**
    The fresh-user path of `CreateUser`, taken once the lookup reported the user
    unknown: ensure every group, then create the user in all of them.
   */
  function CreateFreshUser(w: World, faults: Faults, name: UserName, groups: seq<GroupName>): (c: Created)
    ensures Extends(w, c.world)
    ensures c.closer.Some? ==> c.closer.value == UserCloser(name)
    ensures c.closer.None? <==> c.err.Some?
    ensures c.err.Some? ==> c.err.value.GroupsFailed? || c.err.value.UserCreateFailed?
    ensures forall x :: x in MemberGroups(groups) ==> LookupGroupCall(x) in Since(w, c.world)
    ensures c.err.Some? && c.err.value.GroupsFailed? ==>
              && UsersUnchanged(w.host, c.world.host)
              && |c.err.value.causes| > 0
              && forall call :: call in Since(w, c.world) ==> !call.CreateUserCall?
    ensures c.err.None? ==> CreateUserCall(name, MemberGroups(groups)) in Since(w, c.world)
  {
    var all := MemberGroups(groups);
    var g := CreateGroups(w, faults, all);
    if g.1 != [] then
      Created(g.0, None, Some(GroupsFailed(g.1)))
    else
      var u := HostBackend.CreateUser(g.0, faults, name, all);
      ExtendsTransitive(w, g.0, u.world);
      assert Since(g.0, u.world) == [CreateUserCall(name, all)];
      if u.result.Err? && !u.result.error.AlreadyExists? then
        Created(u.world, None, Some(UserCreateFailed(u.result.error)))
      else
        Created(u.world, Some(UserCloser(name)), None)
  }

  /** Every group passes `createGroupIfNotExist`. */
  predicate AllGroupsEnsured(faults: Faults, groups: seq<GroupName>)
  {
    forall x :: x in groups ==> GroupEnsured(faults, x)
  }

  /**
    The outcome of the fresh-user path. A group that cannot be ensured fails it
    with `GroupsFailed`; otherwise the backend creation decides: success, or
    "already exists" taken as success, gives a closer and no error, and any
    other backend error is returned as the creation failure.
   */
  lemma CreateFreshUserOutcome(w: World, faults: Faults, name: UserName, groups: seq<GroupName>)
    ensures var c := CreateFreshUser(w, faults, name, groups);
            var f := faults(CreateUserCall(name, MemberGroups(groups)));
      && (AllGroupsEnsured(faults, MemberGroups(groups)) <==> !(c.err.Some? && c.err.value.GroupsFailed?))
      && (!AllGroupsEnsured(faults, MemberGroups(groups)) ==>
            c.err == Some(GroupsFailed(GroupErrors(faults, MemberGroups(groups)))) && c.closer.None?)
      && (AllGroupsEnsured(faults, MemberGroups(groups)) ==>
            && (f.Some? && f.value.AlreadyExists? ==> c.err.None? && c.closer == Some(UserCloser(name)))
            && (f.Some? && !f.value.AlreadyExists? ==> c.err == Some(UserCreateFailed(f.value)) && c.closer.None?)
            && (f.None? && name in w.host.memberships ==> c.err.None? && c.closer == Some(UserCloser(name)))
            && (f.None? && name !in w.host.memberships ==>
                  (c.err.None? <==> forall x :: x in MemberGroups(groups) ==> x in c.world.host.groups)))
  {
    var all := MemberGroups(groups);
    var g := CreateGroups(w, faults, all);
    if g.1 == [] {
      var u := HostBackend.CreateUser(g.0, faults, name, all);
      assert CreateFreshUser(w, faults, name, groups) == (
        if u.result.Err? && !u.result.error.AlreadyExists? then Created(u.world, None, Some(UserCreateFailed(u.result.error)))
        else Created(u.world, Some(UserCloser(name)), None));
      assert u.world.host.groups == g.0.host.groups;
    }
  }

  /** `HostUserManagment.CreateUser`. */
  function CreateUser(w: World, faults: Faults, name: UserName, groups: seq<GroupName>): (c: Created)
    ensures Extends(w, c.world) && |Since(w, c.world)| >= 1 && Since(w, c.world)[0] == LookupCall(name)
    ensures c.closer.Some? ==> c.closer.value == UserCloser(name)
    // a closer comes back on success and alongside "already exists", and only then
    ensures c.closer.None? <==> c.err.Some? && c.err != Some(UserAlreadyExists)
  {
    var s := Lookup(w, faults, name);
    if s.result.Err? && s.result.error != UnknownUser(name) then
      Created(s.world, None, Some(LookupFailed(s.result.error)))
    else if s.result.Ok? then
      Created(s.world, Some(UserCloser(name)), Some(UserAlreadyExists))
    else
      var c := CreateFreshUser(s.world, faults, name, groups);
      ExtendsRecorded(w, LookupCall(name), c.world);
      c
  }

  /** The fresh-user path adds a user the host did not have, in the groups asked for and the service group. */
  lemma CreateFreshUserAddsUser(w: World, faults: Faults, name: UserName, groups: seq<GroupName>)
    requires name !in w.host.memberships
    requires faults(CreateUserCall(name, MemberGroups(groups))).None?
    ensures var c := CreateFreshUser(w, faults, name, groups);
      c.err.None? ==>
        && (forall x :: x in MemberGroups(groups) ==> x in c.world.host.groups)
        && c.world.host.passwd == w.host.passwd + [name]
        && c.world.host.memberships == w.host.memberships[name := GidsOf(c.world.host.groups, MemberGroups(groups))]
  {
    var all := MemberGroups(groups);
    var g := CreateGroups(w, faults, all);
    var c := CreateFreshUser(w, faults, name, groups);
    if g.1 == [] && c.err.None? {
      var u := HostBackend.CreateUser(g.0, faults, name, all);
      assert c.world == u.world;
      assert name !in g.0.host.memberships;
      assert u.result.Ok?;
      assert forall x :: x in all ==> x in g.0.host.groups;
    }
  }

  /** A user the lookup reports unknown takes the fresh-user path, right after the lookup. */
  lemma CreateUserUnknownIsFresh(w: World, faults: Faults, name: UserName, groups: seq<GroupName>)
    requires Lookup(w, faults, name).result == Err(UnknownUser(name))
    ensures CreateUser(w, faults, name, groups) == CreateFreshUser(Record(w, LookupCall(name)), faults, name, groups)
  {
  }

  /** An existing user: a closer and "already exists", and nothing else is done. */
  lemma CreateUserExisting(w: World, faults: Faults, name: UserName, groups: seq<GroupName>)
    requires Lookup(w, faults, name).result.Ok?
    ensures CreateUser(w, faults, name, groups)
         == Created(Record(w, LookupCall(name)), Some(UserCloser(name)), Some(UserAlreadyExists))
  {
  }

  /** A lookup failure other than "unknown user" is returned with no closer, and nothing else is done. */
  lemma CreateUserLookupFails(w: World, faults: Faults, name: UserName, groups: seq<GroupName>, e: BackendError)
    requires Lookup(w, faults, name).result == Err(e) && e != UnknownUser(name)
    ensures CreateUser(w, faults, name, groups) == Created(Record(w, LookupCall(name)), None, Some(LookupFailed(e)))
  {
  }

  /** A user the lookup does not find: every group, the service group included, is attempted, and a failed group means no user. */
  lemma CreateUserUnknownAttemptsAllGroups(w: World, faults: Faults, name: UserName, groups: seq<GroupName>)
    requires Lookup(w, faults, name).result == Err(UnknownUser(name))
    ensures var c := CreateUser(w, faults, name, groups);
      && (forall x :: x in MemberGroups(groups) ==> LookupGroupCall(x) in Since(w, c.world))
      && (c.err.Some? && c.err.value.GroupsFailed? ==>
            && c.closer.None?
            && UsersUnchanged(w.host, c.world.host)
            && forall call :: call in Since(w, c.world) ==> !call.CreateUserCall?)
  {
    var w1 := Record(w, LookupCall(name));
    var c := CreateFreshUser(w1, faults, name, groups);
    assert CreateUser(w, faults, name, groups) == c;
    ExtendsTransitive(w, w1, c.world);
    assert Since(w, c.world) == [LookupCall(name)] + Since(w1, c.world);
    assert w1.host == w.host;
  }

  /** On a fault-free host every group is ensured and a user the host did not have is created. */
  lemma CreateFreshUserFaultFree(w: World, name: UserName, groups: seq<GroupName>)
    requires name !in w.host.memberships
    ensures CreateFreshUser(w, NoFaults, name, groups).err.None?
  {
    var all := MemberGroups(groups);
    var g := CreateGroups(w, NoFaults, all);
    assert forall x :: x in all ==> GroupEnsured(NoFaults, x);
    assert forall x :: x in all ==> x in g.0.host.groups;
    assert name !in g.0.host.memberships;
    assert HostBackend.CreateUser(g.0, NoFaults, name, all).result.Ok?;
  }

  /** On a fault-free host, a new user is created in exactly the requested groups and the service group. */
  lemma CreateUserFreshJoinsServiceGroup(w: World, name: UserName, groups: seq<GroupName>)
    requires name !in w.host.memberships
    ensures var c := CreateUser(w, NoFaults, name, groups);
      && c.err.None? && c.closer == Some(UserCloser(name))
      && c.world.host.passwd == w.host.passwd + [name]
      && c.world.host.memberships == w.host.memberships[name := GidsOf(c.world.host.groups, MemberGroups(groups))]
      && TeleportServiceGroup in c.world.host.groups
      && c.world.host.groups[TeleportServiceGroup] in c.world.host.memberships[name]
  {
    var all := MemberGroups(groups);
    var w1 := Record(w, LookupCall(name));
    var c := CreateFreshUser(w1, NoFaults, name, groups);
    assert CreateUser(w, NoFaults, name, groups) == c;
    CreateFreshUserFaultFree(w1, name, groups);
    CreateFreshUserAddsUser(w1, NoFaults, name, groups);
    var ids := GidsOf(c.world.host.groups, all);
    assert ids[|all| - 1] == c.world.host.groups[TeleportServiceGroup];
  }

  // ---------------------------------------------------------------------------
  // DeleteUser

  /**
    When `DeleteUser(name, gid)` removes the user: the lookups and the deletion
    go through, the user exists, and `gid` is one of its group IDs.
   */
  predicate Removes(h: Host, faults: Faults, name: UserName, gid: Gid)
  {
    && faults(LookupCall(name)).None?
    && faults(UserGidsCall(name)).None?
    && faults(DeleteUserCall(name)).None?
    && name in h.memberships
    && gid in h.memberships[name]
  }

  /**
    The error `DeleteUser(name, gid)` returns on host `h`: an injected lookup
    error, "unknown user" for a user the host lacks, an injected error of the
    group-ID query, or, for a member of `gid`, the deletion's error unless it
    is "still logged in".
   */
  function DeleteErrorOf(h: Host, faults: Faults, name: UserName, gid: Gid): Option<BackendError>
  {
    if faults(LookupCall(name)).Some? then faults(LookupCall(name))
    else if name !in h.memberships then Some(UnknownUser(name))
    else if faults(UserGidsCall(name)).Some? then faults(UserGidsCall(name))
    else if gid in h.memberships[name] && faults(DeleteUserCall(name)) != Some(UserLoggedIn) then faults(DeleteUserCall(name))
    else None
  }

  /** When `DeleteUser(name, gid)` returns an error. */
  predicate DeleteFails(h: Host, faults: Faults, name: UserName, gid: Gid)
  {
    DeleteErrorOf(h, faults, name, gid).Some?
  }

  /** `HostUserManagment.DeleteUser`: delete the user only if it belongs to group `gid`. */
  function DeleteUser(w: World, faults: Faults, name: UserName, gid: Gid): (a: Attempt)
    ensures Extends(w, a.world) && |Since(w, a.world)| >= 1 && Since(w, a.world)[0] == LookupCall(name)
    ensures a.world.host == if Removes(w.host, faults, name, gid) then RemoveUser(w.host, name) else w.host
    // the backend deletion is attempted only for a member of `gid`
    ensures DeleteUserCall(name) in Since(w, a.world) ==> name in w.host.memberships && gid in w.host.memberships[name]
    ensures Since(w, a.world) <= [LookupCall(name), UserGidsCall(name), DeleteUserCall(name)]
    // no error exactly when the user was found, and was not a member, or was deleted, or is still logged in
    ensures a.err.Some? <==> DeleteFails(w.host, faults, name, gid)
    // and the error is the one the failing call returned: the lookup's, "unknown user", the group-ID query's, or the deletion's
    ensures a.err == DeleteErrorOf(w.host, faults, name, gid)
    ensures a.err.Some? && DeleteUserCall(name) in Since(w, a.world) ==> a.err == faults(DeleteUserCall(name))
  {
    var s1 := Lookup(w, faults, name);
    if s1.result.Err? then Attempt(s1.world, Some(s1.result.error))
    else
      var s2 := UserGids(s1.world, faults, s1.result.value);
      if s2.result.Err? then Attempt(s2.world, Some(s2.result.error))
      else if gid in s2.result.value then
        var s3 := HostBackend.DeleteUser(s2.world, faults, name);
        assert Since(w, s3.world) == [LookupCall(name), UserGidsCall(name), DeleteUserCall(name)];
        if s3.result.Err? && s3.result.error == UserLoggedIn then Attempt(s3.world, None)
        else Attempt(s3.world, if s3.result.Err? then Some(s3.result.error) else None)
      else
        assert Since(w, s2.world) == [LookupCall(name), UserGidsCall(name)];
        Attempt(s2.world, None)
  }

  /** A user still logged in is kept, and the deletion reports success. */
  lemma LoggedInUserKept(w: World, faults: Faults, name: UserName, gid: Gid)
    requires faults(DeleteUserCall(name)) == Some(UserLoggedIn)
    requires faults(LookupCall(name)).None? && faults(UserGidsCall(name)).None?
    requires name in w.host.memberships
    ensures DeleteUser(w, faults, name, gid).err.None?
    ensures DeleteUser(w, faults, name, gid).world.host == w.host
  {
  }

  // ---------------------------------------------------------------------------
  // DeleteAllUsers

  /**
    Deleting the listed users in turn reports no error: no deletion fails, and
    no user listed twice is removed by its first deletion, which would leave
    the second nothing to find.
   */
  predicate DeletesCleanly(h: Host, faults: Faults, users: seq<UserName>, gid: Gid)
  {
    forall u :: u in users ==>
      !DeleteFails(h, faults, u, gid) && !(multiset(users)[u] > 1 && Removes(h, faults, u, gid))
  }

  /** How deleting the first listed user changes what the rest of the list will report. */
  lemma DeletesCleanlyStep(h: Host, h': Host, faults: Faults, users: seq<UserName>, gid: Gid)
    requires |users| > 0
    requires h' == if Removes(h, faults, users[0], gid) then RemoveUser(h, users[0]) else h
    ensures DeletesCleanly(h, faults, users, gid) <==>
              !DeleteFails(h, faults, users[0], gid) && DeletesCleanly(h', faults, users[1..], gid)
  {
    var u0, rest := users[0], users[1..];
    assert users == [u0] + rest;
    assert multiset(users) == multiset{u0} + multiset(rest);
    forall u | u in users && u != u0
      ensures DeleteFails(h', faults, u, gid) == DeleteFails(h, faults, u, gid)
      ensures Removes(h', faults, u, gid) == Removes(h, faults, u, gid)
      ensures multiset(users)[u] == multiset(rest)[u]
    {
    }
    if Removes(h, faults, u0, gid) {
      assert u0 !in h'.memberships;
    }
  }

  /**
    The errors of deleting `users` in turn, each stated on the original host
    `h`: a user's error is the one `DeleteUser` returns on `h`, except that a
    user already listed in `earlier` and removed there is now unknown.
   */
  function ErrorsFrom(h: Host, faults: Faults, earlier: seq<UserName>, users: seq<UserName>, gid: Gid): seq<BackendError>
    decreases |users|
  {
    if |users| == 0 then []
    else
      var u := users[0];
      var e := if u in earlier && Removes(h, faults, u, gid) then Some(UnknownUser(u)) else DeleteErrorOf(h, faults, u, gid);
      (if e.Some? then [e.value] else []) + ErrorsFrom(h, faults, earlier + [u], users[1..], gid)
  }

  /** Deleting `u0` first turns "listed earlier" for `u0` into the host after that deletion. */
  lemma {:induction false} ErrorsFromShift(
    h: Host, h': Host, faults: Faults, u0: UserName, earlier: seq<UserName>, users: seq<UserName>, gid: Gid)
    requires h' == if Removes(h, faults, u0, gid) then RemoveUser(h, u0) else h
    ensures ErrorsFrom(h, faults, [u0] + earlier, users, gid) == ErrorsFrom(h', faults, earlier, users, gid)
    decreases |users|
  {
    if |users| > 0 {
      var u := users[0];
      assert ([u0] + earlier) + [u] == [u0] + (earlier + [u]);
      ErrorsFromShift(h, h', faults, u0, earlier + [u], users[1..], gid);
      if u != u0 {
        assert DeleteErrorOf(h', faults, u, gid) == DeleteErrorOf(h, faults, u, gid);
        assert Removes(h', faults, u, gid) == Removes(h, faults, u, gid);
      }
    }
  }

  /** The failures collected by one step of the bulk deletion: the first user's error, then the rest's. */
  lemma DeleteEachErrorsStep(
    h: Host, h': Host, faults: Faults, users: seq<UserName>, gid: Gid, err: Option<BackendError>, rest: seq<BackendError>)
    requires |users| > 0
    requires h' == if Removes(h, faults, users[0], gid) then RemoveUser(h, users[0]) else h
    requires err == DeleteErrorOf(h, faults, users[0], gid)
    requires rest == ErrorsFrom(h', faults, [], users[1..], gid)
    requires rest == [] <==> DeletesCleanly(h', faults, users[1..], gid)
    ensures var all := (if err.Some? then [err.value] else []) + rest;
      && all == ErrorsFrom(h, faults, [], users, gid)
      && (all == [] <==> DeletesCleanly(h, faults, users, gid))
  {
    DeletesCleanlyStep(h, h', faults, users, gid);
    ErrorsFromShift(h, h', faults, users[0], [], users[1..], gid);
    assert [users[0]] + [] == [] + [users[0]];
  }

  /** Delete each listed user in turn, collecting every failure. */
  function DeleteEach(w: World, faults: Faults, users: seq<UserName>, gid: Gid): (b: (World, seq<BackendError>))
    ensures Extends(w, b.0)
    ensures forall u :: u in users ==> LookupCall(u) in Since(w, b.0)
    ensures b.0.host.groups == w.host.groups && b.0.host.nextGid == w.host.nextGid
    ensures forall u :: u in b.0.host.memberships <==>
              u in w.host.memberships && !(u in users && Removes(w.host, faults, u, gid))
    ensures forall u :: u in b.0.host.memberships ==> b.0.host.memberships[u] == w.host.memberships[u]
    ensures |b.1| <= |users|
    // no failure collected exactly when the list is deleted cleanly
    ensures b.1 == [] <==> DeletesCleanly(w.host, faults, users, gid)
    // the failures are exactly the errors the deletions returned, in list order
    ensures b.1 == ErrorsFrom(w.host, faults, [], users, gid)
    decreases |users|
  {
    if |users| == 0 then (w, [])
    else
      var a := DeleteUser(w, faults, users[0], gid);
      var rest := DeleteEach(a.world, faults, users[1..], gid);
      DeleteEachErrorsStep(w.host, a.world.host, faults, users, gid, a.err, rest.1);
      ExtendsTransitive(w, a.world, rest.0);
      assert forall x :: x in users ==> x == users[0] || x in users[1..];
      assert Since(w, a.world)[0] == LookupCall(users[0]);
      (rest.0, (if a.err.Some? then [a.err.value] else []) + rest.1)
  }

  datatype DeleteAllError =
    | ListFailed(cause: BackendError)
    | ServiceGroupLookupFailed(cause: BackendError)
    | Aggregate(causes: seq<BackendError>)

  datatype BulkAttempt = BulkAttempt(world: World, err: Option<DeleteAllError>)

  /** Whether the bulk deletion gets past its two lookups. */
  predicate BulkProceeds(h: Host, faults: Faults)
  {
    faults(GetAllUsersCall).None? && faults(LookupGroupCall(TeleportServiceGroup)).None? && TeleportServiceGroup in h.groups
  }

  /** `HostUserManagment.DeleteAllUsers`: delete every listed user that belongs to the service group. */
  function DeleteAllUsers(w: World, faults: Faults): (a: BulkAttempt)
    ensures Extends(w, a.world)
    // without the user list or the service group, nothing is deleted
    ensures !BulkProceeds(w.host, faults) ==> a.world.host == w.host && a.err.Some? && !a.err.value.Aggregate?
    // otherwise every listed user is looked up, with no short-circuit
    ensures BulkProceeds(w.host, faults) ==> forall u :: u in w.host.passwd ==> LookupCall(u) in Since(w, a.world)
    // and exactly the listed users that `DeleteUser` removes with the service group's ID are gone
    ensures BulkProceeds(w.host, faults) ==>
              forall u :: u in a.world.host.memberships <==>
                u in w.host.memberships
                && !(u in w.host.passwd && Removes(w.host, faults, u, w.host.groups[TeleportServiceGroup]))
    ensures forall u :: u in a.world.host.memberships ==> a.world.host.memberships[u] == w.host.memberships[u]
    ensures a.err.Some? && a.err.value.Aggregate? ==> |a.err.value.causes| > 0
    // the aggregate is nil exactly when every listed user is deleted cleanly
    ensures BulkProceeds(w.host, faults) ==>
              (a.err.None? <==> DeletesCleanly(w.host, faults, w.host.passwd, w.host.groups[TeleportServiceGroup]))
    // a failed listing or service-group lookup is returned as it is
    ensures faults(GetAllUsersCall).Some? ==> a.err == Some(ListFailed(faults(GetAllUsersCall).value))
    ensures faults(GetAllUsersCall).None? && faults(LookupGroupCall(TeleportServiceGroup)).Some? ==>
              a.err == Some(ServiceGroupLookupFailed(faults(LookupGroupCall(TeleportServiceGroup)).value))
    ensures faults(GetAllUsersCall).None? && faults(LookupGroupCall(TeleportServiceGroup)).None?
            && TeleportServiceGroup !in w.host.groups ==>
              a.err == Some(ServiceGroupLookupFailed(UnknownGroup(TeleportServiceGroup)))
    // and the aggregate holds exactly the deletions' errors, in listing order
    ensures BulkProceeds(w.host, faults) ==>
              var errs := ErrorsFrom(w.host, faults, [], w.host.passwd, w.host.groups[TeleportServiceGroup]);
              a.err == if errs == [] then None else Some(Aggregate(errs))
  {
    var s1 := GetAllUsers(w, faults);
    if s1.result.Err? then BulkAttempt(s1.world, Some(ListFailed(s1.result.error)))
    else
      var s2 := LookupGroup(s1.world, faults, TeleportServiceGroup);
      ExtendsTransitive(w, s1.world, s2.world);
      if s2.result.Err? then BulkAttempt(s2.world, Some(ServiceGroupLookupFailed(s2.result.error)))
      else
        var b := DeleteEach(s2.world, faults, s1.result.value, s2.result.value);
        ExtendsTransitive(w, s2.world, b.0);
        BulkAttempt(b.0, if b.1 == [] then None else Some(Aggregate(b.1)))
  }

  /** The bulk deletion removes only members of the service group. */
  lemma DeleteAllUsersRemovesOnlyServiceMembers(w: World, faults: Faults, u: UserName)
    requires u in w.host.memberships
    ensures u !in DeleteAllUsers(w, faults).world.host.memberships ==>
              TeleportServiceGroup in w.host.groups && w.host.groups[TeleportServiceGroup] in w.host.memberships[u]
  {
  }

  /** On a fault-free host, every listed member of the service group is removed and every other user kept. */
  lemma DeleteAllUsersFaultFree(w: World, u: UserName)
    requires TeleportServiceGroup in w.host.groups && Valid(w.host)
    requires u in w.host.memberships
    ensures u !in DeleteAllUsers(w, NoFaults).world.host.memberships
        <==> w.host.groups[TeleportServiceGroup] in w.host.memberships[u]
  {
  }

  // ---------------------------------------------------------------------------
  // userCloser.Close

  /** `userCloser.Close`: delete the user if it is still in the service group. */
  function Close(w: World, faults: Faults, closer: Closer): (a: Attempt)
    ensures Extends(w, a.world)
    ensures !ServiceGroupFound(w.host, faults) ==> a.world.host == w.host && a.err.Some?
    ensures ServiceGroupFound(w.host, faults) ==>
              a.world.host == if Removes(w.host, faults, closer.user, w.host.groups[TeleportServiceGroup])
                              then RemoveUser(w.host, closer.user) else w.host
    // once the group is found, the error is the deletion's
    ensures ServiceGroupFound(w.host, faults) ==>
              (a.err.Some? <==> DeleteFails(w.host, faults, closer.user, w.host.groups[TeleportServiceGroup]))
    ensures ServiceGroupFound(w.host, faults) ==>
              a.err == DeleteErrorOf(w.host, faults, closer.user, w.host.groups[TeleportServiceGroup])
    // a failed service-group lookup is returned as it is
    ensures faults(LookupGroupCall(TeleportServiceGroup)).Some? ==> a.err == faults(LookupGroupCall(TeleportServiceGroup))
    ensures faults(LookupGroupCall(TeleportServiceGroup)).None? && TeleportServiceGroup !in w.host.groups ==>
              a.err == Some(UnknownGroup(TeleportServiceGroup))
  {
    var s := LookupGroup(w, faults, TeleportServiceGroup);
    if s.result.Err? then Attempt(s.world, Some(s.result.error))
    else
      var a := DeleteUser(s.world, faults, closer.user, s.result.value);
      ExtendsTransitive(w, s.world, a.world);
      a
  }

  /** Whether the lookup of the service group succeeds. */
  predicate ServiceGroupFound(h: Host, faults: Faults)
  {
    faults(LookupGroupCall(TeleportServiceGroup)).None? && TeleportServiceGroup in h.groups
  }

  lemma {:induction false} WithoutAppended(s: seq<UserName>, x: UserName)
    requires x !in s
    ensures Without(s + [x], x) == s
    decreases |s|
  {
    if |s| == 0 {
    } else {
      assert (s + [x])[1..] == s[1..] + [x];
      WithoutAppended(s[1..], x);
    }
  }

  /**
    Creating a temporary user and closing its closer on a fault-free host
    leaves the users as they were; only the groups created on the way remain.
   */
  lemma CreateThenCloseRestoresUsers(w: World, name: UserName, groups: seq<GroupName>)
    requires Valid(w.host) && name !in w.host.memberships
    ensures var c := CreateUser(w, NoFaults, name, groups);
      && c.closer == Some(UserCloser(name))
      && UsersUnchanged(w.host, Close(c.world, NoFaults, c.closer.value).world.host)
  {
    var c := CreateUser(w, NoFaults, name, groups);
    CreateUserFreshJoinsServiceGroup(w, name, groups);
    var h1 := c.world.host;
    var gid := h1.groups[TeleportServiceGroup];
    assert ServiceGroupFound(h1, NoFaults);
    assert Removes(h1, NoFaults, name, gid);
    var a := Close(c.world, NoFaults, UserCloser(name));
    assert a.world.host == RemoveUser(h1, name);
    RemoveAddedUser(w.host, h1, name, GidsOf(h1.groups, MemberGroups(groups)));
  }

  /** Removing a user that was appended to a valid host gives back its user tables. */
  lemma RemoveAddedUser(h0: Host, h1: Host, name: UserName, ids: seq<Gid>)
    requires Valid(h0) && name !in h0.memberships
    requires h1.passwd == h0.passwd + [name] && h1.memberships == h0.memberships[name := ids]
    ensures UsersUnchanged(h0, RemoveUser(h1, name))
  {
    assert name !in h0.passwd;
    WithoutAppended(h0.passwd, name);
    assert h1.memberships - {name} == h0.memberships;
  }

  // ---------------------------------------------------------------------------
  // A valid host stays valid.

  lemma CreateGroupIfNotExistPreservesValid(w: World, faults: Faults, group: GroupName)
    requires Valid(w.host)
    ensures Valid(CreateGroupIfNotExist(w, faults, group).world.host)
  {
    CreateGroupKeepsValid(Record(w, LookupGroupCall(group)), faults, group);
  }

  lemma {:induction false} CreateGroupsPreservesValid(w: World, faults: Faults, groups: seq<GroupName>)
    requires Valid(w.host)
    ensures Valid(CreateGroups(w, faults, groups).0.host)
    decreases |groups|
  {
    if |groups| > 0 {
      var a := CreateGroupIfNotExist(w, faults, groups[0]);
      CreateGroupIfNotExistPreservesValid(w, faults, groups[0]);
      CreateGroupsPreservesValid(a.world, faults, groups[1..]);
    }
  }

  lemma CreateFreshUserPreservesValid(w: World, faults: Faults, name: UserName, groups: seq<GroupName>)
    requires Valid(w.host)
    ensures Valid(CreateFreshUser(w, faults, name, groups).world.host)
  {
    var g := CreateGroups(w, faults, MemberGroups(groups));
    CreateGroupsPreservesValid(w, faults, MemberGroups(groups));
    if g.1 == [] {
      HostBackend.CreateUserKeepsValid(g.0, faults, name, MemberGroups(groups));
    }
  }

  lemma CreateUserPreservesValid(w: World, faults: Faults, name: UserName, groups: seq<GroupName>)
    requires Valid(w.host)
    ensures Valid(CreateUser(w, faults, name, groups).world.host)
  {
    if Lookup(w, faults, name).result == Err(UnknownUser(name)) {
      CreateUserUnknownIsFresh(w, faults, name, groups);
      CreateFreshUserPreservesValid(Record(w, LookupCall(name)), faults, name, groups);
    }
  }

  lemma DeleteUserPreservesValid(w: World, faults: Faults, name: UserName, gid: Gid)
    requires Valid(w.host)
    ensures Valid(DeleteUser(w, faults, name, gid).world.host)
  {
    HostBackend.DeleteUserKeepsValid(Record(Record(w, LookupCall(name)), UserGidsCall(name)), faults, name);
  }

  lemma {:induction false} DeleteEachPreservesValid(w: World, faults: Faults, users: seq<UserName>, gid: Gid)
    requires Valid(w.host)
    ensures Valid(DeleteEach(w, faults, users, gid).0.host)
    decreases |users|
  {
    if |users| > 0 {
      var a := DeleteUser(w, faults, users[0], gid);
      DeleteUserPreservesValid(w, faults, users[0], gid);
      DeleteEachPreservesValid(a.world, faults, users[1..], gid);
    }
  }

  lemma DeleteAllUsersPreservesValid(w: World, faults: Faults)
    requires Valid(w.host)
    ensures Valid(DeleteAllUsers(w, faults).world.host)
  {
    if BulkProceeds(w.host, faults) {
      var w2 := Record(Record(w, GetAllUsersCall), LookupGroupCall(TeleportServiceGroup));
      DeleteEachPreservesValid(w2, faults, w.host.passwd, w.host.groups[TeleportServiceGroup]);
    }
  }

  lemma ClosePreservesValid(w: World, faults: Faults, closer: Closer)
    requires Valid(w.host)
    ensures Valid(Close(w, faults, closer).world.host)
  {
    if ServiceGroupFound(w.host, faults) {
      DeleteUserPreservesValid(Record(w, LookupGroupCall(TeleportServiceGroup)), faults, closer.user, w.host.groups[TeleportServiceGroup]);
    }
  }
}
