/**
 Mirroring group members into roles (authentik/rbac/signals.py): a role is used by one group, and its
 user set follows that group's members.
 */
module Rbac {
  import opened Groups

  type Group = string
  type Role = string
  type User = string
  type UserSets = map<Role, set<User>>

  /** Members of groups, user sets of the existing roles, role assignments, parents of groups. */
  datatype State = State(
    members: map<Group, set<User>>,
    userSets: UserSets,
    uses: set<(Group, Role)>,
    parents: map<Group, Group>)
  {
    function Members(g: Group): set<User> { if g in members then members[g] else {} }

    function RolesOf(g: Group): set<Role> { set a | a in uses && a.0 == g :: a.1 }

    function Users(groups: set<Group>): set<User> { set a, u | a in groups && u in Members(a) :: u }

    /** The groups the recursive query reaches: the group itself and its parents. */
    ghost function Chain(g: Group): set<Group> { Climb(parents, {g}) }

    ghost function GroupUsers(g: Group): set<User> { Users(Chain(g)) }
  }

  datatype Event =
    | AddRoles(g: Group, roles: set<Role>)
    | RemoveRoles(g: Group, roles: set<Role>)
    | AddUsers(g: Group, users: set<User>)
    | RemoveUsers(g: Group, users: set<User>)
    | JoinGroups(u: User, groups: set<Group>)
    | LeaveGroups(u: User, groups: set<Group>)
    | DeleteGroup(g: Group)
    | DeleteRole(r: Role)

  /** Adds or removes users in the user sets of some roles. */
  function AddTo(userSets: UserSets, roles: set<Role>, users: set<User>): UserSets
  {
    map r | r in userSets :: if r in roles then userSets[r] + users else userSets[r]
  }

  function RemoveFrom(userSets: UserSets, roles: set<Role>, users: set<User>): UserSets
  {
    map r | r in userSets :: if r in roles then userSets[r] - users else userSets[r]
  }

  function Clear(userSets: UserSets, roles: set<Role>): UserSets
  {
    map r | r in userSets :: if r in roles then {} else userSets[r]
  }

  /** The `pre_add` check: a role being added is used by another group. */
  predicate Conflict(s: State, g: Group, roles: set<Role>)
  {
    exists a :: a in s.uses && a.1 in roles && a.0 != g
  }

  function RolesOfAny(s: State, groups: set<Group>): set<Role> { set a | a in s.uses && a.0 in groups :: a.1 }

  /** The groups among `groups` that the user is not yet in. */
  function NewGroups(s: State, u: User, groups: set<Group>): set<Group> { set g | g in groups && u !in s.Members(g) }

  /** Children of a deleted group lose their parent. */
  function Without(parents: map<Group, Group>, g: Group): map<Group, Group>
  {
    map c | c in parents && c != g && parents[c] != g :: parents[c]
  }

  /** An addition signals only what was missing; a removal signals everything it was asked to remove. */
  ghost function Next(s: State, e: Event): State
  {
    match e
    case AddRoles(g, asked) =>
      var roles := asked - s.RolesOf(g);
      if Conflict(s, g, roles) then s
      else s.(uses := s.uses + (set r | r in roles :: (g, r)), userSets := AddTo(s.userSets, roles, s.GroupUsers(g)))
    case RemoveRoles(g, roles) =>
      s.(uses := s.uses - (set r | r in roles :: (g, r)), userSets := RemoveFrom(s.userSets, roles, s.GroupUsers(g)))
    case AddUsers(g, users) =>
      s.(members := s.members[g := s.Members(g) + users],
         userSets := AddTo(s.userSets, s.RolesOf(g), users - s.Members(g)))
    case RemoveUsers(g, users) =>
      s.(members := s.members[g := s.Members(g) - users], userSets := RemoveFrom(s.userSets, s.RolesOf(g), users))
    case JoinGroups(u, groups) =>
      s.(members := map g | g in s.members.Keys + groups :: if g in groups then s.Members(g) + {u} else s.Members(g),
         userSets := AddTo(s.userSets, RolesOfAny(s, NewGroups(s, u, groups)), {u}))
    case LeaveGroups(u, groups) =>
      s.(members := map g | g in s.members :: if g in groups then s.members[g] - {u} else s.members[g],
         userSets := RemoveFrom(s.userSets, RolesOfAny(s, groups), {u}))
    case DeleteGroup(g) =>
      State(s.members - {g}, Clear(s.userSets, s.RolesOf(g)), (set a | a in s.uses && a.0 != g), Without(s.parents, g))
    case DeleteRole(r) =>
      s.(userSets := s.userSets - {r}, uses := set a | a in s.uses && a.1 != r)
  }

  /** Roles exist when they are added, and only assigned roles are removed. */
  predicate Proper(s: State, e: Event)
  {
    match e
    case AddRoles(_, roles) => roles <= s.userSets.Keys
    case RemoveRoles(g, roles) => forall r :: r in roles ==> (g, r) in s.uses
    case _ => true
  }

  ghost function Run(s: State, events: seq<Event>): State
  {
    if events == [] then s else Next(Run(s, events[..|events| - 1]), events[|events| - 1])
  }

  ghost predicate ProperRun(s: State, events: seq<Event>)
  {
    events == [] ||
    (ProperRun(s, events[..|events| - 1]) && Proper(Run(s, events[..|events| - 1]), events[|events| - 1]))
  }

  // ---------------------------------------------------------------------------
  // What an event does
  // ---------------------------------------------------------------------------

  /** Adding roles takes place exactly when no other group uses one of them. */
  lemma UsesAfter(s: State, e: Event, g: Group, r: Role)
    requires OneGroup(s)
    ensures (g, r) in Next(s, e).uses <==>
            match e
            case AddRoles(h, roles) =>
              (g, r) in s.uses || (g == h && r in roles && forall a :: a in s.uses && a.1 in roles ==> a.0 == h)
            case RemoveRoles(h, roles) => (g, r) in s.uses && !(g == h && r in roles)
            case DeleteGroup(h) => (g, r) in s.uses && g != h
            case DeleteRole(q) => (g, r) in s.uses && r != q
            case _ => (g, r) in s.uses
  {
    hide State.GroupUsers;
    if e.AddRoles? {
      var added := e.roles - s.RolesOf(e.g);
      forall q ensures q in s.RolesOf(e.g) <==> (e.g, q) in s.uses { }
      assert Conflict(s, e.g, added) <==> exists a :: a in s.uses && a.1 in e.roles && a.0 != e.g;
    }
  }

  lemma MembersAfter(s: State, e: Event, g: Group)
    ensures Next(s, e).Members(g) ==
            match e
            case AddUsers(h, users) => if g == h then s.Members(g) + users else s.Members(g)
            case RemoveUsers(h, users) => if g == h then s.Members(g) - users else s.Members(g)
            case JoinGroups(u, groups) => if g in groups then s.Members(g) + {u} else s.Members(g)
            case LeaveGroups(u, groups) => if g in groups then s.Members(g) - {u} else s.Members(g)
            case DeleteGroup(h) => if g == h then {} else s.Members(g)
            case _ => s.Members(g)
  {
    hide State.GroupUsers;
  }

  /** Only a deletion changes parents: the group's own and those of its children. */
  lemma ParentsAfter(s: State, e: Event, c: Group)
    ensures var parents := Next(s, e).parents;
            && (c in parents <==> c in s.parents && (e.DeleteGroup? ==> c != e.g && s.parents[c] != e.g))
            && (c in parents ==> parents[c] == s.parents[c])
  {
    hide State.GroupUsers;
  }

  /** The user set of a role changes with its group only; a deleted group leaves it empty. */
  lemma UserSetAfter(s: State, e: Event, g: Group, r: Role)
    requires OneGroup(s) && (g, r) in s.uses && (e.DeleteRole? ==> e.r != r)
    ensures r in Next(s, e).userSets
    ensures Next(s, e).userSets[r] ==
            match e
            case AddRoles(_, _) => s.userSets[r]
            case RemoveRoles(h, roles) => if r in roles then s.userSets[r] - s.GroupUsers(h) else s.userSets[r]
            case AddUsers(h, users) => if g == h then s.userSets[r] + (users - s.Members(h)) else s.userSets[r]
            case RemoveUsers(h, users) => if g == h then s.userSets[r] - users else s.userSets[r]
            case JoinGroups(u, groups) =>
              if g in groups && u !in s.Members(g) then s.userSets[r] + {u} else s.userSets[r]
            case LeaveGroups(u, groups) => if g in groups then s.userSets[r] - {u} else s.userSets[r]
            case DeleteGroup(h) => if g == h then {} else s.userSets[r]
            case DeleteRole(_) => s.userSets[r]
  {
    hide State.GroupUsers;
    forall h ensures r in s.RolesOf(h) <==> g == h { assert r in s.RolesOf(h) <==> (h, r) in s.uses; }
    match e
    case AddRoles(h, roles) => AddedElsewhere(s, h, roles, g, r);
    case JoinGroups(u, groups) =>
      assert r in RolesOfAny(s, NewGroups(s, u, groups)) <==> g in groups && u !in s.Members(g);
    case LeaveGroups(u, groups) => assert r in RolesOfAny(s, groups) <==> g in groups;
    case _ =>
  }

  /** A role that is in use is not added again. */
  lemma AddedElsewhere(s: State, h: Group, roles: set<Role>, g: Group, r: Role)
    requires OneGroup(s) && (g, r) in s.uses
    ensures Conflict(s, h, roles - s.RolesOf(h)) || r !in roles - s.RolesOf(h)
  {
    var a := (g, r);
    assert a in s.uses;
    if g == h { assert r in s.RolesOf(h); }
  }

  /** A role without a group gets the users of its new group. */
  lemma NewRoleGetsUsers(s: State, g: Group, roles: set<Role>, r: Role)
    requires OneGroup(s) && r in roles && r in s.userSets && forall a :: a in s.uses ==> a.1 != r
    requires forall a :: a in s.uses && a.1 in roles ==> a.0 == g
    ensures var s' := Next(s, AddRoles(g, roles)); r in s'.userSets && s'.userSets[r] == s.userSets[r] + s.GroupUsers(g)
  {
    hide State.GroupUsers;
    assert !Conflict(s, g, roles - s.RolesOf(g));
  }

  // ---------------------------------------------------------------------------
  // The mirror
  // ---------------------------------------------------------------------------

  /** Assigned roles exist and have one group. */
  ghost predicate OneGroup(s: State)
  {
    && (forall a :: a in s.uses ==> a.1 in s.userSets)
    && (forall a, b :: a in s.uses && b in s.uses && a.1 == b.1 ==> a.0 == b.0)
  }

  /** A role's user set contains the direct members of its group. */
  ghost predicate Mirrors(s: State)
  {
    OneGroup(s) && forall a :: a in s.uses ==> s.Members(a.0) <= s.userSets[a.1]
  }

  ghost predicate Assigned(s: State, r: Role) { exists a :: a in s.uses && a.1 == r }

  /** A role's user set is exactly the users of its group and that group's parents, or empty without one. */
  ghost predicate Exact(s: State)
  {
    && OneGroup(s)
    && (forall a :: a in s.uses ==> s.userSets[a.1] == s.GroupUsers(a.0))
    && (forall r :: r in s.userSets && !Assigned(s, r) ==> s.userSets[r] == {})
  }

  lemma GroupUsersContainMembers(s: State, g: Group)
    ensures s.Members(g) <= s.GroupUsers(g)
  {
    InOwnChain(s, g);
  }

  lemma ChainWithoutParents(s: State, g: Group)
    requires s.parents == map[]
    ensures s.Chain(g) == {g} && s.GroupUsers(g) == s.Members(g)
  {
    InOwnChain(s, g);
    forall a | a in s.Chain(g) ensures a == g {
      var h :| h in {g} && Near(s.parents, h, GROUP_RECURSION_LIMIT, a);
      var n: nat :| n < GROUP_RECURSION_LIMIT && Above(s.parents, h, n, a);
    }
    hide State.Chain;
    assert s.Chain(g) == {g};
    forall u ensures u in s.Users({g}) <==> u in s.Members(g) { InUsers(s, {g}, u); }
  }

  lemma InOwnChain(s: State, g: Group)
    ensures g in s.Chain(g)
  {
    QueryIsSound(s.parents, {g});
  }

  lemma InUsers(s: State, groups: set<Group>, u: User)
    ensures u in s.Users(groups) <==> exists c :: c in groups && u in s.Members(c)
  {
  }

  lemma EventKeepsOneGroup(s: State, e: Event)
    requires OneGroup(s) && Proper(s, e)
    ensures OneGroup(Next(s, e))
  {
  }

  lemma EventKeepsMirror(s: State, e: Event)
    requires Mirrors(s) && Proper(s, e)
    ensures Mirrors(Next(s, e))
  {
    EventKeepsOneGroup(s, e);
    var s' := Next(s, e);
    forall a | a in s'.uses ensures s'.Members(a.0) <= s'.userSets[a.1] {
      if e.AddRoles? { GroupUsersContainMembers(s, e.g); }
      if a in s.uses { assert a.1 in s.RolesOf(a.0); }
    }
  }

  /** Over every run a role is used by one group and its user set contains the group's direct members. */
  lemma {:induction false} RunMirrors(s: State, events: seq<Event>)
    requires Mirrors(s) && ProperRun(s, events)
    ensures Mirrors(Run(s, events))
  {
    if events != [] {
      hide Mirrors, Next, Proper;
      RunMirrors(s, events[..|events| - 1]);
      EventKeepsMirror(Run(s, events[..|events| - 1]), events[|events| - 1]);
    }
  }

  // ---------------------------------------------------------------------------
  // Exactly when the mirror stays exact
  // ---------------------------------------------------------------------------

  /** The groups gain users; a role of another group stays right if those are users of its group already. */
  ghost predicate GainFollowed(s: State, g: Group, changed: set<Group>, users: set<User>)
  {
    g in changed || s.Chain(g) !! changed || users <= s.GroupUsers(g)
  }

  /**
   The groups lose users.  A role of one of them stays right if no other parent still provides such a
   user, a role of another group if others still provide all of them.
   */
  ghost predicate LossFollowed(s: State, g: Group, changed: set<Group>, users: set<User>)
  {
    var rest := s.Users(s.Chain(g) - changed);
    if g in changed then users !! rest else users * s.Users(s.Chain(g) * changed) <= rest
  }

  /** The handlers touch the roles of the changed groups only; when that is right for a role of `g`. */
  ghost predicate Followed(s: State, e: Event, g: Group)
  {
    match e
    case AddUsers(h, users) => GainFollowed(s, g, {h}, users)
    case JoinGroups(u, groups) => GainFollowed(s, g, groups, {u})
    case RemoveUsers(h, users) => LossFollowed(s, g, {h}, users)
    case LeaveGroups(u, groups) => LossFollowed(s, g, groups, {u})
    case DeleteGroup(h) => g != h ==> s.GroupUsers(g) <= s.Users(Climb(Without(s.parents, h), {g}))
    case _ => true
  }

  ghost predicate AllFollowed(s: State, e: Event) { forall a :: a in s.uses ==> Followed(s, e, a.0) }

  lemma UsersGained(s: State, s': State, groups: set<Group>, changed: set<Group>, users: set<User>)
    requires forall c :: s'.Members(c) == s.Members(c) + (if c in changed then users else {})
    ensures s'.Users(groups) == s.Users(groups) + (if groups !! changed then {} else users)
  {
    forall u ensures u in s'.Users(groups) <==> u in s.Users(groups) || (u in users && !(groups !! changed)) {
      InUsers(s, groups, u);
      InUsers(s', groups, u);
    }
  }

  lemma UsersLost(s: State, s': State, groups: set<Group>, changed: set<Group>, users: set<User>)
    requires forall c :: s'.Members(c) == s.Members(c) - (if c in changed then users else {})
    ensures s.Users(groups) == s.Users(groups - changed) + s.Users(groups * changed)
    ensures s'.Users(groups) == s.Users(groups - changed) + (s.Users(groups * changed) - users)
  {
    forall u
      ensures u in s.Users(groups) <==> u in s.Users(groups - changed) || u in s.Users(groups * changed)
      ensures u in s'.Users(groups) <==>
              u in s.Users(groups - changed) || (u in s.Users(groups * changed) && u !in users)
    {
      InUsers(s, groups, u);
      InUsers(s', groups, u);
      InUsers(s, groups - changed, u);
      InUsers(s, groups * changed, u);
    }
  }

  lemma GainExactly(s: State, s': State, a: (Group, Role), changed: set<Group>, users: set<User>)
    requires Exact(s) && a in s.uses && s'.parents == s.parents && a.1 in s'.userSets
    requires forall c :: s'.Members(c) == s.Members(c) + (if c in changed then users else {})
    requires s'.userSets[a.1] == s.userSets[a.1] + (if a.0 in changed then users - s.Members(a.0) else {})
    ensures s'.userSets[a.1] == s'.GroupUsers(a.0) <==> GainFollowed(s, a.0, changed, users)
  {
    GroupUsersContainMembers(s, a.0);
    InOwnChain(s, a.0);
    UsersGained(s, s', s.Chain(a.0), changed, users);
    hide State.Users;
    assert s'.Chain(a.0) == s.Chain(a.0);
    hide State.Chain;
    if a.0 in changed { assert a.0 in s.Chain(a.0) * changed; }
  }

  lemma LossExactly(s: State, s': State, a: (Group, Role), changed: set<Group>, users: set<User>)
    requires Exact(s) && a in s.uses && s'.parents == s.parents && a.1 in s'.userSets
    requires forall c :: s'.Members(c) == s.Members(c) - (if c in changed then users else {})
    requires s'.userSets[a.1] == s.userSets[a.1] - (if a.0 in changed then users else {})
    ensures s'.userSets[a.1] == s'.GroupUsers(a.0) <==> LossFollowed(s, a.0, changed, users)
  {
    assert s.userSets[a.1] == s.GroupUsers(a.0) && s'.Chain(a.0) == s.Chain(a.0);
    hide Exact, State.Chain;
    UsersLost(s, s', s.Chain(a.0), changed, users);
    hide State.Users;
    SetLoss(s.Users(s.Chain(a.0) - changed), s.Users(s.Chain(a.0) * changed), users);
  }

  lemma SetLoss<T>(rest: set<T>, part: set<T>, less: set<T>)
    ensures (rest + part) - less == rest + (part - less) <==> less !! rest
    ensures rest + part == rest + (part - less) <==> less * part <= rest
  {
    forall x | x in less ensures x !in rest + (part - less) <==> x !in rest { }
    forall x | x in less * part ensures x in rest + (part - less) <==> x in rest { }
  }

  lemma {:induction false} CutChain(parents: map<Group, Group>, g: Group, h: Group, n: nat, c: Group)
    requires g != h && Above(Without(parents, h), g, n, c)
    ensures c != h && Above(parents, g, n, c)
    decreases n
  {
    if n > 0 { CutChain(parents, parents[g], h, n - 1, c); }
  }

  /** Deleting a group cuts the chains through it. */
  lemma CutUsers(s: State, s': State, g: Group, h: Group)
    requires g != h && s'.parents == Without(s.parents, h) && s'.members == s.members - {h}
    ensures s'.Chain(g) <= s.Chain(g) - {h}
    ensures s'.GroupUsers(g) == s.Users(s'.Chain(g)) <= s.GroupUsers(g)
  {
    forall c | c in s'.Chain(g) ensures c in s.Chain(g) - {h} {
      var n: nat :| n < GROUP_RECURSION_LIMIT && Above(s'.parents, g, n, c);
      CutChain(s.parents, g, h, n, c);
      Found(s.parents, {g}, g, c);
    }
    hide State.Chain;
    forall u ensures u in s'.GroupUsers(g) <==> u in s.Users(s'.Chain(g)) {
      InUsers(s', s'.Chain(g), u);
      InUsers(s, s'.Chain(g), u);
    }
    forall u | u in s.Users(s'.Chain(g)) ensures u in s.GroupUsers(g) {
      InUsers(s, s'.Chain(g), u);
      InUsers(s, s.Chain(g), u);
    }
  }

  lemma AddUsersExactly(s: State, g: Group, users: set<User>, a: (Group, Role))
    requires Exact(s) && a in s.uses
    ensures var s' := Next(s, AddUsers(g, users));
            s'.userSets[a.1] == s'.GroupUsers(a.0) <==> GainFollowed(s, a.0, {g}, users)
  {
    hide State.GroupUsers, State.Chain, State.Users, GainFollowed;
    var s' := Next(s, AddUsers(g, users));
    assert forall h :: a.1 in s.RolesOf(h) <==> a.0 == h;
    assert s'.userSets[a.1] == s.userSets[a.1] + (if a.0 == g then users - s.Members(g) else {});
    hide Exact;
    GainExactly(s, s', a, {g}, users);
  }

  lemma JoinGroupsExactly(s: State, u: User, groups: set<Group>, a: (Group, Role))
    requires Exact(s) && a in s.uses
    ensures var s' := Next(s, JoinGroups(u, groups));
            s'.userSets[a.1] == s'.GroupUsers(a.0) <==> GainFollowed(s, a.0, groups, {u})
  {
    hide State.GroupUsers, State.Chain, State.Users, GainFollowed;
    var s' := Next(s, JoinGroups(u, groups));
    assert forall h :: a.1 in s.RolesOf(h) <==> a.0 == h;
    assert s'.userSets[a.1] == s.userSets[a.1] + (if a.0 in groups then {u} - s.Members(a.0) else {});
    hide Exact;
    GainExactly(s, s', a, groups, {u});
  }

  lemma RemoveUsersExactly(s: State, g: Group, users: set<User>, a: (Group, Role))
    requires Exact(s) && a in s.uses
    ensures var s' := Next(s, RemoveUsers(g, users));
            s'.userSets[a.1] == s'.GroupUsers(a.0) <==> LossFollowed(s, a.0, {g}, users)
  {
    hide State.GroupUsers, State.Chain, State.Users, LossFollowed;
    var s' := Next(s, RemoveUsers(g, users));
    assert forall h :: a.1 in s.RolesOf(h) <==> a.0 == h;
    assert s'.userSets[a.1] == s.userSets[a.1] - (if a.0 == g then users else {});
    hide Exact;
    LossExactly(s, s', a, {g}, users);
  }

  lemma LeaveGroupsExactly(s: State, u: User, groups: set<Group>, a: (Group, Role))
    requires Exact(s) && a in s.uses
    ensures var s' := Next(s, LeaveGroups(u, groups));
            s'.userSets[a.1] == s'.GroupUsers(a.0) <==> LossFollowed(s, a.0, groups, {u})
  {
    hide State.GroupUsers, State.Chain, State.Users, LossFollowed;
    var s' := Next(s, LeaveGroups(u, groups));
    assert forall h :: a.1 in s.RolesOf(h) <==> a.0 == h;
    assert s'.userSets[a.1] == s.userSets[a.1] - (if a.0 in groups then {u} else {});
    hide Exact;
    LossExactly(s, s', a, groups, {u});
  }

  lemma DeletionExactly(s: State, g: Group, a: (Group, Role))
    requires Exact(s) && a in s.uses && a.0 != g
    ensures var s' := Next(s, DeleteGroup(g));
            a.1 in s'.userSets && (s'.userSets[a.1] == s'.GroupUsers(a.0) <==> Followed(s, DeleteGroup(g), a.0))
  {
    var s' := Next(s, DeleteGroup(g));
    assert s'.userSets[a.1] == s.userSets[a.1] == s.GroupUsers(a.0) by { assert a.1 !in s.RolesOf(g); }
    hide Exact;
    CutUsers(s, s', a.0, g);
    assert s'.Chain(a.0) == Climb(Without(s.parents, g), {a.0});
  }

  lemma SameUsers(s: State, s': State, g: Group)
    requires s'.members == s.members && s'.parents == s.parents
    ensures s'.GroupUsers(g) == s.GroupUsers(g)
  {
    assert s'.Chain(g) == s.Chain(g);
    hide State.Chain;
    forall u ensures u in s'.GroupUsers(g) <==> u in s.GroupUsers(g) {
      InUsers(s, s.Chain(g), u);
      InUsers(s', s.Chain(g), u);
    }
  }

  lemma RoleEventExactly(s: State, e: Event, a: (Group, Role))
    requires Exact(s) && Proper(s, e) && (e.AddRoles? || e.RemoveRoles? || e.DeleteRole?)
    requires a in Next(s, e).uses
    ensures a.1 in Next(s, e).userSets && Next(s, e).userSets[a.1] == Next(s, e).GroupUsers(a.0)
  {
    var s' := Next(s, e);
    SameUsers(s, s', a.0);
    hide State.GroupUsers;
    assert a in s.uses || (e.AddRoles? && a.0 == e.g && a.1 !in s.RolesOf(e.g));
  }

  lemma UnassignedStayEmpty(s: State, e: Event, r: Role)
    requires Exact(s) && Proper(s, e) && r in Next(s, e).userSets && !Assigned(Next(s, e), r)
    ensures Next(s, e).userSets[r] == {}
  {
    hide State.GroupUsers;
    assert e.AddRoles? && !Conflict(s, e.g, e.roles - s.RolesOf(e.g)) ==>
             forall q :: q in e.roles ==> (e.g, q) in Next(s, e).uses;
    if a :| a in s.uses && a.1 == r {
      assert a !in Next(s, e).uses && r in s.RolesOf(a.0);
    }
  }

  lemma UseExactly(s: State, e: Event, a: (Group, Role))
    requires Exact(s) && Proper(s, e) && a in Next(s, e).uses && a.1 in Next(s, e).userSets
    ensures Next(s, e).userSets[a.1] == Next(s, e).GroupUsers(a.0) <==> Followed(s, e, a.0)
  {
    hide Exact, State.GroupUsers, GainFollowed, LossFollowed;
    match e
    case AddUsers(g, users) => AddUsersExactly(s, g, users, a);
    case JoinGroups(u, groups) => JoinGroupsExactly(s, u, groups, a);
    case RemoveUsers(g, users) => RemoveUsersExactly(s, g, users, a);
    case LeaveGroups(u, groups) => LeaveGroupsExactly(s, u, groups, a);
    case DeleteGroup(g) => DeletionExactly(s, g, a);
    case _ => RoleEventExactly(s, e, a);
  }

  lemma FollowedUnassigned(s: State, e: Event, a: (Group, Role))
    requires a in s.uses && a !in Next(s, e).uses
    ensures Followed(s, e, a.0)
  {
    hide State.GroupUsers, GainFollowed, LossFollowed;
  }

  /** An event keeps the mirror exact exactly when every assigned role follows it. */
  lemma EventExactly(s: State, e: Event)
    requires Exact(s) && Proper(s, e)
    ensures Exact(Next(s, e)) <==> AllFollowed(s, e)
  {
    var s' := Next(s, e);
    EventKeepsOneGroup(s, e);
    forall r | r in s'.userSets && !Assigned(s', r) ensures s'.userSets[r] == {} { UnassignedStayEmpty(s, e, r); }
    forall a | a in s'.uses ensures s'.userSets[a.1] == s'.GroupUsers(a.0) <==> Followed(s, e, a.0) {
      UseExactly(s, e, a);
    }
    hide Next, State.GroupUsers, Assigned;
    forall a | a in s.uses && a !in s'.uses ensures Followed(s, e, a.0) { FollowedUnassigned(s, e, a); }
    hide Followed;
  }

  ghost function After(s: State, events: seq<Event>, k: nat): State
    requires k <= |events|
  {
    Run(s, events[..k])
  }

  lemma {:induction false} ProperAt(s: State, events: seq<Event>, k: nat)
    requires ProperRun(s, events) && k < |events|
    ensures Proper(After(s, events, k), events[k]) && After(s, events, k + 1) == Next(After(s, events, k), events[k])
  {
    hide Proper, Next;
    var init := events[..|events| - 1];
    assert events[..k + 1][..k] == events[..k];
    if k < |init| {
      ProperAt(s, init, k);
      assert init[..k] == events[..k];
    }
  }

  lemma {:induction false} ExactUpTo(s: State, events: seq<Event>, n: nat)
    requires Exact(s) && ProperRun(s, events) && n <= |events|
    requires forall k :: 0 <= k < n ==> AllFollowed(After(s, events, k), events[k])
    ensures Exact(After(s, events, n))
  {
    hide Exact, AllFollowed, Next;
    if n > 0 {
      ExactUpTo(s, events, n - 1);
      ProperAt(s, events, n - 1);
      EventExactly(After(s, events, n - 1), events[n - 1]);
    }
  }

  /** On every parent graph the mirror is exact all along a run exactly when every event is followed. */
  lemma RunExactly(s: State, events: seq<Event>)
    requires Exact(s) && ProperRun(s, events)
    ensures (forall k :: 0 <= k <= |events| ==> Exact(After(s, events, k))) <==>
            (forall k :: 0 <= k < |events| ==> AllFollowed(After(s, events, k), events[k]))
  {
    hide Exact, AllFollowed, Next, ProperRun;
    if forall k :: 0 <= k <= |events| ==> Exact(After(s, events, k)) {
      forall k | 0 <= k < |events| ensures AllFollowed(After(s, events, k), events[k]) {
        ProperAt(s, events, k);
        assert Exact(After(s, events, k + 1));
        EventExactly(After(s, events, k), events[k]);
      }
    } else if forall k :: 0 <= k < |events| ==> AllFollowed(After(s, events, k), events[k]) {
      forall k | 0 <= k <= |events| ensures Exact(After(s, events, k)) { ExactUpTo(s, events, k); }
    }
  }

  lemma FollowedWithoutParents(s: State, e: Event, g: Group)
    requires s.parents == map[]
    ensures Followed(s, e, g) && Next(s, e).parents == map[]
  {
    ChainWithoutParents(s, g);
    hide State.Chain, State.GroupUsers;
    assert {g} - {g} == {};
    if e.DeleteGroup? {
      assert Without(s.parents, e.g) == s.parents;
      assert Climb(s.parents, {g}) == {g} by { ChainWithoutParents(s, g); }
    }
  }

  /** Without parents every event is followed: user sets equal the members, or are empty without a group. */
  lemma {:induction false} RunIsExact(s: State, events: seq<Event>)
    requires Exact(s) && s.parents == map[] && ProperRun(s, events)
    ensures var s' := Run(s, events);
            Exact(s') && s'.parents == map[] && forall a :: a in s'.uses ==> s'.userSets[a.1] == s'.Members(a.0)
  {
    var s' := Run(s, events);
    if events != [] {
      hide Next, Proper, Followed;
      var before, last := Run(s, events[..|events| - 1]), events[|events| - 1];
      RunIsExact(s, events[..|events| - 1]);
      forall a | a in before.uses ensures Followed(before, last, a.0) { FollowedWithoutParents(before, last, a.0); }
      FollowedWithoutParents(before, last, "");
      hide Exact;
      EventExactly(before, last);
    }
    forall a | a in s'.uses ensures s'.GroupUsers(a.0) == s'.Members(a.0) { ChainWithoutParents(s', a.0); }
  }

  /** A witness: a user added to a parent group does not get the roles of the child group. */
  lemma ParentIsNotFollowed(child: Group, parent: Group, r: Role, u: User)
    requires child != parent
    ensures var s := State(map[], map[r := {}], {(child, r)}, map[child := parent]);
            Exact(s) && !Exact(Next(s, AddUsers(parent, {u})))
  {
    var s := State(map[], map[r := {}], {(child, r)}, map[child := parent]);
    assert parent in s.Chain(child) by {
      assert Above(s.parents, parent, 0, parent);
      assert Above(s.parents, child, 1, parent);
      Found(s.parents, {child}, child, parent);
    }
    hide State.Chain;
    EventExactly(s, AddUsers(parent, {u}));
    var a := (child, r);
    assert a in s.uses && parent in s.Chain(a.0) * {parent} && u !in s.GroupUsers(a.0);
  }

  /**
   Removing roles the group does not have still removes its users from them.  The mirror survives
   exactly when none of those users is a member of the group that does have the role.
   */
  lemma RemovingForeignRoles(s: State, g: Group, roles: set<Role>)
    requires Mirrors(s)
    ensures Mirrors(Next(s, RemoveRoles(g, roles))) <==>
            forall a :: a in s.uses && a.0 != g && a.1 in roles ==> s.Members(a.0) !! s.GroupUsers(g)
  {
    hide State.GroupUsers;
    var s' := Next(s, RemoveRoles(g, roles));
    forall a | a in s.uses && a.0 != g ensures a in s'.uses { }
    forall a | a in s'.uses && a.1 in roles ensures a.0 != g { assert (g, a.1) !in s'.uses; }
  }

  /** A witness: group `h` removes a role of group `g`, and their common member loses it. */
  lemma ForeignRoleIsLost(g: Group, h: Group, r: Role, u: User)
    requires g != h
    ensures var s := State(map[g := {u}, h := {u}], map[r := {u}], {(g, r)}, map[]);
            Mirrors(s) && !Mirrors(Next(s, RemoveRoles(h, {r})))
  {
    var s := State(map[g := {u}, h := {u}], map[r := {u}], {(g, r)}, map[]);
    ChainWithoutParents(s, h);
    RemovingForeignRoles(s, h, {r});
    hide Next, State.GroupUsers;
    var a := (g, r);
    assert a in s.uses && u in s.Members(a.0) && u in s.GroupUsers(h);
  }

  // ---------------------------------------------------------------------------
  // The handlers
  // ---------------------------------------------------------------------------

  datatype Action = PostAdd | PostRemove

  function Updated(action: Action, userSets: UserSets, roles: set<Role>, users: set<User>): UserSets
  {
    if action.PostAdd? then AddTo(userSets, roles, users) else RemoveFrom(userSets, roles, users)
  }

  lemma UpdatedTwice(action: Action, userSets: UserSets, first: set<Role>, second: set<Role>, users: set<User>)
    ensures Updated(action, userSets, {}, users) == userSets
    ensures Updated(action, Updated(action, userSets, first, users), second, users)
            == Updated(action, userSets, first + second, users)
  {
    var once := Updated(action, userSets, first, users);
    var twice, both := Updated(action, once, second, users), Updated(action, userSets, first + second, users);
    forall r | r in userSets ensures twice[r] == both[r] {
      var us := userSets[r];
      assert us + users + users == us + users && us - users - users == us - users;
    }
  }

  lemma UpdatedOne(action: Action, userSets: UserSets, done: set<Role>, role: Role, users: set<User>)
    requires role in userSets && role !in done
    ensures var r := Updated(action, userSets, done, users);
            && r.Keys == userSets.Keys && Updated(action, userSets, done + {role}, users).Keys == userSets.Keys
            && Updated(action, userSets, done + {role}, users) ==
               r[role := if action.PostAdd? then r[role] + users else r[role] - users]
  {
  }

  /** The loop over roles that every handler runs. */
  method UpdateRoles(action: Action, userSets: UserSets, roles: set<Role>, users: set<User>)
    returns (r: UserSets)
    requires roles <= userSets.Keys
    ensures r == Updated(action, userSets, roles, users)
  {
    hide Updated;
    r := userSets;
    var todo := roles;
    assert roles - todo == {};
    UpdatedTwice(action, userSets, {}, {}, users);
    while todo != {}
      invariant todo <= roles && r.Keys == userSets.Keys
      invariant r == Updated(action, userSets, roles - todo, users)
      decreases |todo|
    {
      var role :| role in todo;
      UpdatedOne(action, userSets, roles - todo, role, users);
      assert (roles - todo) + {role} == roles - (todo - {role});
      if action.PostAdd? { r := r[role := r[role] + users]; }
      if action.PostRemove? { r := r[role := r[role] - users]; }
      todo := todo - {role};
    }
    assert roles - todo == roles;
  }

  /** The user side of the membership handler: a loop over groups, and over the roles of each. */
  method UpdateGroups(action: Action, s: State, groups: set<Group>, user: User) returns (r: UserSets)
    requires OneGroup(s)
    ensures r == Updated(action, s.userSets, RolesOfAny(s, groups), {user})
  {
    hide Updated;
    r := s.userSets;
    var todo := groups;
    ghost var done: set<Role> := {};
    UpdatedTwice(action, s.userSets, {}, {}, {user});
    while todo != {}
      invariant todo <= groups && done == RolesOfAny(s, groups - todo)
      invariant r == Updated(action, s.userSets, done, {user}) && r.Keys == s.userSets.Keys
      decreases |todo|
    {
      var g :| g in todo;
      r := UpdateRoles(action, r, s.RolesOf(g), {user});
      UpdatedTwice(action, s.userSets, done, s.RolesOf(g), {user});
      UpdatedKeys(action, s.userSets, done + s.RolesOf(g), {user});
      todo := todo - {g};
      assert RolesOfAny(s, groups - todo) == done + s.RolesOf(g);
      done := done + s.RolesOf(g);
    }
    assert groups - todo == groups;
  }

  lemma UpdatedKeys(action: Action, userSets: UserSets, roles: set<Role>, users: set<User>)
    ensures Updated(action, userSets, roles, users).Keys == userSets.Keys
  {
  }

  method UsersOf(s: State, g: Group) returns (users: set<User>)
    ensures users == s.GroupUsers(g)
  {
    var all := AllGroups(s.parents, Groups.User([g]));
    assert ToSet([g]) == {g};
    users := set a, u | a in all && u in s.Members(a) :: u;
  }

  /** The directory as the signal handlers change it. */
  class Directory {
    var s: State

    constructor (s: State)
      ensures this.s == s
    {
      this.s := s;
    }

    method AddRoles(g: Group, asked: set<Role>) returns (ok: bool)
      requires asked <= s.userSets.Keys
      modifies this
      ensures s == Next(old(s), Event.AddRoles(g, asked)) && ok == !Conflict(old(s), g, asked - old(s).RolesOf(g))
    {
      var roles := asked - s.RolesOf(g);
      if Conflict(s, g, roles) { return false; }
      var users := UsersOf(s, g);
      var userSets := UpdateRoles(PostAdd, s.userSets, roles, users);
      s := s.(uses := s.uses + (set r | r in roles :: (g, r)), userSets := userSets);
      return true;
    }

    method RemoveRoles(g: Group, roles: set<Role>)
      requires roles <= s.userSets.Keys
      modifies this
      ensures s == Next(old(s), Event.RemoveRoles(g, roles))
    {
      var users := UsersOf(s, g);
      var userSets := UpdateRoles(PostRemove, s.userSets, roles, users);
      s := s.(uses := s.uses - (set r | r in roles :: (g, r)), userSets := userSets);
    }

    /** Membership changed from the group's side. */
    method ChangeUsers(action: Action, g: Group, users: set<User>)
      requires OneGroup(s)
      modifies this
      ensures s == Next(old(s), if action.PostAdd? then AddUsers(g, users) else RemoveUsers(g, users))
    {
      var signalled := if action.PostAdd? then users - s.Members(g) else users;
      var userSets := UpdateRoles(action, s.userSets, s.RolesOf(g), signalled);
      s := s.(members := s.members[g := if action.PostAdd? then s.Members(g) + users else s.Members(g) - users],
              userSets := userSets);
    }

    /** Membership changed from the user's side. */
    method ChangeGroups(action: Action, u: User, groups: set<Group>)
      requires OneGroup(s)
      modifies this
      ensures s == Next(old(s), if action.PostAdd? then JoinGroups(u, groups) else LeaveGroups(u, groups))
    {
      var userSets := UpdateGroups(action, s, if action.PostAdd? then NewGroups(s, u, groups) else groups, u);
      if action.PostAdd? {
        s := s.(userSets := userSets,
                members := map g | g in s.members.Keys + groups ::
                  if g in groups then s.Members(g) + {u} else s.Members(g));
      } else {
        s := s.(members := map g | g in s.members :: if g in groups then s.members[g] - {u} else s.members[g],
                userSets := userSets);
      }
    }

    /** The cleanup before a group is deleted, then the deletion and its cascades. */
    method DeleteGroup(g: Group)
      requires OneGroup(s)
      modifies this
      ensures s == Next(old(s), Event.DeleteGroup(g))
    {
      var userSets, todo := s.userSets, s.RolesOf(g);
      while todo != {}
        invariant todo <= s.RolesOf(g) && userSets == Clear(s.userSets, s.RolesOf(g) - todo) && s == old(s)
        decreases |todo|
      {
        var r :| r in todo;
        userSets := userSets[r := {}];
        todo := todo - {r};
      }
      s := State(s.members - {g}, userSets, (set a | a in s.uses && a.0 != g), Without(s.parents, g));
    }

    method DeleteRole(r: Role)
      modifies this
      ensures s == Next(old(s), Event.DeleteRole(r))
    {
      var userSets := if r in s.userSets then s.userSets[r := {}] else s.userSets;
      s := s.(userSets := userSets - {r}, uses := set a | a in s.uses && a.1 != r);
    }
  }
}
