/**
 * Conversation membership: groups, channels and direct messages, last-owner protection, the
 * sender-key epoch of groups, and the membership events the projection in other services is built from.
 */
module Membership {
  import opened Wrappers

  const MAX_GROUP_MEMBERS: nat := 1024
  const FIRST_EPOCH: nat := 1

  datatype Kind = Dm | GroupChat | Channel
  datatype Role = Member | Admin | Owner
  datatype Conversation = Conversation(kind: Kind, isPublic: bool, epoch: nat, members: map<string, Role>)

  datatype Event =
    | Created(conv: string, memberIds: set<string>)
    | Added(conv: string, user: string)
    | Removed(conv: string, user: string)
    | EpochChanged(conv: string, epoch: nat)

  datatype Error = Validation | Forbidden | NotFound | IdTaken

  type Conversations = map<string, Conversation>
  datatype State = State(convs: Conversations, events: seq<Event>)
  datatype Outcome = Outcome(state: State, error: Option<Error>)

  /** The operations; `conv` is the id a create call generates, never one in use. */
  datatype Op =
    | CreateGroup(conv: string, creator: string, memberIds: set<string>)
    | CreateChannel(conv: string, creator: string, isPublic: bool)
    | CreateDm(conv: string, a: string, b: string)
    | CreateCommunityChannel(conv: string, creator: string)
    | AddMember(conv: string, actor: string, user: string, role: Role)
    | RemoveMember(conv: string, actor: string, user: string)
    | JoinChannel(conv: string, user: string)
    | LeaveChannel(conv: string, user: string)
    | SetMemberRole(conv: string, actor: string, user: string, role: Role)

  // ---- the tables ----------------------------------------------------------------------------

  function RoleOf(convs: Conversations, c: string, user: string): Option<Role> {
    if c in convs && user in convs[c].members then Some(convs[c].members[user]) else None
  }

  function Rank(r: Role): int {
    match r
    case Member => 0
    case Admin => 1
    case Owner => 2
  }

  function Owners(members: map<string, Role>): set<string> {
    set u | u in members && members[u] == Owner
  }

  function OwnerCount(convs: Conversations, c: string): nat {
    if c in convs then |Owners(convs[c].members)| else 0
  }

  predicate IsAdmin(convs: Conversations, c: string, actor: string) {
    RoleOf(convs, c, actor) in {Some(Owner), Some(Admin)}
  }

  /** INSERT ... ON CONFLICT DO NOTHING. */
  function Insert(convs: Conversations, c: string, user: string, role: Role): Conversations {
    if c in convs && user !in convs[c].members then
      convs[c := convs[c].(members := convs[c].members[user := role])]
    else convs
  }

  function Delete(convs: Conversations, c: string, user: string): Conversations {
    if c in convs then convs[c := convs[c].(members := convs[c].members - {user})] else convs
  }

  /** The target is the last owner, whom no operation may remove or demote. */
  predicate LastOwner(convs: Conversations, c: string, user: string) {
    RoleOf(convs, c, user) == Some(Owner) && OwnerCount(convs, c) <= 1
  }

  function Emit(s: State, e: Event): State {
    s.(events := s.events + [e])
  }

  /** A membership change of a group starts a new epoch. */
  function RotateEpoch(s: State, c: string): State {
    if c in s.convs && s.convs[c].kind.GroupChat? then
      var epoch := s.convs[c].epoch + 1;
      Emit(s.(convs := s.convs[c := s.convs[c].(epoch := epoch)]), EpochChanged(c, epoch))
    else s
  }

  function Fail(s: State, e: Error): Outcome {
    Outcome(s, Some(e))
  }

  function Done(s: State): Outcome {
    Outcome(s, None)
  }

  function GroupMembers(creator: string, memberIds: set<string>): map<string, Role> {
    map u | u in memberIds + {creator} :: if u == creator then Owner else Member
  }

  // ---- the operations ------------------------------------------------------------------------

  function Apply(s: State, op: Op): Outcome {
    match op
    case CreateGroup(c, creator, memberIds) =>
      if |memberIds + {creator}| > MAX_GROUP_MEMBERS then Fail(s, Validation)
      else if c in s.convs then Fail(s, IdTaken)
      else
        var conv := Conversation(GroupChat, false, FIRST_EPOCH, GroupMembers(creator, memberIds));
        Done(Emit(s.(convs := s.convs[c := conv]), Created(c, memberIds + {creator})))
    case CreateChannel(c, creator, isPublic) =>
      if c in s.convs then Fail(s, IdTaken)
      else
        var conv := Conversation(Channel, isPublic, FIRST_EPOCH, map[creator := Owner]);
        Done(Emit(s.(convs := s.convs[c := conv]), Created(c, {creator})))
    case CreateDm(c, a, b) =>
      if a == "" || b == "" then Fail(s, Validation)
      else if c in s.convs && !s.convs[c].kind.Dm? then Fail(s, IdTaken)
      else
        var conv := Conversation(Dm, false, FIRST_EPOCH, map[a := Member, b := Member]);
        Done(Emit(if c in s.convs then s else s.(convs := s.convs[c := conv]), Created(c, {a, b})))
    case CreateCommunityChannel(c, creator) =>
      if c in s.convs then Fail(s, IdTaken)
      else Done(s.(convs := s.convs[c := Conversation(Channel, true, FIRST_EPOCH, map[creator := Owner])]))
    case AddMember(c, actor, user, role) =>
      if !IsAdmin(s.convs, c, actor) then Fail(s, Forbidden)
      else if |s.convs[c].members| >= MAX_GROUP_MEMBERS then Fail(s, Validation)
      else Done(RotateEpoch(Emit(s.(convs := Insert(s.convs, c, user, role)), Added(c, user)), c))
    case RemoveMember(c, actor, user) =>
      if !IsAdmin(s.convs, c, actor) then Fail(s, Forbidden)
      else if LastOwner(s.convs, c, user) then Fail(s, Forbidden)
      else Done(RotateEpoch(Emit(s.(convs := Delete(s.convs, c, user)), Removed(c, user)), c))
    case JoinChannel(c, user) =>
      if c !in s.convs then Fail(s, NotFound)
      else if !s.convs[c].kind.Channel? then Fail(s, Validation)
      else if !s.convs[c].isPublic then Fail(s, Forbidden)
      else Done(Emit(s.(convs := Insert(s.convs, c, user, Member)), Added(c, user)))
    case LeaveChannel(c, user) =>
      if LastOwner(s.convs, c, user) then Fail(s, Forbidden)
      else Done(Emit(s.(convs := Delete(s.convs, c, user)), Removed(c, user)))
    case SetMemberRole(c, actor, user, role) =>
      var actorRole, targetRole := RoleOf(s.convs, c, actor), RoleOf(s.convs, c, user);
      if actorRole.None? || Rank(actorRole.value) < Rank(Admin) then Fail(s, Forbidden)
      else if actorRole != Some(Owner) && Rank(role) >= Rank(actorRole.value) then Fail(s, Forbidden)
      else if role == Owner && actorRole != Some(Owner) then Fail(s, Forbidden)
      else if role != Owner && LastOwner(s.convs, c, user) then Fail(s, Forbidden)
      else if targetRole.Some? && actorRole != Some(Owner) && Rank(targetRole.value) >= Rank(actorRole.value)
      then Fail(s, Forbidden)
      else if targetRole.Some? then
        Done(s.(convs := s.convs[c := s.convs[c].(members := s.convs[c].members[user := role])]))
      else Done(s)
  }

  function Exec(s: State, ops: seq<Op>): State {
    if ops == [] then s else Apply(Exec(s, ops[..|ops| - 1]), ops[|ops| - 1]).state
  }

  const EMPTY := State(map[], [])

  // ---- owners and size -----------------------------------------------------------------------

  ghost predicate ConvOk(conv: Conversation) {
    (!conv.kind.Dm? ==> Owners(conv.members) != {}) &&
    (conv.kind.GroupChat? ==> |conv.members| <= MAX_GROUP_MEMBERS)
  }

  ghost predicate AllOk(s: State) {
    forall c | c in s.convs :: ConvOk(s.convs[c])
  }

  lemma RemoveKeepsOwner(members: map<string, Role>, user: string)
    requires Owners(members) != {} && (user in members && members[user] == Owner ==> |Owners(members)| > 1)
    ensures Owners(members - {user}) != {}
    ensures |members - {user}| <= |members|
  {
    var owners := Owners(members);
    if user in owners {
      assert |owners - {user}| == |owners| - 1 > 0;
      var u :| u in owners - {user};
      assert u in Owners(members - {user});
    } else {
      var u :| u in owners;
      assert u in Owners(members - {user});
    }
    assert (members - {user}).Keys == members.Keys - {user};
    assert |(members - {user}).Keys| <= |members.Keys| by {
      assert members.Keys - {user} <= members.Keys;
      SubsetSize(members.Keys - {user}, members.Keys);
    }
  }

  lemma SubsetSize<T>(a: set<T>, b: set<T>)
    requires a <= b
    ensures |a| <= |b|
  {
    assert b == a + (b - a) && |b| == |a| + |b - a|;
  }

  /** Replacing a role keeps an owner, unless it demotes the only one. */
  lemma SetRoleKeepsOwner(members: map<string, Role>, user: string, role: Role)
    requires Owners(members) != {} && user in members
    requires role == Owner || members[user] != Owner || |Owners(members)| > 1
    ensures Owners(members[user := role]) != {} && |members[user := role]| == |members|
  {
    assert members[user := role].Keys == members.Keys;
    if role == Owner {
      assert user in Owners(members[user := role]);
    } else {
      RemoveKeepsOwner(members, user);
      var u :| u in Owners(members - {user});
      assert u in Owners(members[user := role]);
    }
  }

  lemma InsertKeepsOwner(members: map<string, Role>, user: string, role: Role)
    requires Owners(members) != {} && user !in members
    ensures Owners(members[user := role]) != {} && |members[user := role]| == |members| + 1
  {
    var u :| u in Owners(members);
    assert u in Owners(members[user := role]);
    assert members[user := role].Keys == members.Keys + {user};
  }

  lemma StepKeepsOwners(s: State, op: Op)
    requires AllOk(s)
    ensures AllOk(Apply(s, op).state)
  {
    match op
    case AddMember(_, _, _, _) => ChangeKeepsOwners(s, op);
    case JoinChannel(_, _) => ChangeKeepsOwners(s, op);
    case RemoveMember(_, _, _) => ChangeKeepsOwners(s, op);
    case LeaveChannel(_, _) => ChangeKeepsOwners(s, op);
    case SetMemberRole(_, _, _, _) => ChangeKeepsOwners(s, op);
    case _ => CreateKeepsOwners(s, op);
  }

  predicate Creates(op: Op) {
    op.CreateGroup? || op.CreateChannel? || op.CreateDm? || op.CreateCommunityChannel?
  }

  lemma CreateKeepsOwners(s: State, op: Op)
    requires AllOk(s) && Creates(op)
    ensures AllOk(Apply(s, op).state)
  {
    hide ConvOk, GroupMembers;
    match op
    case CreateGroup(_, creator, memberIds) => NewConvOk(creator, memberIds);
    case CreateChannel(_, creator, _) => NewConvOk(creator, {});
    case CreateCommunityChannel(_, creator) => NewConvOk(creator, {});
    case CreateDm(_, a, b) => DmOk(a, b);
  }

  lemma ChangeKeepsOwners(s: State, op: Op)
    requires AllOk(s) && !Creates(op)
    ensures AllOk(Apply(s, op).state)
  {
    hide Insert, Delete, LastOwner, RotateEpoch, ConvOk, Rank;
    match op
    case AddMember(c, _, user, role) =>
      if IsAdmin(s.convs, c, op.actor) && |s.convs[c].members| < MAX_GROUP_MEMBERS {
        InsertKeepsOwners(s, c, user, role);
        RotateKeepsOk(Emit(s.(convs := Insert(s.convs, c, user, role)), Added(c, user)), c);
      }
    case JoinChannel(c, user) =>
      if c in s.convs && s.convs[c].kind.Channel? {
        InsertKeepsOwners(s, c, user, Member);
      }
    case RemoveMember(c, _, user) =>
      if !LastOwner(s.convs, c, user) {
        RemovalKeepsOwners(s, c, user);
        RotateKeepsOk(Emit(s.(convs := Delete(s.convs, c, user)), Removed(c, user)), c);
      }
    case LeaveChannel(c, user) =>
      if !LastOwner(s.convs, c, user) {
        RemovalKeepsOwners(s, c, user);
      }
    case SetMemberRole(c, _, user, role) =>
      if RoleOf(s.convs, c, user).Some? && (role == Owner || !LastOwner(s.convs, c, user)) {
        RoleKeepsOwners(s, c, user, role);
      }
  }

  lemma NewConvOk(creator: string, memberIds: set<string>)
    ensures |memberIds + {creator}| <= MAX_GROUP_MEMBERS ==>
              ConvOk(Conversation(GroupChat, false, FIRST_EPOCH, GroupMembers(creator, memberIds)))
    ensures forall isPublic :: ConvOk(Conversation(Channel, isPublic, FIRST_EPOCH, map[creator := Owner]))
  {
    assert creator in Owners(GroupMembers(creator, memberIds));
    assert GroupMembers(creator, memberIds).Keys == memberIds + {creator};
    assert creator in Owners(map[creator := Owner]);
  }

  lemma DmOk(a: string, b: string)
    ensures ConvOk(Conversation(Dm, false, FIRST_EPOCH, map[a := Member, b := Member]))
  {
  }

  lemma RotateKeepsOk(s: State, c: string)
    requires AllOk(s)
    ensures AllOk(RotateEpoch(s, c))
  {
  }

  lemma InsertKeepsOwners(s: State, c: string, user: string, role: Role)
    requires AllOk(s) && c in s.convs && (s.convs[c].kind.GroupChat? ==> |s.convs[c].members| < MAX_GROUP_MEMBERS)
    ensures forall k | k in Insert(s.convs, c, user, role) :: ConvOk(Insert(s.convs, c, user, role)[k])
  {
    if !s.convs[c].kind.Dm? && user !in s.convs[c].members {
      InsertKeepsOwner(s.convs[c].members, user, role);
    }
  }

  lemma RoleKeepsOwners(s: State, c: string, user: string, role: Role)
    requires AllOk(s) && RoleOf(s.convs, c, user).Some? && (role == Owner || !LastOwner(s.convs, c, user))
    ensures ConvOk(s.convs[c].(members := s.convs[c].members[user := role]))
  {
    if !s.convs[c].kind.Dm? {
      SetRoleKeepsOwner(s.convs[c].members, user, role);
    }
  }

  lemma RemovalKeepsOwners(s: State, c: string, user: string)
    requires AllOk(s) && !LastOwner(s.convs, c, user)
    ensures forall k | k in Delete(s.convs, c, user) :: ConvOk(Delete(s.convs, c, user)[k])
  {
    if c in s.convs && !s.convs[c].kind.Dm? {
      RemoveKeepsOwner(s.convs[c].members, user);
    }
  }

  /** In every run each group and channel keeps an owner, and each group stays within its size. */
  lemma {:induction false} OwnersAndSize(ops: seq<Op>)
    ensures AllOk(Exec(EMPTY, ops))
  {
    if ops != [] {
      OwnersAndSize(ops[..|ops| - 1]);
      StepKeepsOwners(Exec(EMPTY, ops[..|ops| - 1]), ops[|ops| - 1]);
    }
  }

  /** setMemberRole changes a role only for an owner, and never a member set. */
  lemma OnlyOwnersChangeRoles(s: State, c: string, actor: string, user: string, role: Role)
    ensures var s' := Apply(s, SetMemberRole(c, actor, user, role)).state;
            (s' != s ==> RoleOf(s.convs, c, actor) == Some(Owner)) &&
            forall k :: Table(s', k) == Table(s, k)
  {
    var before := RoleOf(s.convs, c, user);
    if before == Some(role) {
      assert s.convs[c].members[user := role] == s.convs[c].members;
      assert s.convs[c := s.convs[c].(members := s.convs[c].members[user := role])] == s.convs;
    }
    if before.Some? {
      assert s.convs[c].members[user := role].Keys == s.convs[c].members.Keys;
    }
  }

  /**
   * The operation makes `user` an owner of conversation c: its creator; or a newcomer whom any admin
   * adds with that role; or a member whom an owner promotes.
   */
  predicate MakesOwner(s: State, op: Op, c: string, user: string) {
    op.conv == c &&
    match op
    case CreateGroup(_, creator, memberIds) =>
      creator == user && c !in s.convs && |memberIds + {creator}| <= MAX_GROUP_MEMBERS
    case CreateChannel(_, creator, _) => creator == user && c !in s.convs
    case CreateCommunityChannel(_, creator) => creator == user && c !in s.convs
    case AddMember(_, actor, added, role) =>
      added == user && role == Owner && IsAdmin(s.convs, c, actor) && RoleOf(s.convs, c, user).None? &&
      |s.convs[c].members| < MAX_GROUP_MEMBERS
    case SetMemberRole(_, actor, target, role) =>
      target == user && role == Owner && RoleOf(s.convs, c, actor) == Some(Owner) &&
      RoleOf(s.convs, c, user).Some? && RoleOf(s.convs, c, user) != Some(Owner)
    case _ => false
  }

  predicate IsOwner(s: State, c: string, user: string) {
    RoleOf(s.convs, c, user) == Some(Owner)
  }

  lemma NewOwnerExactly(s: State, op: Op, c: string, user: string)
    ensures !IsOwner(s, c, user) && IsOwner(Apply(s, op).state, c, user) <==> MakesOwner(s, op, c, user)
  {
    hide LastOwner;
    if op.conv != c {
      OthersUntouched(s, op, c);
    }
  }

  lemma OthersUntouched(s: State, op: Op, c: string)
    requires op.conv != c
    ensures c in Apply(s, op).state.convs <==> c in s.convs
    ensures c in s.convs ==> Apply(s, op).state.convs[c] == s.convs[c]
  {
  }

  /** So over a run, whoever is an owner at the end but was none at the start was made one by a step. */
  lemma {:induction false} OwnersAreMade(s: State, ops: seq<Op>, c: string, user: string) returns (i: nat)
    requires !IsOwner(s, c, user) && IsOwner(Exec(s, ops), c, user)
    ensures i < |ops| && MakesOwner(Exec(s, ops[..i]), ops[i], c, user)
  {
    hide Apply, MakesOwner, IsOwner;
    var init := ops[..|ops| - 1];
    NewOwnerExactly(Exec(s, init), ops[|ops| - 1], c, user);
    if IsOwner(Exec(s, init), c, user) {
      i := OwnersAreMade(s, init, c, user);
      assert init[..i] == ops[..i];
    } else {
      i := |ops| - 1;
    }
  }

  /** An admin who is not an owner may not promote anybody to owner, but may add one. */
  lemma AdminAddsOwner(s: State, c: string, admin: string, user: string)
    requires RoleOf(s.convs, c, admin) == Some(Admin) && RoleOf(s.convs, c, user).None?
    requires |s.convs[c].members| < MAX_GROUP_MEMBERS
    ensures IsOwner(Apply(s, AddMember(c, admin, user, Owner)).state, c, user)
    ensures forall target :: Apply(s, SetMemberRole(c, admin, target, Owner)) == Fail(s, Forbidden)
  {
    NewOwnerExactly(s, AddMember(c, admin, user, Owner), c, user);
  }

  // ---- when an operation succeeds, and what it leaves --------------------------------------------

  ghost predicate HasRole(s: State, c: string, user: string, role: Role) {
    c in s.convs && user in s.convs[c].members && s.convs[c].members[user] == role
  }

  ghost predicate Administers(s: State, c: string, user: string) {
    HasRole(s, c, user, Owner) || HasRole(s, c, user, Admin)
  }

  ghost predicate SoleOwner(s: State, c: string, user: string) {
    HasRole(s, c, user, Owner) && forall other | HasRole(s, c, other, Owner) :: other == user
  }

  lemma LastIsSole(s: State, c: string, user: string)
    ensures LastOwner(s.convs, c, user) <==> SoleOwner(s, c, user)
  {
    if HasRole(s, c, user, Owner) {
      var owners := Owners(s.convs[c].members);
      assert user in owners;
      assert forall other :: other in owners <==> HasRole(s, c, other, Owner);
      if SoleOwner(s, c, user) {
        assert owners == {user};
      } else {
        var other :| HasRole(s, c, other, Owner) && other != user;
        SubsetSize({user, other}, owners);
      }
    }
  }

  /**
   * Whom and what each operation asks for. An admin may add, remove, and set plain members to plain
   * member; an owner may set anything; nothing may take a conversation's sole owner away.
   */
  ghost predicate MaySucceed(s: State, op: Op) {
    var c := op.conv;
    match op
    case CreateGroup(_, creator, memberIds) => c !in s.convs && |memberIds + {creator}| <= 1024
    case CreateChannel(_, _, _) => c !in s.convs
    case CreateCommunityChannel(_, _) => c !in s.convs
    case CreateDm(_, a, b) => a != "" && b != "" && (c in s.convs ==> s.convs[c].kind == Dm)
    case AddMember(_, actor, _, _) => Administers(s, c, actor) && |s.convs[c].members| < 1024
    case RemoveMember(_, actor, user) => Administers(s, c, actor) && !SoleOwner(s, c, user)
    case JoinChannel(_, _) => c in s.convs && s.convs[c].kind == Channel && s.convs[c].isPublic
    case LeaveChannel(_, user) => !SoleOwner(s, c, user)
    case SetMemberRole(_, actor, user, role) =>
      || (HasRole(s, c, actor, Owner) && (role == Owner || !SoleOwner(s, c, user)))
      || (HasRole(s, c, actor, Admin) && role == Member &&
          !HasRole(s, c, user, Owner) && !HasRole(s, c, user, Admin))
  }

  lemma SucceedsExactly(s: State, op: Op)
    ensures Apply(s, op).error == None <==> MaySucceed(s, op)
  {
    match op
    case AddMember(c, actor, _, _) => hide RotateEpoch, Insert;
    case RemoveMember(c, actor, user) =>
      LastIsSole(s, c, user);
      hide LastOwner, SoleOwner, RotateEpoch, Delete;
    case LeaveChannel(c, user) =>
      LastIsSole(s, c, user);
      hide LastOwner, SoleOwner, Delete;
    case SetMemberRole(c, actor, user, role) =>
      LastIsSole(s, c, user);
      assert SoleOwner(s, c, user) ==> HasRole(s, c, user, Owner);
      hide LastOwner, SoleOwner;
    case _ =>
  }

  /** Each user's role in each conversation afterwards. */
  ghost function RoleAfter(s: State, op: Op, k: string, user: string): Option<Role> {
    var before := RoleOf(s.convs, k, user);
    if k != op.conv || !MaySucceed(s, op) then before
    else
      match op
      case CreateGroup(_, creator, memberIds) =>
        if user == creator then Some(Owner) else if user in memberIds then Some(Member) else None
      case CreateChannel(_, creator, _) => if user == creator then Some(Owner) else None
      case CreateCommunityChannel(_, creator) => if user == creator then Some(Owner) else None
      case CreateDm(_, a, b) =>
        if k in s.convs then before else if user == a || user == b then Some(Member) else None
      case AddMember(_, _, added, role) => if user == added && before == None then Some(role) else before
      case JoinChannel(_, joined) => if user == joined && before == None then Some(Member) else before
      case RemoveMember(_, _, removed) => if user == removed then None else before
      case LeaveChannel(_, left) => if user == left then None else before
      case SetMemberRole(_, _, target, role) => if user == target && before != None then Some(role) else before
  }

  lemma RolesAre(s: State, op: Op, k: string, user: string)
    ensures RoleOf(Apply(s, op).state.convs, k, user) == RoleAfter(s, op, k, user)
  {
    SucceedsExactly(s, op);
    hide MaySucceed, LastOwner, IsAdmin;
    if Apply(s, op).error.None? && k == op.conv {
      RolesChange(s, op, user);
    } else if Apply(s, op).error.None? {
      OthersUntouched(s, op, k);
    } else {
      FailedChangesNothing(s, op);
    }
    hide Apply;
  }

  lemma RolesChange(s: State, op: Op, user: string)
    requires Apply(s, op).error.None? && MaySucceed(s, op)
    ensures RoleOf(Apply(s, op).state.convs, op.conv, user) == RoleAfter(s, op, op.conv, user)
  {
    hide MaySucceed, LastOwner;
  }

  /** Kind, visibility and epoch; a group's epoch moves exactly when a member is added or removed. */
  lemma ConversationsAre(s: State, op: Op, k: string)
    ensures var o := Apply(s, op);
            var t := o.state.convs;
            && (k in t <==> k in s.convs || (k == op.conv && Creates(op) && o.error == None))
            && (k in s.convs ==>
                 var bumped := k == op.conv && o.error == None && s.convs[k].kind == GroupChat &&
                               (op.AddMember? || op.RemoveMember?);
                 t[k].kind == s.convs[k].kind && t[k].isPublic == s.convs[k].isPublic &&
                 t[k].epoch == s.convs[k].epoch + (if bumped then 1 else 0))
            && (k !in s.convs && k in t ==>
                 t[k].epoch == 1 &&
                 t[k].kind == (if op.CreateGroup? then GroupChat else if op.CreateDm? then Dm else Channel) &&
                 t[k].isPublic == (if op.CreateChannel? then op.isPublic else op.CreateCommunityChannel?))
  {
    hide LastOwner, IsAdmin, GroupMembers, Rank;
  }

  /** What is announced: the members a creation starts with, each joining and leaving, and new epochs. */
  lemma EventsAre(s: State, op: Op)
    ensures var o, c := Apply(s, op), op.conv;
            o.state.events == s.events + if o.error != None then [] else
              var epoch := if c in s.convs && s.convs[c].kind == GroupChat
                           then [EpochChanged(c, s.convs[c].epoch + 1)] else [];
              (match op
               case CreateGroup(_, creator, memberIds) => [Created(c, memberIds + {creator})]
               case CreateChannel(_, creator, _) => [Created(c, {creator})]
               case CreateDm(_, a, b) => [Created(c, {a, b})]
               case CreateCommunityChannel(_, _) => []
               case AddMember(_, _, user, _) => [Added(c, user)] + epoch
               case RemoveMember(_, _, user) => [Removed(c, user)] + epoch
               case JoinChannel(_, user) => [Added(c, user)]
               case LeaveChannel(_, user) => [Removed(c, user)]
               case SetMemberRole(_, _, _, _) => [])
  {
    hide LastOwner, IsAdmin, GroupMembers, Rank;
  }

  // ---- the epoch -----------------------------------------------------------------------------

  ghost predicate Leaves(op: Op, c: string) {
    op.LeaveChannel? && op.conv == c
  }

  ghost predicate EpochKept(s: State, s': State, c: string, noLeave: bool)
    requires c in s.convs
  {
    c in s'.convs && s'.convs[c].kind == s.convs[c].kind && s'.convs[c].epoch >= s.convs[c].epoch &&
    (noLeave && s.convs[c].kind.GroupChat? && s'.convs[c].epoch == s.convs[c].epoch ==>
      s'.convs[c].members.Keys == s.convs[c].members.Keys)
  }

  lemma StepKeepsEpoch(s: State, op: Op, c: string)
    requires c in s.convs
    ensures EpochKept(s, Apply(s, op).state, c, !Leaves(op, c))
  {
    if op.SetMemberRole? && op.user in s.convs[c].members {
      assert s.convs[c].members[op.user := op.role].Keys == s.convs[c].members.Keys;
    }
  }

  lemma ExecLast(s: State, ops: seq<Op>)
    requires ops != []
    ensures Exec(s, ops) == Apply(Exec(s, ops[..|ops| - 1]), ops[|ops| - 1]).state
  {
  }

  /**
   * From any state on: a conversation's epoch never decreases, and as long as nobody uses leaveChannel
   * on a group, equal epochs mean equal member sets.
   */
  lemma {:induction false} EpochNamesMembers(s: State, ops: seq<Op>, c: string)
    requires c in s.convs
    ensures EpochKept(s, Exec(s, ops), c, forall op | op in ops :: !Leaves(op, c))
  {
    if ops != [] {
      hide Apply, Exec;
      var init, last := ops[..|ops| - 1], ops[|ops| - 1];
      assert Exec(s, ops) == Apply(Exec(s, init), last).state by { ExecLast(s, ops); }
      EpochNamesMembers(s, init, c);
      StepKeepsEpoch(Exec(s, init), last, c);
      assert ops == init + [last];
      assert last in ops && forall op | op in init :: op in ops;
    }
  }

  /** leaveChannel is the exception: a member of a group who may leave does so within the epoch. */
  lemma LeavingKeepsTheEpoch(s: State, c: string, user: string)
    requires c in s.convs && s.convs[c].kind.GroupChat? && user in s.convs[c].members
    ensures var s' := Apply(s, LeaveChannel(c, user)).state;
            c in s'.convs && s'.convs[c].epoch == s.convs[c].epoch &&
            (s'.convs[c].members.Keys == s.convs[c].members.Keys <==> LastOwner(s.convs, c, user))
  {
  }

  // ---- the projection ------------------------------------------------------------------------

  /** SADD and SREM, on one conversation's set. */
  function Consumed(before: set<string>, e: Event, c: string): set<string> {
    match e
    case Created(conv, memberIds) => if conv == c then before + memberIds else before
    case Added(conv, user) => if conv == c then before + {user} else before
    case Removed(conv, user) => if conv == c then before - {user} else before
    case EpochChanged(_, _) => before
  }

  /** The member set another service builds from the events, in order. */
  function Project(events: seq<Event>, c: string): set<string> {
    if events == [] then {} else Consumed(Project(events[..|events| - 1], c), events[|events| - 1], c)
  }

  class MembersProjection {
    var sets: map<string, set<string>>
    ghost var log: seq<Event>

    constructor ()
      ensures Valid() && log == []
    {
      sets, log := map[], [];
    }

    ghost predicate Valid()
      reads this
    {
      forall c :: Project(log, c) == Lookup(c)
    }

    function Lookup(c: string): set<string>
      reads this`sets
    {
      if c in sets then sets[c] else {}
    }

    method Consume(e: Event)
      requires Valid()
      modifies this
      ensures Valid() && log == old(log) + [e]
    {
      log := log + [e];
      assert log[..|log| - 1] == old(log);
      match e {
        case Created(c, memberIds) => if memberIds != {} { sets := sets[c := Lookup(c) + memberIds]; }
        case Added(c, user) => sets := sets[c := Lookup(c) + {user}];
        case Removed(c, user) => sets := sets[c := Lookup(c) - {user}];
        case EpochChanged(_, _) =>
      }
    }
  }

  function Table(s: State, c: string): set<string> {
    if c in s.convs then s.convs[c].members.Keys else {}
  }

  ghost predicate Synced(s: State) {
    forall c :: Project(s.events, c) == Table(s, c)
  }

  /** The operation's events say what it did to the table. */
  ghost predicate Announced(s: State, op: Op) {
    match op
    case CreateDm(c, a, b) => c in s.convs ==> {a, b} <= s.convs[c].members.Keys
    case CreateCommunityChannel(_, _) => false
    case _ => true
  }

  lemma ProjectSnoc(events: seq<Event>, e: Event, c: string)
    ensures Project(events + [e], c) == Consumed(Project(events, c), e, c)
  {
    assert (events + [e])[..|events|] == events;
  }

  /** What one operation does to the projection of a conversation, in terms of its projection before. */
  function ProjectedAfter(s: State, op: Op, c: string): set<string> {
    var before := Project(s.events, c);
    if Apply(s, op).error.Some? || op.conv != c then before
    else
      match op
      case CreateGroup(_, creator, memberIds) => before + memberIds + {creator}
      case CreateChannel(_, creator, _) => before + {creator}
      case CreateDm(_, a, b) => before + {a, b}
      case CreateCommunityChannel(_, _) => before
      case AddMember(_, _, user, _) => before + {user}
      case RemoveMember(_, _, user) => before - {user}
      case JoinChannel(_, user) => before + {user}
      case LeaveChannel(_, user) => before - {user}
      case SetMemberRole(_, _, _, _) => before
  }

  lemma RotateEpochProjects(s: State, c: string, k: string)
    ensures Project(RotateEpoch(s, c).events, k) == Project(s.events, k)
    ensures Table(RotateEpoch(s, c), k) == Table(s, k)
  {
    hide Project;
    if c in s.convs {
      ProjectSnoc(s.events, EpochChanged(c, s.convs[c].epoch + 1), k);
    }
  }

  lemma ProjectStep(s: State, op: Op, c: string)
    ensures Project(Apply(s, op).state.events, c) == ProjectedAfter(s, op, c)
  {
    hide Project, Insert, Delete, IsAdmin, LastOwner, RotateEpoch;
    match op
    case CreateGroup(k, creator, memberIds) => ProjectSnoc(s.events, Created(k, memberIds + {creator}), c);
    case CreateChannel(k, creator, _) => ProjectSnoc(s.events, Created(k, {creator}), c);
    case CreateDm(k, a, b) => ProjectSnoc(s.events, Created(k, {a, b}), c);
    case CreateCommunityChannel(_, _) =>
    case AddMember(k, _, user, role) =>
      ProjectSnoc(s.events, Added(k, user), c);
      RotateEpochProjects(Emit(s.(convs := Insert(s.convs, k, user, role)), Added(k, user)), k, c);
    case RemoveMember(k, _, user) =>
      ProjectSnoc(s.events, Removed(k, user), c);
      RotateEpochProjects(Emit(s.(convs := Delete(s.convs, k, user)), Removed(k, user)), k, c);
    case JoinChannel(k, user) => ProjectSnoc(s.events, Added(k, user), c);
    case LeaveChannel(k, user) => ProjectSnoc(s.events, Removed(k, user), c);
    case SetMemberRole(_, _, _, _) =>
  }

  lemma TableInsert(s: State, c: string, user: string, role: Role, k: string)
    ensures c in s.convs ==> Table(s.(convs := Insert(s.convs, c, user, role)), c) == Table(s, c) + {user}
    ensures c !in s.convs || k != c ==> Table(s.(convs := Insert(s.convs, c, user, role)), k) == Table(s, k)
  {
  }

  lemma TableDelete(s: State, c: string, user: string, k: string)
    ensures Table(s.(convs := Delete(s.convs, c, user)), c) == Table(s, c) - {user}
    ensures k != c ==> Table(s.(convs := Delete(s.convs, c, user)), k) == Table(s, k)
  {
  }

  /** The table follows the projection, but for a reopened direct message and a community's channel. */
  ghost function TableAfter(s: State, op: Op, k: string): set<string> {
    if op.conv != k then Table(s, k)
    else if op.CreateDm? && k in s.convs then Table(s, k)
    else if op.CreateCommunityChannel? then {op.creator}
    else ProjectedAfter(s, op, k)
  }

  lemma TableStep(s: State, op: Op, k: string)
    requires Project(s.events, k) == Table(s, k) && Apply(s, op).error.None?
    ensures Table(Apply(s, op).state, k) == TableAfter(s, op, k)
  {
    hide Apply, TableAfter, Project;
    match op
    case AddMember(_, _, _, _) => TableAddMember(s, op, k);
    case RemoveMember(_, _, _) => TableRemoveMember(s, op, k);
    case JoinChannel(_, _) => TableJoinLeave(s, op, k);
    case LeaveChannel(_, _) => TableJoinLeave(s, op, k);
    case SetMemberRole(_, _, _, _) => TableSetRole(s, op, k);
    case _ => TableCreate(s, op, k);
  }

  lemma GroupMemberKeys(creator: string, memberIds: set<string>)
    ensures GroupMembers(creator, memberIds).Keys == memberIds + {creator}
  {
  }

  lemma TableNew(s: State, s': State, c: string, conv: Conversation, k: string)
    requires c !in s.convs && s'.convs == s.convs[c := conv]
    ensures Table(s, c) == {} && Table(s', k) == if k == c then conv.members.Keys else Table(s, k)
  {
  }

  lemma TableCreate(s: State, op: Op, k: string)
    requires Creates(op)
    requires Project(s.events, k) == Table(s, k) && Apply(s, op).error.None?
    ensures Table(Apply(s, op).state, k) == TableAfter(s, op, k)
  {
    hide Project, GroupMembers, Table;
    var c, s' := op.conv, Apply(s, op).state;
    if c in s.convs {
      assert op.CreateDm? && s'.convs == s.convs;
      TableSame(s, s', k);
    } else {
      CreatedMembers(s, op);
      TableNew(s, s', c, s'.convs[c], k);
      hide Apply;
    }
  }

  lemma TableSame(s: State, s': State, k: string)
    requires s'.convs == s.convs
    ensures Table(s', k) == Table(s, k)
  {
  }

  lemma CreatedMembers(s: State, op: Op)
    requires Creates(op)
    requires op.conv !in s.convs && Apply(s, op).error.None?
    ensures var c, s' := op.conv, Apply(s, op).state;
            c in s'.convs && s'.convs == s.convs[c := s'.convs[c]] &&
            s'.convs[c].members.Keys ==
            if op.CreateGroup? then op.memberIds + {op.creator} else if op.CreateDm? then {op.a, op.b} else {op.creator}
  {
    hide GroupMembers;
    if op.CreateGroup? {
      GroupMemberKeys(op.creator, op.memberIds);
    }
  }

  lemma TableJoinLeave(s: State, op: Op, k: string)
    requires (op.JoinChannel? || op.LeaveChannel?) && Project(s.events, k) == Table(s, k) && Apply(s, op).error.None?
    ensures Table(Apply(s, op).state, k) == TableAfter(s, op, k)
  {
    hide Project, Insert, Delete, LastOwner;
    TableInsert(s, op.conv, op.user, Member, k);
    TableDelete(s, op.conv, op.user, k);
  }

  lemma TableAddMember(s: State, op: Op, k: string)
    requires op.AddMember? && Project(s.events, k) == Table(s, k) && Apply(s, op).error.None?
    ensures Table(Apply(s, op).state, k) == TableAfter(s, op, k)
  {
    hide Project, Insert, RotateEpoch, RoleOf, IsAdmin;
    AdminKnown(s.convs, op.conv, op.actor);
    TableInsert(s, op.conv, op.user, op.role, k);
    var inserted := s.(convs := Insert(s.convs, op.conv, op.user, op.role));
    RotateEpochProjects(Emit(inserted, Added(op.conv, op.user)), op.conv, k);
  }

  lemma TableRemoveMember(s: State, op: Op, k: string)
    requires op.RemoveMember? && Project(s.events, k) == Table(s, k) && Apply(s, op).error.None?
    ensures Table(Apply(s, op).state, k) == TableAfter(s, op, k)
  {
    hide Project, Delete, RotateEpoch, RoleOf, IsAdmin, LastOwner;
    TableDelete(s, op.conv, op.user, k);
    RotateEpochProjects(Emit(s.(convs := Delete(s.convs, op.conv, op.user)), Removed(op.conv, op.user)), op.conv, k);
  }

  lemma AdminKnown(convs: Conversations, c: string, actor: string)
    ensures IsAdmin(convs, c, actor) ==> c in convs
  {
  }

  lemma TableSetRole(s: State, op: Op, k: string)
    requires op.SetMemberRole? && Project(s.events, k) == Table(s, k)
    ensures Table(Apply(s, op).state, k) == Table(s, k) == TableAfter(s, op, k)
  {
    hide Project;
    if RoleOf(s.convs, op.conv, op.user).Some? {
      assert s.convs[op.conv].members[op.user := op.role].Keys == s.convs[op.conv].members.Keys;
    }
  }

  /**
   * Exactly when an operation keeps the projection equal to the table: always, except that re-creating
   * a direct message seeds a member who has left it again, and a community's channel is never seeded.
   */
  lemma StaysSyncedExactlyWhenAnnounced(s: State, op: Op)
    requires Synced(s) && Apply(s, op).error.None?
    ensures Synced(Apply(s, op).state) <==> Announced(s, op)
  {
    hide Apply, Project;
    forall c
      ensures c != op.conv || Announced(s, op) ==> Project(Apply(s, op).state.events, c) == Table(Apply(s, op).state, c)
    {
      assert Project(s.events, c) == Table(s, c);
      ProjectStep(s, op, c);
      TableStep(s, op, c);
    }
    var c := op.conv;
    assert Project(s.events, c) == Table(s, c);
    ProjectStep(s, op, c);
    TableStep(s, op, c);
    if op.CreateCommunityChannel? {
      FreshCommunityChannel(s, c, op.creator);
    }
  }

  lemma FreshCommunityChannel(s: State, c: string, creator: string)
    requires Apply(s, CreateCommunityChannel(c, creator)).error.None?
    ensures c !in s.convs
  {
  }

  /** Every conversation has its owner and size, and the projection elsewhere shows its members. */
  ghost predicate Healthy(s: State) {
    AllOk(s) && Synced(s)
  }

  lemma StepKeepsHealthy(s: State, op: Op)
    requires Healthy(s) && !op.CreateDm? && !op.CreateCommunityChannel?
    ensures Healthy(Apply(s, op).state)
  {
    hide Apply, Synced, AllOk;
    StepKeepsOwners(s, op);
    if Apply(s, op).error.None? {
      StaysSyncedExactlyWhenAnnounced(s, op);
    } else {
      FailedChangesNothing(s, op);
    }
  }

  lemma FailedChangesNothing(s: State, op: Op)
    requires Apply(s, op).error.Some?
    ensures Apply(s, op).state == s
  {
  }

  /** After the first n operations the projection equals the table. */
  ghost predicate SyncedAfter(ops: seq<Op>, n: nat) {
    n <= |ops| ==> Synced(Exec(EMPTY, ops[..n]))
  }

  /** The n-th operation succeeds without saying what it did. */
  ghost predicate UnannouncedAt(ops: seq<Op>, n: nat) {
    n < |ops| && Apply(Exec(EMPTY, ops[..n]), ops[n]).error.None? && !Announced(Exec(EMPTY, ops[..n]), ops[n])
  }

  lemma StepSyncedExactly(s: State, op: Op)
    requires Synced(s)
    ensures Synced(Apply(s, op).state) <==> Apply(s, op).error.Some? || Announced(s, op)
  {
    hide Apply, Synced, Announced;
    if Apply(s, op).error.None? {
      StaysSyncedExactlyWhenAnnounced(s, op);
    } else {
      FailedChangesNothing(s, op);
    }
  }

  /**
   * Over any run: folding the emitted events in order yields the member table at every point if and
   * only if every successful operation of the run is announced.
   */
  lemma {:induction false} ProjectionIsTableExactly(ops: seq<Op>)
    ensures (forall n: nat :: SyncedAfter(ops, n)) <==> (forall n: nat :: !UnannouncedAt(ops, n))
  {
    hide Apply, Synced, Announced;
    if ops == [] {
      assert Synced(Exec(EMPTY, [])) by { NothingIsSynced(); }
      assert forall n: nat | n <= |ops| :: ops[..n] == [];
    } else {
      var init, last := ops[..|ops| - 1], |ops| - 1;
      ProjectionIsTableExactly(init);
      assert forall n: nat | n <= last :: init[..n] == ops[..n];
      forall n: nat | n <= last
        ensures SyncedAfter(ops, n) <==> SyncedAfter(init, n)
        ensures n < last ==> (UnannouncedAt(ops, n) <==> UnannouncedAt(init, n))
      {
      }
      assert SyncedAfter(init, last) <==> Synced(Exec(EMPTY, init)) by { assert init[..last] == init; }
      assert SyncedAfter(ops, |ops|) <==> Synced(Exec(EMPTY, ops)) by { assert ops[..|ops|] == ops; }
      if Synced(Exec(EMPTY, init)) {
        StepSyncedExactly(Exec(EMPTY, init), ops[last]);
      }
      ExecLast(EMPTY, ops);
      LastOne(ops);
      hide SyncedAfter, UnannouncedAt, Exec;
    }
  }

  lemma LastOne(ops: seq<Op>)
    ensures forall n: nat | n > |ops| :: SyncedAfter(ops, n)
    ensures forall n: nat | n >= |ops| :: !UnannouncedAt(ops, n)
    ensures ops != [] ==>
              var s, op := Exec(EMPTY, ops[..|ops| - 1]), ops[|ops| - 1];
              UnannouncedAt(ops, |ops| - 1) <==> Apply(s, op).error.None? && !Announced(s, op)
  {
  }

  lemma NothingIsSynced()
    ensures Synced(Exec(EMPTY, []))
  {
  }

  /** A user leaves a direct message and the other side opens it again: the leaver is projected back in. */
  lemma ReopenedDmDiverges(c: string, a: string, b: string)
    requires a != b && a != "" && b != ""
    ensures var s := Exec(EMPTY, [CreateDm(c, a, b), LeaveChannel(c, b), CreateDm(c, a, b)]);
            Table(s, c) == {a} && Project(s.events, c) == {a, b}
  {
    hide Exec, Project, Apply;
    var create, leave := CreateDm(c, a, b), LeaveChannel(c, b);
    ExecThree(EMPTY, create, leave, create);
    var s1 := DmCreated(c, a, b);
    var s2 := DmLeft(s1, c, a, b);
    DmReopened(s2, c, a, b);
    NoEvents(c);
    ProjectStep(EMPTY, create, c);
    ProjectStep(s1, leave, c);
    ProjectStep(s2, create, c);
  }

  lemma NoEvents(c: string)
    ensures Project([], c) == {}
  {
  }

  lemma DmCreated(c: string, a: string, b: string) returns (s: State)
    requires a != b && a != "" && b != ""
    ensures Apply(EMPTY, CreateDm(c, a, b)) == Done(s)
    ensures c in s.convs && s.convs[c].kind == Dm && s.convs[c].members == map[a := Member, b := Member]
  {
    s := Apply(EMPTY, CreateDm(c, a, b)).state;
  }

  lemma DmLeft(s1: State, c: string, a: string, b: string) returns (s: State)
    requires c in s1.convs && s1.convs[c].kind == Dm && s1.convs[c].members == map[a := Member, b := Member] && a != b
    ensures Apply(s1, LeaveChannel(c, b)) == Done(s)
    ensures c in s.convs && s.convs[c].kind == Dm && s.convs[c].members.Keys == {a}
  {
    s := Apply(s1, LeaveChannel(c, b)).state;
  }

  lemma DmReopened(s2: State, c: string, a: string, b: string)
    requires c in s2.convs && s2.convs[c].kind == Dm && a != "" && b != ""
    ensures Apply(s2, CreateDm(c, a, b)).error.None?
    ensures Table(Apply(s2, CreateDm(c, a, b)).state, c) == Table(s2, c)
  {
  }

  lemma ExecThree(s: State, a: Op, b: Op, c: Op)
    ensures Exec(s, [a, b, c]) == Apply(Apply(Apply(s, a).state, b).state, c).state
  {
    hide Apply;
    assert [a][..0] == [] && Exec(s, [a]) == Apply(s, a).state;
    assert [a, b][..1] == [a] && Exec(s, [a, b]) == Apply(Apply(s, a).state, b).state;
    assert [a, b, c][..2] == [a, b];
  }
}
