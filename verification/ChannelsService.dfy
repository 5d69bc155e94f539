/**
 * The channels service: its checks and writes, statement by statement, on the tables of
 * ChannelsRepository, against the operations of Membership.
 */
module ChannelsService {
  import opened Wrappers
  import opened Membership
  import opened ChannelsRepository

  // ---- what a successful operation means -----------------------------------------------------

  function EpochOf(s: State, c: string): nat {
    if c in s.convs then s.convs[c].epoch else 0
  }

  predicate IsGroup(s: State, c: string) {
    c in s.convs && s.convs[c].kind.GroupChat?
  }

  /** From s to s', conversation c got these members; those who were members before keep their role. */
  ghost predicate Regrouped(s: State, s': State, c: string, members: set<string>, rotated: bool) {
    && Table(s', c) == members
    && (forall u | u in members && u in Table(s, c) :: RoleOf(s'.convs, c, u) == RoleOf(s.convs, c, u))
    && EpochOf(s', c) == EpochOf(s, c) + (if rotated && IsGroup(s, c) then 1 else 0)
    && s'.convs.Keys == s.convs.Keys && forall k | k in s.convs && k != c :: s'.convs[k] == s.convs[k]
  }

  lemma AddMeans(s: State, c: string, actor: string, user: string, role: Role)
    requires Apply(s, Op.AddMember(c, actor, user, role)).error.None?
    ensures var s' := Apply(s, Op.AddMember(c, actor, user, role)).state;
            Regrouped(s, s', c, Table(s, c) + {user}, true) &&
            RoleOf(s'.convs, c, user) == (if user in Table(s, c) then RoleOf(s.convs, c, user) else Some(role))
  {
    var m := s.(convs := Insert(s.convs, c, user, role));
    AdminKnown(s.convs, c, actor);
    InsertRegroups(s, c, user, role);
    assert Apply(s, Op.AddMember(c, actor, user, role)).state == RotateEpoch(Emit(m, Added(c, user)), c);
    hide Apply, Insert;
    RotateRegroups(s, Emit(m, Added(c, user)), c, Table(s, c) + {user});
  }

  lemma InsertRegroups(s: State, c: string, user: string, role: Role)
    requires c in s.convs
    ensures var m := s.(convs := Insert(s.convs, c, user, role));
            Regrouped(s, m, c, Table(s, c) + {user}, false) && m.convs[c].kind == s.convs[c].kind &&
            RoleOf(m.convs, c, user) == (if user in Table(s, c) then RoleOf(s.convs, c, user) else Some(role))
  {
  }

  lemma RotateRegroups(s: State, m: State, c: string, members: set<string>)
    requires Regrouped(s, m, c, members, false) && (c in s.convs ==> m.convs[c].kind == s.convs[c].kind)
    ensures Regrouped(s, RotateEpoch(m, c), c, members, true)
    ensures forall u :: RoleOf(RotateEpoch(m, c).convs, c, u) == RoleOf(m.convs, c, u)
  {
  }

  lemma RemoveMeans(s: State, c: string, actor: string, user: string)
    requires Apply(s, Op.RemoveMember(c, actor, user)).error.None?
    ensures Regrouped(s, Apply(s, Op.RemoveMember(c, actor, user)).state, c, Table(s, c) - {user}, true)
  {
  }

  lemma JoinMeans(s: State, c: string, user: string)
    requires Apply(s, Op.JoinChannel(c, user)).error.None?
    ensures Regrouped(s, Apply(s, Op.JoinChannel(c, user)).state, c, Table(s, c) + {user}, false)
  {
  }

  lemma LeaveMeans(s: State, c: string, user: string)
    requires Apply(s, Op.LeaveChannel(c, user)).error.None?
    ensures Regrouped(s, Apply(s, Op.LeaveChannel(c, user)).state, c, Table(s, c) - {user}, false)
  {
  }

  /** Owner first, then the others; a repeated id is skipped by the conflict clause. */
  function Batch(creator: string, memberIds: seq<string>): seq<(string, Role)> {
    if memberIds == [] then [(creator, Owner)]
    else
      var rest, u := Batch(creator, memberIds[..|memberIds| - 1]), memberIds[|memberIds| - 1];
      if u == creator then rest else rest + [(u, Member)]
  }

  function WithMembers(convs: Conversations, c: string, members: map<string, Role>): Conversations
    requires c in convs
  {
    convs[c := convs[c].(members := members)]
  }

  lemma InsertOne(convs: Conversations, c: string, members: map<string, Role>, user: string, role: Role)
    requires c in convs
    ensures Insert(WithMembers(convs, c, members), c, user, role) ==
            WithMembers(convs, c, if user in members then members else members[user := role])
  {
  }

  lemma InsertAllSnoc(convs: Conversations, c: string, batch: seq<(string, Role)>, user: string, role: Role)
    ensures InsertAll(convs, c, batch + [(user, role)]) == Insert(InsertAll(convs, c, batch), c, user, role)
  {
    assert (batch + [(user, role)])[..|batch|] == batch;
  }

  lemma {:induction false} BatchMakesGroup(convs: Conversations, c: string, creator: string, memberIds: seq<string>)
    requires c in convs && convs[c].members == map[]
    ensures InsertAll(convs, c, Batch(creator, memberIds)) ==
            WithMembers(convs, c, GroupMembers(creator, set u | u in memberIds))
  {
    hide WithMembers, InsertAll, Insert;
    if memberIds == [] {
      assert [] + [(creator, Owner)] == [(creator, Owner)];
      InsertAllSnoc(convs, c, [], creator, Owner);
      assert WithMembers(convs, c, map[]) == convs == InsertAll(convs, c, []) by { NothingYet(convs, c); }
      InsertOne(convs, c, map[], creator, Owner);
      assert GroupMembers(creator, set u | u in memberIds) == map[creator := Owner];
    } else {
      var init, u := memberIds[..|memberIds| - 1], memberIds[|memberIds| - 1];
      var done := set v | v in init;
      BatchMakesGroup(convs, c, creator, init);
      assert memberIds == init + [u];
      OneMoreMember(creator, done, u);
      assert (set v | v in memberIds) == done + {u};
      InsertAllSnoc(convs, c, Batch(creator, init), u, Member);
      InsertOne(convs, c, GroupMembers(creator, done), u, Member);
      assert creator in GroupMembers(creator, done);
    }
  }

  lemma NothingYet(convs: Conversations, c: string)
    requires c in convs && convs[c].members == map[]
    ensures WithMembers(convs, c, map[]) == convs && InsertAll(convs, c, []) == convs
  {
  }

  lemma OneMoreMember(creator: string, done: set<string>, user: string)
    ensures GroupMembers(creator, done + {user}) ==
            if user in GroupMembers(creator, done) then GroupMembers(creator, done)
            else GroupMembers(creator, done)[user := Member]
  {
  }

  lemma CreateMeans(s: State, c: string, creator: string, memberIds: set<string>)
    requires c !in s.convs && |memberIds + {creator}| <= MAX_GROUP_MEMBERS
    ensures var added := s.convs[c := Conversation(GroupChat, false, FIRST_EPOCH, map[])];
            Apply(s, Op.CreateGroup(c, creator, memberIds)) ==
            Done(State(WithMembers(added, c, GroupMembers(creator, memberIds)),
                       s.events + [Created(c, memberIds + {creator})]))
  {
  }

  lemma SetRoleMeans(s: State, c: string, actor: string, user: string, role: Role)
    ensures var o := Apply(s, Op.SetMemberRole(c, actor, user, role));
            forall k, u :: RoleOf(o.state.convs, k, u) ==
              if o.error.None? && k == c && u == user && RoleOf(s.convs, k, u).Some? then Some(role)
              else RoleOf(s.convs, k, u)
  {
  }

  lemma OwnersAreWithRole(members: map<string, Role>)
    ensures WithRole(members, Owner) == Owners(members)
  {
  }

  class Service {
    const repo: Repository
    var events: seq<Event>

    constructor ()
      ensures Valid() && fresh(repo) && Now() == EMPTY
    {
      repo := new Repository();
      events := [];
    }

    ghost predicate Valid()
      reads this, repo
    {
      repo.Valid()
    }

    /** What the tables and the events published so far say. */
    ghost function Now(): State
      reads this, repo
    {
      State(repo.Convs(), events)
    }

    method Publish(e: Event)
      modifies this`events
      ensures events == old(events) + [e]
    {
      events := events + [e];
    }

    method CreateGroup(conv: string, creator: string, memberIds: seq<string>) returns (error: Option<Error>)
      requires Valid() && conv !in Now().convs
      modifies this, repo
      ensures Valid()
      ensures Outcome(Now(), error) == Apply(old(Now()), Op.CreateGroup(conv, creator, set u | u in memberIds))
      ensures Healthy(old(Now())) ==> Healthy(Now())
    {
      ghost var op := Op.CreateGroup(conv, creator, set u | u in memberIds);
      ghost var s := Now();
      if Healthy(s) { StepKeepsHealthy(s, op); }
      var members := {creator} + set u | u in memberIds;
      assert members == op.memberIds + {creator};
      if |members| > MAX_GROUP_MEMBERS {
        return Some(Validation);
      }
      CreateMeans(s, conv, creator, op.memberIds);
      hide Healthy, GroupMembers, Batch, InsertAll, Tables, WithMembers, Apply;
      var _ := repo.CreateConversation(conv, GroupChat, false);
      BatchMakesGroup(repo.Convs(), conv, creator, memberIds);
      var batch := MakeBatch(creator, memberIds);
      repo.AddMembersBatch(conv, batch);
      Publish(Created(conv, members));
      error := None;
    }

    method MakeBatch(creator: string, memberIds: seq<string>) returns (batch: seq<(string, Role)>)
      ensures batch == Batch(creator, memberIds)
    {
      batch := [(creator, Owner)];
      for i := 0 to |memberIds|
        invariant batch == Batch(creator, memberIds[..i])
      {
        assert memberIds[..i + 1][..i] == memberIds[..i];
        if memberIds[i] != creator {
          batch := batch + [(memberIds[i], Role.Member)];
        }
      }
      assert memberIds[..|memberIds|] == memberIds;
    }

    method AssertAdmin(conv: string, actor: string) returns (error: Option<Error>)
      requires Valid()
      ensures error == if IsAdmin(Now().convs, conv, actor) then None else Some(Forbidden)
    {
      var role := repo.GetMemberRole(conv, actor);
      if role != Some(Owner) && role != Some(Admin) {
        return Some(Forbidden);
      }
      error := None;
    }

    method CountOwners(conv: string) returns (n: nat)
      requires Valid()
      ensures n == OwnerCount(Now().convs, conv)
    {
      n := repo.CountByRole(conv, Owner);
      if conv in Now().convs {
        OwnersAreWithRole(Now().convs[conv].members);
      }
    }

    method Rotate(conv: string)
      requires Valid()
      modifies this, repo
      ensures Valid() && Now() == RotateEpoch(old(Now()), conv)
    {
      var epoch := repo.BumpEpochIfGroup(conv);
      if epoch.Some? {
        Publish(EpochChanged(conv, epoch.value));
      }
    }

    /** A newcomer gets the role, a member keeps theirs; a group's epoch moves on either way. */
    method AddMember(conv: string, actor: string, user: string, role: Role) returns (error: Option<Error>)
      requires Valid()
      modifies this, repo
      ensures Valid() && Outcome(Now(), error) == Apply(old(Now()), Op.AddMember(conv, actor, user, role))
      ensures Healthy(old(Now())) ==> Healthy(Now())
      ensures error.None? ==> Regrouped(old(Now()), Now(), conv, Table(old(Now()), conv) + {user}, true)
      ensures error.None? && user !in Table(old(Now()), conv) ==> RoleOf(Now().convs, conv, user) == Some(role)
    {
      ghost var op := Op.AddMember(conv, actor, user, role);
      if Healthy(Now()) { StepKeepsHealthy(Now(), op); }
      if Apply(Now(), op).error.None? { AddMeans(Now(), conv, actor, user, role); }
      hide Healthy, Regrouped, Insert, RotateEpoch, Tables, RoleOf, Table;
      AdminKnown(Now().convs, conv, actor);
      error := AssertAdmin(conv, actor);
      if error.Some? {
        return;
      }
      var count := repo.MemberCount(conv);
      if count >= MAX_GROUP_MEMBERS {
        return Some(Validation);
      }
      repo.AddMember(conv, user, role);
      Publish(Added(conv, user));
      Rotate(conv);
    }

    /** The user is out, and a group's epoch moves on, even if the user was not a member. */
    method RemoveMember(conv: string, actor: string, user: string) returns (error: Option<Error>)
      requires Valid()
      modifies this, repo
      ensures Valid() && Outcome(Now(), error) == Apply(old(Now()), Op.RemoveMember(conv, actor, user))
      ensures Healthy(old(Now())) ==> Healthy(Now())
      ensures error.None? ==> Regrouped(old(Now()), Now(), conv, Table(old(Now()), conv) - {user}, true)
    {
      ghost var op := Op.RemoveMember(conv, actor, user);
      if Healthy(Now()) { StepKeepsHealthy(Now(), op); }
      if Apply(Now(), op).error.None? { RemoveMeans(Now(), conv, actor, user); }
      hide Healthy, Regrouped, Delete, RotateEpoch, Tables, RoleOf, Table, OwnerCount;
      error := AssertAdmin(conv, actor);
      if error.Some? {
        return;
      }
      var role := repo.GetMemberRole(conv, user);
      if role == Some(Owner) {
        var owners := CountOwners(conv);
        if owners <= 1 {
          return Some(Forbidden);
        }
      }
      repo.RemoveMember(conv, user);
      Publish(Removed(conv, user));
      Rotate(conv);
    }

    /** Nobody but the newcomer is affected. */
    method JoinChannel(conv: string, user: string) returns (error: Option<Error>)
      requires Valid()
      modifies this, repo
      ensures Valid() && Outcome(Now(), error) == Apply(old(Now()), Op.JoinChannel(conv, user))
      ensures Healthy(old(Now())) ==> Healthy(Now())
      ensures error.None? ==> Regrouped(old(Now()), Now(), conv, Table(old(Now()), conv) + {user}, false)
    {
      ghost var op := Op.JoinChannel(conv, user);
      if Healthy(Now()) { StepKeepsHealthy(Now(), op); }
      if Apply(Now(), op).error.None? { JoinMeans(Now(), conv, user); }
      hide Healthy, Regrouped, Insert, RoleOf, Table;
      if conv !in repo.conversations {
        return Some(NotFound);
      }
      var c := repo.conversations[conv];
      if !c.kind.Channel? {
        return Some(Validation);
      }
      if !c.isPublic {
        return Some(Forbidden);
      }
      repo.AddMember(conv, user, Member);
      Publish(Added(conv, user));
      error := None;
    }

    /** Whoever leaves is out; the epoch stays, in a group too. */
    method LeaveChannel(conv: string, user: string) returns (error: Option<Error>)
      requires Valid()
      modifies this, repo
      ensures Valid() && Outcome(Now(), error) == Apply(old(Now()), Op.LeaveChannel(conv, user))
      ensures Healthy(old(Now())) ==> Healthy(Now())
      ensures error.None? ==> Regrouped(old(Now()), Now(), conv, Table(old(Now()), conv) - {user}, false)
    {
      ghost var op := Op.LeaveChannel(conv, user);
      if Healthy(Now()) { StepKeepsHealthy(Now(), op); }
      if Apply(Now(), op).error.None? { LeaveMeans(Now(), conv, user); }
      hide Healthy, Regrouped, Delete, RoleOf, Table, OwnerCount, Tables;
      var role := repo.GetMemberRole(conv, user);
      if role == Some(Owner) {
        var owners := CountOwners(conv);
        if owners <= 1 {
          return Some(Forbidden);
        }
      }
      repo.RemoveMember(conv, user);
      Publish(Removed(conv, user));
      error := None;
    }

    /** Members stay members; the target's role is the new one, and nobody else's changes. */
    method SetMemberRole(conv: string, actor: string, user: string, role: Role) returns (error: Option<Error>)
      requires Valid()
      modifies this, repo
      ensures Valid() && Outcome(Now(), error) == Apply(old(Now()), Op.SetMemberRole(conv, actor, user, role))
      ensures Healthy(old(Now())) ==> Healthy(Now())
      ensures forall c, u :: RoleOf(Now().convs, c, u) ==
                if error.None? && c == conv && u == user && RoleOf(old(Now()).convs, c, u).Some? then Some(role)
                else RoleOf(old(Now()).convs, c, u)
    {
      ghost var op := Op.SetMemberRole(conv, actor, user, role);
      if Healthy(Now()) { StepKeepsHealthy(Now(), op); }
      SetRoleMeans(Now(), conv, actor, user, role);
      hide Healthy, OwnerCount, Tables, RoleOf;
      var actorRole := repo.GetMemberRole(conv, actor);
      if actorRole.None? || Rank(actorRole.value) < Rank(Admin) {
        return Some(Forbidden);
      }
      if actorRole != Some(Owner) && Rank(role) >= Rank(actorRole.value) {
        return Some(Forbidden);
      }
      if role == Owner && actorRole != Some(Owner) {
        return Some(Forbidden);
      }
      var targetRole := repo.GetMemberRole(conv, user);
      if targetRole == Some(Owner) && role != Owner {
        var owners := CountOwners(conv);
        if owners <= 1 {
          return Some(Forbidden);
        }
      }
      if targetRole.Some? && actorRole != Some(Owner) && Rank(targetRole.value) >= Rank(actorRole.value) {
        return Some(Forbidden);
      }
      repo.SetMemberRole(conv, user, role);
      error := None;
    }
  }
}
