/** The two tables of the channels service, row by row, and the statements issued on them. */
module ChannelsRepository {
  import opened Wrappers
  import opened Membership

  datatype ConversationRow = ConversationRow(kind: Kind, isPublic: bool, epoch: nat)
  datatype MemberRow = MemberRow(conv: string, user: string, role: Role)

  // ---- rows as members -----------------------------------------------------------------------

  /** The members of a conversation with their roles. */
  ghost function MembersOf(rows: seq<MemberRow>, c: string): map<string, Role> {
    if rows == [] then map[]
    else
      var rest, r := MembersOf(rows[..|rows| - 1], c), rows[|rows| - 1];
      if r.conv == c then rest[r.user := r.role] else rest
  }

  /** The primary key: one row per conversation and user. */
  ghost predicate OneRowEach(rows: seq<MemberRow>) {
    rows == [] ||
    (OneRowEach(rows[..|rows| - 1]) &&
     rows[|rows| - 1].user !in MembersOf(rows[..|rows| - 1], rows[|rows| - 1].conv))
  }

  lemma MembersSnoc(rows: seq<MemberRow>, r: MemberRow, c: string)
    ensures MembersOf(rows + [r], c) ==
            if r.conv == c then MembersOf(rows, c)[r.user := r.role] else MembersOf(rows, c)
    ensures OneRowEach(rows + [r]) <==> OneRowEach(rows) && r.user !in MembersOf(rows, r.conv)
  {
    assert (rows + [r])[..|rows|] == rows;
  }

  lemma {:induction false} PrefixOneRowEach(rows: seq<MemberRow>, n: nat)
    requires OneRowEach(rows) && n <= |rows|
    ensures OneRowEach(rows[..n])
  {
    if n < |rows| {
      PrefixOneRowEach(rows[..|rows| - 1], n);
      assert rows[..|rows| - 1][..n] == rows[..n];
    } else {
      assert rows[..n] == rows;
    }
  }

  /** A scan of the rows, one further. */
  lemma Scanned(rows: seq<MemberRow>, i: nat, c: string)
    requires OneRowEach(rows) && i < |rows|
    ensures MembersOf(rows[..i + 1], c) ==
            if rows[i].conv == c then MembersOf(rows[..i], c)[rows[i].user := rows[i].role] else MembersOf(rows[..i], c)
    ensures rows[i].user !in MembersOf(rows[..i], rows[i].conv)
  {
    assert rows[..i + 1] == rows[..i] + [rows[i]];
    PrefixOneRowEach(rows, i + 1);
    MembersSnoc(rows[..i], rows[i], c);
  }

  ghost function WithRole(members: map<string, Role>, role: Role): set<string> {
    set u | u in members && members[u] == role
  }

  ghost function Lookup(members: map<string, Role>, user: string): Option<Role> {
    if user in members then Some(members[user]) else None
  }

  /** The rows a DELETE leaves. */
  ghost function Without(rows: seq<MemberRow>, c: string, user: string): seq<MemberRow> {
    if rows == [] then []
    else
      var rest, r := Without(rows[..|rows| - 1], c, user), rows[|rows| - 1];
      if r.conv == c && r.user == user then rest else rest + [r]
  }

  lemma MinusOther(members: map<string, Role>, user: string, role: Role, gone: string)
    ensures user != gone ==> members[user := role] - {gone} == (members - {gone})[user := role]
    ensures user == gone ==> members[user := role] - {gone} == members - {gone}
  {
  }

  lemma {:induction false} WithoutMembers(rows: seq<MemberRow>, c: string, user: string, k: string)
    requires OneRowEach(rows)
    ensures OneRowEach(Without(rows, c, user))
    ensures MembersOf(Without(rows, c, user), k) ==
            if k == c then MembersOf(rows, c) - {user} else MembersOf(rows, k)
  {
    if rows != [] {
      hide MembersOf, OneRowEach;
      var init, r := rows[..|rows| - 1], rows[|rows| - 1];
      assert rows == init + [r];
      MembersSnoc(init, r, k);
      WithoutMembers(init, c, user, k);
      if r.conv == c && r.user == user {
        MinusOther(MembersOf(init, c), user, r.role, user);
      } else {
        WithoutMembers(init, c, user, r.conv);
        MembersSnoc(Without(init, c, user), r, k);
        MinusOther(MembersOf(init, c), r.user, r.role, user);
      }
    }
  }

  /** The rows an UPDATE of one member's role leaves. */
  ghost function Reroled(rows: seq<MemberRow>, c: string, user: string, role: Role): seq<MemberRow> {
    if rows == [] then []
    else
      var rest, r := Reroled(rows[..|rows| - 1], c, user, role), rows[|rows| - 1];
      rest + [if r.conv == c && r.user == user then r.(role := role) else r]
  }

  lemma RerolePlain(members: map<string, Role>, user: string, role: Role, other: string, r: Role)
    ensures user != other ==> members[user := role][other := r] == members[other := r][user := role]
    ensures members[user := r][user := role] == members[user := role]
  {
  }

  lemma {:induction false} ReroledMembers(rows: seq<MemberRow>, c: string, user: string, role: Role, k: string)
    requires OneRowEach(rows)
    ensures OneRowEach(Reroled(rows, c, user, role))
    ensures var before := MembersOf(rows, k);
            MembersOf(Reroled(rows, c, user, role), k) ==
            if k == c && user in before then before[user := role] else before
  {
    if rows != [] {
      hide MembersOf, OneRowEach;
      var init, r := rows[..|rows| - 1], rows[|rows| - 1];
      assert rows == init + [r];
      var r' := if r.conv == c && r.user == user then r.(role := role) else r;
      MembersSnoc(init, r, k);
      MembersSnoc(init, r, r.conv);
      ReroledMembers(init, c, user, role, k);
      ReroledMembers(init, c, user, role, r.conv);
      MembersSnoc(Reroled(init, c, user, role), r', k);
      RerolePlain(MembersOf(init, c), user, role, r.user, r.role);
    }
  }

  // ---- tables as conversations ---------------------------------------------------------------

  ghost function Tables(convs: map<string, ConversationRow>, rows: seq<MemberRow>): Conversations {
    map c | c in convs :: Conversation(convs[c].kind, convs[c].isPublic, convs[c].epoch, MembersOf(rows, c))
  }

  ghost predicate Known(convs: map<string, ConversationRow>, rows: seq<MemberRow>) {
    forall c :: c !in convs ==> MembersOf(rows, c) == map[]
  }

  lemma TablesWithout(convs: map<string, ConversationRow>, rows: seq<MemberRow>, c: string, user: string)
    requires OneRowEach(rows) && Known(convs, rows)
    ensures var rows' := Without(rows, c, user);
            OneRowEach(rows') && Known(convs, rows') &&
            Tables(convs, rows') == Delete(Tables(convs, rows), c, user)
  {
    hide MembersOf, OneRowEach, Without;
    WithoutMembers(rows, c, user, c);
    forall k
      ensures MembersOf(Without(rows, c, user), k) ==
              if k == c then MembersOf(rows, c) - {user} else MembersOf(rows, k)
    {
      WithoutMembers(rows, c, user, k);
    }
  }

  lemma TablesReroled(convs: map<string, ConversationRow>, rows: seq<MemberRow>, c: string, user: string, role: Role)
    requires OneRowEach(rows) && Known(convs, rows)
    ensures var rows' := Reroled(rows, c, user, role);
            OneRowEach(rows') && Known(convs, rows') &&
            var before := Tables(convs, rows);
            Tables(convs, rows') ==
            if RoleOf(before, c, user).None? then before
            else before[c := before[c].(members := before[c].members[user := role])]
  {
    hide MembersOf, OneRowEach, Reroled;
    ReroledMembers(rows, c, user, role, c);
    forall k
      ensures MembersOf(Reroled(rows, c, user, role), k) ==
              if k == c && user in MembersOf(rows, k) then MembersOf(rows, k)[user := role] else MembersOf(rows, k)
    {
      ReroledMembers(rows, c, user, role, k);
    }
  }

  class Repository {
    var conversations: map<string, ConversationRow>
    var rows: seq<MemberRow>

    constructor ()
      ensures Valid() && Convs() == map[]
    {
      conversations, rows := map[], [];
    }

    /** The primary and the foreign key of the member table. */
    ghost predicate Valid()
      reads this
    {
      OneRowEach(rows) && Known(conversations, rows)
    }

    /** What the tables say. */
    ghost function Convs(): Conversations
      reads this
    {
      Tables(conversations, rows)
    }

    /** INSERT INTO conversations ... ON CONFLICT DO NOTHING. */
    method CreateConversation(c: string, kind: Kind, isPublic: bool) returns (created: bool)
      requires Valid()
      modifies this`conversations
      ensures Valid() && created == (c !in old(Convs()))
      ensures Convs() == if created then old(Convs())[c := Conversation(kind, isPublic, FIRST_EPOCH, map[])]
                         else old(Convs())
    {
      created := c !in conversations;
      if created {
        conversations := conversations[c := ConversationRow(kind, isPublic, FIRST_EPOCH)];
      }
    }

    /** SELECT role: a scan for the member's row. */
    method GetMemberRole(c: string, user: string) returns (role: Option<Role>)
      requires Valid()
      ensures role == RoleOf(Convs(), c, user)
    {
      role := None;
      for i := 0 to |rows|
        invariant role == Lookup(MembersOf(rows[..i], c), user)
      {
        Scanned(rows, i, c);
        if rows[i].conv == c && rows[i].user == user {
          role := Some(rows[i].role);
        }
      }
      assert rows[..|rows|] == rows;
    }

    /** SELECT count(*) of the conversation's rows. */
    method MemberCount(c: string) returns (n: nat)
      requires Valid()
      ensures n == if c in Convs() then |Convs()[c].members| else 0
    {
      n := 0;
      for i := 0 to |rows|
        invariant n == |MembersOf(rows[..i], c)|
      {
        Scanned(rows, i, c);
        if rows[i].conv == c {
          OneMore(MembersOf(rows[..i], c), rows[i].user, rows[i].role, Owner);
          n := n + 1;
        }
      }
      assert rows[..|rows|] == rows;
    }

    /** SELECT count(*) of the conversation's rows with a role. */
    method CountByRole(c: string, role: Role) returns (n: nat)
      requires Valid()
      ensures n == if c in Convs() then |WithRole(Convs()[c].members, role)| else 0
    {
      n := 0;
      for i := 0 to |rows|
        invariant n == |WithRole(MembersOf(rows[..i], c), role)|
      {
        Scanned(rows, i, c);
        if rows[i].conv == c {
          OneMore(MembersOf(rows[..i], c), rows[i].user, rows[i].role, role);
          if rows[i].role == role {
            n := n + 1;
          }
        }
      }
      assert rows[..|rows|] == rows;
    }

    /** INSERT INTO conversation_members ... ON CONFLICT DO NOTHING. */
    method AddMember(c: string, user: string, role: Role)
      requires Valid() && c in Convs()
      modifies this`rows
      ensures Valid() && Convs() == Insert(old(Convs()), c, user, role)
    {
      var existing := GetMemberRole(c, user);
      if existing.None? {
        ghost var before := rows;
        rows := rows + [MemberRow(c, user, role)];
        forall k
          ensures MembersOf(rows, k) == if k == c then MembersOf(before, c)[user := role] else MembersOf(before, k)
        {
          MembersSnoc(before, MemberRow(c, user, role), k);
        }
        MembersSnoc(before, MemberRow(c, user, role), c);
      }
    }

    /** One INSERT of several rows; a repeated key is skipped by the conflict clause. */
    method AddMembersBatch(c: string, batch: seq<(string, Role)>)
      requires Valid() && c in Convs()
      modifies this`rows
      ensures Valid() && Convs() == InsertAll(old(Convs()), c, batch)
    {
      for i := 0 to |batch|
        invariant Valid() && Convs() == InsertAll(old(Convs()), c, batch[..i])
      {
        assert batch[..i + 1][..i] == batch[..i];
        InsertAllKeeps(old(Convs()), c, batch[..i]);
        AddMember(c, batch[i].0, batch[i].1);
      }
      assert batch[..|batch|] == batch;
    }

    /** DELETE FROM conversation_members. */
    method RemoveMember(c: string, user: string)
      requires Valid()
      modifies this`rows
      ensures Valid() && Convs() == Delete(old(Convs()), c, user)
    {
      var kept: seq<MemberRow> := [];
      for i := 0 to |rows|
        invariant kept == Without(rows[..i], c, user)
      {
        assert rows[..i + 1][..i] == rows[..i];
        if !(rows[i].conv == c && rows[i].user == user) {
          kept := kept + [rows[i]];
        }
      }
      assert rows[..|rows|] == rows;
      TablesWithout(conversations, rows, c, user);
      rows := kept;
    }

    /** UPDATE conversation_members SET role. */
    method SetMemberRole(c: string, user: string, role: Role)
      requires Valid()
      modifies this`rows
      ensures Valid()
      ensures Convs() ==
              if RoleOf(old(Convs()), c, user).None? then old(Convs())
              else old(Convs())[c := old(Convs())[c].(members := old(Convs())[c].members[user := role])]
    {
      var updated: seq<MemberRow> := [];
      for i := 0 to |rows|
        invariant updated == Reroled(rows[..i], c, user, role)
      {
        assert rows[..i + 1][..i] == rows[..i];
        updated := updated + [if rows[i].conv == c && rows[i].user == user then rows[i].(role := role) else rows[i]];
      }
      assert rows[..|rows|] == rows;
      TablesReroled(conversations, rows, c, user, role);
      rows := updated;
    }

    /** UPDATE conversations SET sender_key_epoch ... WHERE type = 'group' RETURNING sender_key_epoch. */
    method BumpEpochIfGroup(c: string) returns (epoch: Option<nat>)
      requires Valid()
      modifies this`conversations
      ensures Valid()
      ensures epoch.Some? <==> c in old(Convs()) && old(Convs())[c].kind.GroupChat?
      ensures Convs() == if epoch.Some? then old(Convs())[c := old(Convs())[c].(epoch := epoch.value)] else old(Convs())
      ensures epoch.Some? ==> epoch.value == old(Convs())[c].epoch + 1
    {
      epoch := None;
      if c in conversations && conversations[c].kind.GroupChat? {
        conversations := conversations[c := conversations[c].(epoch := conversations[c].epoch + 1)];
        epoch := Some(conversations[c].epoch);
      }
    }
  }

  function InsertAll(convs: Conversations, c: string, batch: seq<(string, Role)>): Conversations {
    if batch == [] then convs
    else
      var (user, role) := batch[|batch| - 1];
      Insert(InsertAll(convs, c, batch[..|batch| - 1]), c, user, role)
  }

  lemma {:induction false} InsertAllKeeps(convs: Conversations, c: string, batch: seq<(string, Role)>)
    ensures InsertAll(convs, c, batch).Keys == convs.Keys
  {
    if batch != [] {
      InsertAllKeeps(convs, c, batch[..|batch| - 1]);
    }
  }

  /** One more member, with role r. */
  lemma OneMore(members: map<string, Role>, user: string, r: Role, role: Role)
    requires user !in members
    ensures |members[user := r]| == |members| + 1
    ensures |WithRole(members[user := r], role)| == |WithRole(members, role)| + if r == role then 1 else 0
  {
    assert members[user := r].Keys == members.Keys + {user};
    OneMoreWith(members, user, r, role);
    assert user !in WithRole(members, role);
    hide WithRole;
  }

  lemma OneMoreWith(members: map<string, Role>, user: string, r: Role, role: Role)
    requires user !in members
    ensures WithRole(members[user := r], role) == WithRole(members, role) + if r == role then {user} else {}
  {
    forall u
      ensures u in WithRole(members[user := r], role) <==> u in WithRole(members, role) || (u == user && r == role)
    {
    }
  }
}
