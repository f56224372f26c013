/**
 The groups of the peer-to-peer registry as a map with insertion order, and the answer of every operation, both in
 terms of the operations that came before.
 */
module PeerGroups {
  import opened Common
  import opened PeerRegistry

  // ---------------------------------------------------------------------------------------------
  // What the operations have asked for
  // ---------------------------------------------------------------------------------------------

  /** The group names created, without repetition, in the order of their first creation: no capacity here. */
  function CreatedNames(ops: seq<Op>): seq<string> {
    if ops == [] then []
    else
      var before, op := CreatedNames(ops[..|ops| - 1]), ops[|ops| - 1];
      if op.Create? && op.group !in before then before + [op.group] else before
  }

  /** The names other than the local one that joined a group after its creation, without repetition, in order. */
  function JoinedNames(ops: seq<Op>, local: string, group: string): seq<string> {
    if ops == [] then []
    else
      var rest, op := ops[..|ops| - 1], ops[|ops| - 1];
      var before := JoinedNames(rest, local, group);
      if op.Join? && op.group == group && group in CreatedNames(rest) && op.name != local && op.name !in before
      then before + [op.name]
      else before
  }

  /** At most `n` of the first names. */
  function First(names: seq<string>, n: nat): seq<string> {
    if |names| <= n then names else names[..n]
  }

  lemma {:induction false} CreatedAreDistinct(ops: seq<Op>)
    ensures Distinct(CreatedNames(ops))
  {
    if ops != [] {
      CreatedAreDistinct(ops[..|ops| - 1]);
    }
  }

  /** Before its creation nobody has joined a group. */
  lemma {:induction false} NobodyJoinedYet(ops: seq<Op>, local: string, group: string)
    requires group !in CreatedNames(ops)
    ensures JoinedNames(ops, local, group) == []
  {
    if ops != [] {
      NobodyJoinedYet(ops[..|ops| - 1], local, group);
    }
  }

  lemma {:induction false} LocalNeverJoins(ops: seq<Op>, local: string, group: string)
    ensures local !in JoinedNames(ops, local, group)
  {
    if ops != [] {
      LocalNeverJoins(ops[..|ops| - 1], local, group);
    }
  }

  // ---------------------------------------------------------------------------------------------
  // The map
  // ---------------------------------------------------------------------------------------------

  ghost predicate GroupIs(g: Group, ops: seq<Op>, local: string, name: string) {
    g.group_name == name && g.members == [local] + First(JoinedNames(ops, local, name), 99)
  }

  ghost predicate GroupsAre(groups: seq<Group>, ops: seq<Op>, local: string) {
    && |groups| == |First(CreatedNames(ops), 100)|
    && forall i :: 0 <= i < |groups| ==> GroupIs(groups[i], ops, local, CreatedNames(ops)[i])
  }

  lemma NamesAre(groups: seq<Group>, ops: seq<Op>, local: string, i: nat)
    requires GroupsAre(groups, ops, local) && i < |groups|
    ensures i < |CreatedNames(ops)| && groups[i].group_name == CreatedNames(ops)[i]
  {
    assert GroupIs(groups[i], ops, local, CreatedNames(ops)[i]);
  }

  /** Which group a name finds: the one at its place among the created names. */
  lemma FoundAt(groups: seq<Group>, ops: seq<Op>, local: string, name: string)
    requires GroupsAre(groups, ops, local)
    ensures var found, created := FindGroup(groups, name), CreatedNames(ops);
      && (found.Some? ==> found.value < |created| && created[found.value] == name)
      && (found.Some? <==> name in First(created, 100))
      && forall i :: 0 <= i < |groups| && found != Some(i) ==> created[i] != name
  {
    var created := CreatedNames(ops);
    CreatedAreDistinct(ops);
    forall i | 0 <= i < |groups|
      ensures i < |created| && groups[i].group_name == created[i]
    {
      NamesAre(groups, ops, local, i);
    }
    assert First(created, 100) == created[..|groups|];
    FoundAmong(groups, created, name);
  }

  lemma FoundAmong(groups: seq<Group>, created: seq<string>, name: string)
    requires |groups| <= |created| && Distinct(created)
    requires forall i :: 0 <= i < |groups| ==> groups[i].group_name == created[i]
    ensures var found := FindGroup(groups, name);
      && (found.Some? ==> created[found.value] == name)
      && (found.Some? <==> name in created[..|groups|])
      && forall i :: 0 <= i < |groups| && found != Some(i) ==> created[i] != name
  {
    if name in created[..|groups|] {
      var k :| 0 <= k < |groups| && created[k] == name;
      assert groups[k].group_name == name;
    }
  }

  /** An operation that creates no new name and lets nobody new join a group changes nothing of its record. */
  lemma GroupStays(ops: seq<Op>, local: string, group: string, op: Op)
    requires !(op.Join? && op.group == group)
    ensures JoinedNames(ops + [op], local, group) == JoinedNames(ops, local, group)
  {
    assert (ops + [op])[..|ops|] == ops;
  }

  lemma CreatedStep(ops: seq<Op>, op: Op)
    ensures CreatedNames(ops + [op])
      == if op.Create? && op.group !in CreatedNames(ops) then CreatedNames(ops) + [op.group] else CreatedNames(ops)
  {
    assert (ops + [op])[..|ops|] == ops;
  }

  lemma AddStep(net: Net, ops: seq<Op>, op: Op)
    requires op.Add? && GroupsAre(net.groups, ops, net.local)
    ensures GroupsAre(Apply(net, op).0.groups, ops + [op], net.local)
  {
    CreatedStep(ops, op);
    forall i | 0 <= i < |net.groups|
      ensures GroupIs(net.groups[i], ops + [op], net.local, CreatedNames(ops)[i])
    {
      assert GroupIs(net.groups[i], ops, net.local, CreatedNames(ops)[i]);
      GroupStays(ops, net.local, CreatedNames(ops)[i], op);
    }
  }

  lemma CreateStep(net: Net, ops: seq<Op>, name: string)
    requires GroupsAre(net.groups, ops, net.local)
    ensures GroupsAre(CreateGroup(net, name).0.groups, ops + [Create(name)], net.local)
    ensures CreateGroup(net, name).1 == if name !in CreatedNames(ops) && |CreatedNames(ops)| < 100 then 0 else -1
  {
    var created, op := CreatedNames(ops), Create(name);
    CreatedStep(ops, op);
    FoundAt(net.groups, ops, net.local, name);
    forall i | 0 <= i < |net.groups|
      ensures GroupIs(net.groups[i], ops + [op], net.local, created[i])
    {
      assert GroupIs(net.groups[i], ops, net.local, created[i]);
      GroupStays(ops, net.local, created[i], op);
    }
    if name !in created {
      NobodyJoinedYet(ops, net.local, name);
      GroupStays(ops, net.local, name, op);
      assert [net.local] + [] == [net.local];
    }
  }

  lemma JoinedStep(ops: seq<Op>, local: string, group: string, user: string)
    requires group in CreatedNames(ops)
    ensures var joined := JoinedNames(ops, local, group);
      JoinedNames(ops + [Join(group, user)], local, group) == if user != local && user !in joined then joined + [user] else joined
  {
    assert (ops + [Join(group, user)])[..|ops|] == ops;
  }

  /** The members of one group after one more join. */
  lemma MembersStep(g: Group, ops: seq<Op>, local: string, user: string)
    requires GroupIs(g, ops, local, g.group_name) && g.group_name in CreatedNames(ops)
    ensures var joined := JoinedNames(ops, local, g.group_name);
      var taken := user in g.members || |g.members| >= 100;
      && GroupIs(if taken then g else g.(members := g.members + [user]), ops + [Join(g.group_name, user)], local, g.group_name)
      && (!taken <==> user != local && user !in joined && |joined| < 99)
  {
    var joined := JoinedNames(ops, local, g.group_name);
    JoinedStep(ops, local, g.group_name, user);
    LocalNeverJoins(ops, local, g.group_name);
    assert user in g.members <==> user == local || user in First(joined, 99);
    if |joined| < 99 {
      assert [local] + joined + [user] == [local] + (joined + [user]);
    } else {
      assert First(joined + [user], 99) == First(joined, 99);
    }
  }

  lemma JoinStep(net: Net, ops: seq<Op>, name: string, user: string)
    requires GroupsAre(net.groups, ops, net.local)
    ensures GroupsAre(JoinGroup(net, name, user).0.groups, ops + [Join(name, user)], net.local)
    ensures var joined := JoinedNames(ops, net.local, name);
      JoinGroup(net, name, user).1 ==
        if name in First(CreatedNames(ops), 100) && user != net.local && user !in joined && |joined| < 99 then 0 else -1
  {
    var created, op, found := CreatedNames(ops), Join(name, user), FindGroup(net.groups, name);
    CreatedStep(ops, op);
    CreatedAreDistinct(ops);
    FoundAt(net.groups, ops, net.local, name);
    forall i | 0 <= i < |net.groups| && found != Some(i)
      ensures GroupIs(net.groups[i], ops + [op], net.local, created[i])
    {
      assert GroupIs(net.groups[i], ops, net.local, created[i]);
      GroupStays(ops, net.local, created[i], op);
    }
    if found.Some? {
      assert GroupIs(net.groups[found.value], ops, net.local, created[found.value]);
      MembersStep(net.groups[found.value], ops, net.local, user);
    }
  }

  /**
   The array of groups is, at every time, the first hundred distinct names that were created, in the order of their first
   creation; the members of each are the local user and the first ninety-nine others that joined after its creation.
   */
  lemma {:induction false} GroupsAreTheMap(local: string, ops: seq<Op>)
    ensures GroupsAre(Run(local, ops).groups, ops, local)
  {
    if ops != [] {
      var rest, op := ops[..|ops| - 1], ops[|ops| - 1];
      var before := Run(local, rest);
      GroupsAreTheMap(local, rest);
      RunIsGood(local, rest);
      assert ops == rest + [op];
      match op
      case Add(_, _, _, _) => AddStep(before, rest, op);
      case Create(name) => CreateStep(before, rest, name);
      case Join(name, user) => JoinStep(before, rest, name, user);
    }
  }

  // ---------------------------------------------------------------------------------------------
  // The answers
  // ---------------------------------------------------------------------------------------------

  /** When an operation after others succeeds, in terms of those others. */
  predicate Succeeds(local: string, ops: seq<Op>, op: Op) {
    match op
    case Add(name, _, _, _) => name in First(AddedNames(ops), 100) || |AddedNames(ops)| < 100
    case Create(name) => name !in CreatedNames(ops) && |CreatedNames(ops)| < 100
    case Join(name, user) =>
      var joined := JoinedNames(ops, local, name);
      name in First(CreatedNames(ops), 100) && user != local && user !in joined && |joined| < 99
  }

  /** Every operation returns 0 if and only if it succeeds, and -1 otherwise, when it changes nothing. */
  lemma AnswersAre(local: string, ops: seq<Op>, op: Op)
    ensures Apply(Run(local, ops), op).1 == if Succeeds(local, ops, op) then 0 else -1
    ensures !Succeeds(local, ops, op) ==> Apply(Run(local, ops), op).0 == Run(local, ops)
  {
    var net := Run(local, ops);
    RunIsGood(local, ops);
    GroupsAreTheMap(local, ops);
    match op
    case Add(name, ip, port, now) => AddAnswer(local, ops, name, ip, port, now);
    case Create(name) => CreateStep(net, ops, name);
    case Join(name, user) => JoinStep(net, ops, name, user);
  }

  lemma AddAnswer(local: string, ops: seq<Op>, name: string, ip: string, port: int, now: int)
    ensures var net := Run(local, ops);
      AddUser(net, name, ip, port, now).1 == if Succeeds(local, ops, Add(name, ip, port, now)) then 0 else -1
  {
    var net, added := Run(local, ops), AddedNames(ops);
    UsersAreTheMap(local, ops);
    forall k | 0 <= k < |net.users|
      ensures net.users[k].username == First(added, 100)[k]
    {}
  }

  // ---------------------------------------------------------------------------------------------
  // Group messages
  // ---------------------------------------------------------------------------------------------

  /** Those that get a message are exactly the recipients a connection can be made to, each as often as it is one. */
  lemma {:induction false} ReachedAre(users: seq<User>, reachable: User -> bool, u: User)
    ensures multiset(Reached(users, reachable))[u] == if reachable(u) then multiset(users)[u] else 0
  {
    if users != [] {
      ReachedAre(users[..|users| - 1], reachable, u);
      assert users == users[..|users| - 1] + [users[|users| - 1]];
    }
  }
}
