/**
 The registry of the peer-to-peer prototype: arrays of users and groups that are searched from the front,
 with capacity 100 each, and the recipient loop of a group message.
 */
module PeerRegistry {
  import opened Common

  const MAX_USERS: nat := 100
  const MAX_NAME: nat := 31
  const MAX_IP: nat := 45

  datatype User = User(username: string, ip: string, port: int, last_seen: int)

  datatype Group = Group(group_name: string, members: seq<string>)

  /** The filled parts of the two arrays. */
  datatype Net = Net(users: seq<User>, groups: seq<Group>, local: string)

  // ---------------------------------------------------------------------------------------------
  // What the operations do to the registry
  // ---------------------------------------------------------------------------------------------

  /** Index of the first user of that name. */
  function FindUser(users: seq<User>, name: string): (r: Option<nat>)
    ensures r.Some? ==> r.value < |users| && users[r.value].username == name
    ensures r.Some? ==> forall k :: 0 <= k < r.value ==> users[k].username != name
    ensures r.None? ==> forall k :: 0 <= k < |users| ==> users[k].username != name
  {
    if users == [] then None
    else if users[0].username == name then Some(0)
    else match FindUser(users[1..], name) case None => None case Some(k) => Some(k + 1)
  }

  function FindGroup(groups: seq<Group>, name: string): (r: Option<nat>)
    ensures r.Some? ==> r.value < |groups| && groups[r.value].group_name == name
    ensures r.Some? ==> forall k :: 0 <= k < r.value ==> groups[k].group_name != name
    ensures r.None? ==> forall k :: 0 <= k < |groups| ==> groups[k].group_name != name
  {
    if groups == [] then None
    else if groups[0].group_name == name then Some(0)
    else match FindGroup(groups[1..], name) case None => None case Some(k) => Some(k + 1)
  }

  /** A known user gets the new address, an unknown one a new entry while there is room. */
  function AddUser(net: Net, name: string, ip: string, port: int, now: int): (Net, int) {
    match FindUser(net.users, name)
    case Some(i) => (net.(users := net.users[i := User(name, ip, port, now)]), 0)
    case None =>
      if |net.users| < MAX_USERS then (net.(users := net.users + [User(name, ip, port, now)]), 0) else (net, -1)
  }

  /** A new group has the local user as its first member. */
  function CreateGroup(net: Net, name: string): (Net, int) {
    if FindGroup(net.groups, name).Some? || |net.groups| >= MAX_USERS then (net, -1)
    else (net.(groups := net.groups + [Group(name, [net.local])]), 0)
  }

  function JoinGroup(net: Net, name: string, user: string): (Net, int) {
    match FindGroup(net.groups, name)
    case None => (net, -1)
    case Some(i) =>
      var g := net.groups[i];
      if user in g.members || |g.members| >= MAX_USERS then (net, -1)
      else (net.(groups := net.groups[i := g.(members := g.members + [user])]), 0)
  }

  // ---------------------------------------------------------------------------------------------
  // What every operation keeps
  // ---------------------------------------------------------------------------------------------

  ghost predicate Distinct(names: seq<string>) {
    forall i, j :: 0 <= i < j < |names| ==> names[i] != names[j]
  }

  ghost predicate Good(net: Net) {
    && |net.users| <= MAX_USERS && |net.groups| <= MAX_USERS
    && (forall i, j :: 0 <= i < j < |net.users| ==> net.users[i].username != net.users[j].username)
    && (forall i, j :: 0 <= i < j < |net.groups| ==> net.groups[i].group_name != net.groups[j].group_name)
    && (forall i :: 0 <= i < |net.groups| ==>
          && 1 <= |net.groups[i].members| <= MAX_USERS
          && net.groups[i].members[0] == net.local
          && Distinct(net.groups[i].members))
  }

  datatype Op =
    | Add(name: string, ip: string, port: int, now: int)
    | Create(group: string)
    | Join(group: string, name: string)

  function Apply(net: Net, op: Op): (Net, int) {
    match op
    case Add(name, ip, port, now) => AddUser(net, name, ip, port, now)
    case Create(group) => CreateGroup(net, group)
    case Join(group, name) => JoinGroup(net, group, name)
  }

  function Run(local: string, ops: seq<Op>): Net {
    if ops == [] then Net([], [], local) else Apply(Run(local, ops[..|ops| - 1]), ops[|ops| - 1]).0
  }

  lemma ApplyKeepsGood(net: Net, op: Op)
    requires Good(net)
    ensures Good(Apply(net, op).0) && Apply(net, op).0.local == net.local
  {
    match op
    case Add(name, ip, port, now) => AddKeepsGood(net, name, ip, port, now);
    case Create(group) => CreateKeepsGood(net, group);
    case Join(group, name) => JoinKeepsGood(net, group, name);
  }

  lemma AddKeepsGood(net: Net, name: string, ip: string, port: int, now: int)
    requires Good(net)
    ensures Good(AddUser(net, name, ip, port, now).0)
  {}

  lemma CreateKeepsGood(net: Net, group: string)
    requires Good(net)
    ensures Good(CreateGroup(net, group).0)
  {}

  lemma JoinKeepsGood(net: Net, group: string, name: string)
    requires Good(net)
    ensures Good(JoinGroup(net, group, name).0)
  {}

  /** In every reachable registry names are distinct, counts at most 100, and the creator is the first member. */
  lemma {:induction false} RunIsGood(local: string, ops: seq<Op>)
    ensures Good(Run(local, ops)) && Run(local, ops).local == local
  {
    if ops != [] {
      RunIsGood(local, ops[..|ops| - 1]);
      ApplyKeepsGood(Run(local, ops[..|ops| - 1]), ops[|ops| - 1]);
    }
  }

  // ---------------------------------------------------------------------------------------------
  // The users are a map with insertion order
  // ---------------------------------------------------------------------------------------------

  /** The names added, without repetition, in the order of their first addition: no capacity here. */
  function AddedNames(ops: seq<Op>): seq<string> {
    if ops == [] then []
    else
      var before, op := AddedNames(ops[..|ops| - 1]), ops[|ops| - 1];
      if op.Add? && op.name !in before then before + [op.name] else before
  }

  /** The last addition of a name. */
  function LatestAdd(ops: seq<Op>, name: string): Option<Op> {
    if ops == [] then None
    else if ops[|ops| - 1].Add? && ops[|ops| - 1].name == name then Some(ops[|ops| - 1])
    else LatestAdd(ops[..|ops| - 1], name)
  }

  lemma {:induction false} AddedIffLatest(ops: seq<Op>, name: string)
    ensures name in AddedNames(ops) <==> LatestAdd(ops, name).Some?
    ensures LatestAdd(ops, name).Some? ==> LatestAdd(ops, name).value.Add? && LatestAdd(ops, name).value.name == name
  {
    if ops != [] {
      AddedIffLatest(ops[..|ops| - 1], name);
    }
  }

  /**
   The array of users is, at every time, the first hundred distinct names that were added, in the order of
   their first addition, each with the address of its latest addition.
   */
  lemma {:induction false} UsersAreTheMap(local: string, ops: seq<Op>)
    ensures var users, added := Run(local, ops).users, AddedNames(ops);
      && |users| == (if |added| < MAX_USERS then |added| else MAX_USERS)
      && (forall k :: 0 <= k < |users| ==>
            && users[k].username == added[k]
            && var op := LatestAdd(ops, added[k]);
               op.Some? && op.value.Add? && users[k] == User(added[k], op.value.ip, op.value.port, op.value.now))
    ensures Distinct(AddedNames(ops))
  {
    if ops != [] {
      var rest, op := ops[..|ops| - 1], ops[|ops| - 1];
      UsersAreTheMap(local, rest);
      var before := Run(local, rest);
      match op
      case Add(name, _, _, _) =>
        assert FindUser(before.users, name).Some? ==> name in AddedNames(rest);
        if |before.users| < MAX_USERS && name in AddedNames(rest) {
          var k :| 0 <= k < |AddedNames(rest)| && AddedNames(rest)[k] == name;
          assert before.users[k].username == name;
        }
      case _ => assert Run(local, ops).users == before.users;
    }
  }

  /** `find_user` knows a name if and only if it is among the first hundred added, and returns its latest address. */
  lemma FindUserIsLookup(local: string, ops: seq<Op>, name: string)
    ensures var users, added := Run(local, ops).users, AddedNames(ops);
      var found := FindUser(users, name);
      && (found.Some? <==> exists k :: 0 <= k < |added| && k < MAX_USERS && added[k] == name)
      && (found.Some? ==>
            && LatestAdd(ops, name).Some? && LatestAdd(ops, name).value.Add?
            && users[found.value].ip == LatestAdd(ops, name).value.ip
            && users[found.value].port == LatestAdd(ops, name).value.port)
  {
    UsersAreTheMap(local, ops);
    var users, added := Run(local, ops).users, AddedNames(ops);
    if k :| 0 <= k < |added| && k < MAX_USERS && added[k] == name {
      assert users[k].username == name;
    }
  }

  lemma ApplyKeepsMember(net: Net, op: Op, i: nat, j: nat)
    requires i < |net.groups| && j < |net.groups[i].members|
    ensures var r := Apply(net, op).0;
      && i < |r.groups| && j < |r.groups[i].members|
      && r.groups[i].group_name == net.groups[i].group_name
      && r.groups[i].members[j] == net.groups[i].members[j]
  {}

  /** Groups and members are never lost: later registries hold them at the same places. */
  lemma {:induction false} GroupsGrow(local: string, ops: seq<Op>, n: nat, i: nat, j: nat)
    requires n <= |ops|
    requires i < |Run(local, ops[..n]).groups| && j < |Run(local, ops[..n]).groups[i].members|
    ensures i < |Run(local, ops).groups| && j < |Run(local, ops).groups[i].members|
    ensures Run(local, ops).groups[i].group_name == Run(local, ops[..n]).groups[i].group_name
    ensures Run(local, ops).groups[i].members[j] == Run(local, ops[..n]).groups[i].members[j]
    decreases |ops|
  {
    if n == |ops| {
      assert ops[..n] == ops;
    } else {
      var rest := ops[..|ops| - 1];
      assert rest[..n] == ops[..n];
      GroupsGrow(local, rest, n, i, j);
      ApplyKeepsMember(Run(local, rest), ops[|ops| - 1], i, j);
    }
  }

  // ---------------------------------------------------------------------------------------------
  // Group messages
  // ---------------------------------------------------------------------------------------------

  /** The users a group message is sent to: the known members other than the local user, in member order. */
  function Recipients(users: seq<User>, local: string, members: seq<string>): seq<User> {
    if members == [] then []
    else
      var rest := Recipients(users, local, members[..|members| - 1]);
      var m := members[|members| - 1];
      if m == local || FindUser(users, m).None? then rest else rest + [users[FindUser(users, m).value]]
  }

  /** Those of the users a connection can be made to, in order. */
  function Reached(users: seq<User>, reachable: User -> bool): seq<User> {
    if users == [] then []
    else
      Reached(users[..|users| - 1], reachable) + if reachable(users[|users| - 1]) then [users[|users| - 1]] else []
  }

  lemma {:induction false} RecipientsAreMembers(users: seq<User>, local: string, members: seq<string>)
    ensures forall k :: 0 <= k < |Recipients(users, local, members)| ==>
      var u := Recipients(users, local, members)[k];
      u.username in members && u.username != local && FindUser(users, u.username).Some?
        && users[FindUser(users, u.username).value] == u
  {
    if members != [] {
      RecipientsAreMembers(users, local, members[..|members| - 1]);
    }
  }

  ghost predicate DistinctUsers(r: seq<User>) {
    forall i, j :: 0 <= i < j < |r| ==> r[i].username != r[j].username
  }

  lemma {:induction false} RecipientsAreDistinct(users: seq<User>, local: string, members: seq<string>)
    requires Distinct(members)
    ensures DistinctUsers(Recipients(users, local, members))
  {
    if members != [] {
      var rest := members[..|members| - 1];
      RecipientsAreDistinct(users, local, rest);
      RecipientsAreMembers(users, local, rest);
    }
  }

  predicate IsRecipient(r: seq<User>, name: string) {
    exists k :: 0 <= k < |r| && r[k].username == name
  }

  lemma {:induction false} RecipientIff(users: seq<User>, local: string, members: seq<string>, name: string)
    ensures IsRecipient(Recipients(users, local, members), name)
      <==> name in members && name != local && FindUser(users, name).Some?
  {
    if members != [] {
      var rest, m := members[..|members| - 1], members[|members| - 1];
      RecipientIff(users, local, rest, name);
      var before, r := Recipients(users, local, rest), Recipients(users, local, members);
      assert members == rest + [m];
      if m != local && FindUser(users, m).Some? {
        assert r == before + [users[FindUser(users, m).value]];
        assert IsRecipient(r, name) <==> IsRecipient(before, name) || m == name by {
          OneMoreRecipient(before, users[FindUser(users, m).value], name);
        }
      }
    }
  }

  lemma OneMoreRecipient(r: seq<User>, u: User, name: string)
    ensures IsRecipient(r + [u], name) <==> IsRecipient(r, name) || u.username == name
  {
    var r1 := r + [u];
    assert r1[|r|] == u;
    if k :| 0 <= k < |r| && r[k].username == name {
      assert r1[k].username == name;
    }
  }

  /** Every known member other than the local user is a recipient, exactly once; nobody else is one. */
  lemma ExactlyOnce(users: seq<User>, local: string, members: seq<string>, name: string)
    requires Distinct(members)
    ensures var r := Recipients(users, local, members);
      && DistinctUsers(r)
      && (IsRecipient(r, name) <==> name in members && name != local && FindUser(users, name).Some?)
  {
    RecipientsAreDistinct(users, local, members);
    RecipientIff(users, local, members, name);
  }

  /** In every reachable registry a message to any group reaches each of its recipients exactly once. */
  lemma GroupSendExactlyOnce(local: string, ops: seq<Op>, i: nat, name: string)
    requires i < |Run(local, ops).groups|
    ensures var net := Run(local, ops);
      var r := Recipients(net.users, local, net.groups[i].members);
      && DistinctUsers(r)
      && (IsRecipient(r, name) <==> name in net.groups[i].members && name != local && FindUser(net.users, name).Some?)
  {
    RunIsGood(local, ops);
    var net := Run(local, ops);
    ExactlyOnce(net.users, local, net.groups[i].members, name);
  }

  // ---------------------------------------------------------------------------------------------
  // The C structure
  // ---------------------------------------------------------------------------------------------

  class P2PNetwork {
    const users: array<User>
    const groups: array<Group>
    var user_count: nat
    var group_count: nat
    const local_username: string

    ghost predicate InBounds()
      reads this
    {
      && users.Length == MAX_USERS && groups.Length == MAX_USERS
      && user_count <= MAX_USERS && group_count <= MAX_USERS
    }

    ghost predicate Valid()
      reads this, users, groups
    {
      InBounds() && Good(State())
    }

    ghost function State(): Net
      requires InBounds()
      reads this, users, groups
    {
      Net(users[..user_count], groups[..group_count], local_username)
    }

    constructor (username: string)
      requires |username| <= MAX_NAME
      ensures Valid() && fresh(users) && fresh(groups) && State() == Run(username, [])
    {
      RunIsGood(username, []);
      users := new User[MAX_USERS](_ => User("", "", 0, 0));
      groups := new Group[MAX_USERS](_ => Group("", []));
      user_count, group_count, local_username := 0, 0, username;
    }

    /** `find_user`: the index of the entry it points to. */
    method Find(username: string) returns (r: Option<nat>)
      requires Valid()
      ensures r == FindUser(State().users, username)
      ensures r.Some? ==> r.value < user_count
    {
      for i := 0 to user_count
        invariant forall k :: 0 <= k < i ==> users[k].username != username
      {
        if users[i].username == username {
          assert State().users[i].username == username;
          return Some(i);
        }
      }
      return None;
    }

    /** `add_user`.  The fields are fixed arrays: longer texts are undefined behaviour of `strcpy`. */
    method AddUserEntry(username: string, ip: string, port: int, now: int) returns (ret: int)
      requires Valid() && |username| <= MAX_NAME && |ip| <= MAX_IP
      modifies this`user_count, users
      ensures Valid() && (State(), ret) == AddUser(old(State()), username, ip, port, now)
    {
      ghost var was := State();
      ApplyKeepsGood(was, Add(username, ip, port, now));
      for i := 0 to user_count
        invariant State() == was && user_count == old(user_count)
        invariant forall k :: 0 <= k < i ==> users[k].username != username
      {
        if users[i].username == username {
          assert was.users[i].username == username;
          users[i] := users[i].(ip := ip, port := port, last_seen := now);
          assert State().users == was.users[i := User(username, ip, port, now)];
          return 0;
        }
      }
      if user_count < MAX_USERS {
        users[user_count] := User(username, ip, port, now);
        user_count := user_count + 1;
        assert State().users == was.users + [User(username, ip, port, now)];
        return 0;
      }
      return -1;
    }

    /** `create_group`. */
    method CreateGroupEntry(name: string) returns (ret: int)
      requires Valid() && |name| <= MAX_NAME
      modifies this`group_count, groups
      ensures Valid() && (State(), ret) == CreateGroup(old(State()), name)
    {
      ghost var was := State();
      ApplyKeepsGood(was, Create(name));
      for i := 0 to group_count
        invariant State() == was && group_count == old(group_count)
        invariant forall k :: 0 <= k < i ==> groups[k].group_name != name
      {
        if groups[i].group_name == name {
          assert was.groups[i].group_name == name;
          return -1;
        }
      }
      if group_count < MAX_USERS {
        groups[group_count] := Group(name, [local_username]);
        group_count := group_count + 1;
        assert State().groups == was.groups + [Group(name, [local_username])];
        return 0;
      }
      return -1;
    }

    /** `join_group`: the search goes on behind a full group, which is no different when names are distinct. */
    method JoinGroupEntry(name: string, user: string) returns (ret: int)
      requires Valid() && |user| <= MAX_NAME
      modifies groups
      ensures Valid() && (State(), ret) == JoinGroup(old(State()), name, user)
    {
      ghost var was := State();
      ApplyKeepsGood(was, Join(name, user));
      for i := 0 to group_count
        invariant State() == was
        invariant forall k :: 0 <= k < i && groups[k].group_name == name ==>
          |groups[k].members| >= MAX_USERS && user !in groups[k].members
      {
        if groups[i].group_name == name {
          assert was.groups[i].group_name == name;
          for j := 0 to |groups[i].members|
            invariant State() == was
            invariant user !in groups[i].members[..j]
          {
            if groups[i].members[j] == user {
              return -1;
            }
          }
          assert groups[i].members[..|groups[i].members|] == groups[i].members;
          if |groups[i].members| < MAX_USERS {
            groups[i] := groups[i].(members := groups[i].members + [user]);
            assert State().groups == was.groups[i := groups[i]];
            return 0;
          }
        }
      }
      return -1;
    }

    /**
     `send_group_message`: `cipher_len` is the result of the encryption, and `reachable` says whom a connection
     can be made to.  `attempts` are the connections tried, `delivered` those that got the message.
     */
    method SendGroupMessage(group_name: string, cipher_len: int, reachable: User -> bool)
      returns (ret: int, attempts: seq<User>, delivered: seq<User>)
      requires Valid()
      ensures var g := FindGroup(State().groups, group_name);
        if g.Some? && cipher_len > 0
          then ret == 0 && attempts == Recipients(State().users, local_username, State().groups[g.value].members)
          else ret == -1 && attempts == []
      ensures delivered == Reached(attempts, reachable)
    {
      attempts, delivered := [], [];
      for i := 0 to group_count
        invariant attempts == delivered == []
        invariant forall k :: 0 <= k < i ==> groups[k].group_name != group_name
      {
        if groups[i].group_name == group_name {
          assert State().groups[i].group_name == group_name;
          if cipher_len <= 0 {
            return -1, [], [];
          }
          var members := groups[i].members;
          for j := 0 to |members|
            invariant attempts == Recipients(State().users, local_username, members[..j])
            invariant delivered == Reached(attempts, reachable)
          {
            assert members[..j + 1][..j] == members[..j];
            if members[j] == local_username {
              continue;
            }
            var u := Find(members[j]);
            if u.None? {
              continue;
            }
            assert (attempts + [users[u.value]])[..|attempts|] == attempts;
            attempts := attempts + [users[u.value]];
            if reachable(users[u.value]) {
              delivered := delivered + [users[u.value]];
            }
          }
          assert members[..|members|] == members;
          return 0, attempts, delivered;
        }
      }
      return -1, [], [];
    }
  }
}
