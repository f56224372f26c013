/**
 What every run of server and clients guarantees: descriptors, connections, logins and accounts.
 */
module ChatTheorems {
  import opened Common
  import opened CText
  import opened JsonLines
  import opened LineStream
  import opened ChatServer
  import opened ChatInvariants
  import opened ChatRuns
  import RateLimit
  import Tokens

  // ---------------------------------------------------------------------------------------------
  // Descriptors
  // ---------------------------------------------------------------------------------------------

  function LiveDescriptors(slots: seq<Slot>): set<int> {
    set i | 0 <= i < |slots| && Live(slots[i]) :: slots[i].fd
  }

  /** The descriptors that are accepted and not closed are exactly those of the slots, and no two slots share one. */
  lemma DescriptorsInEveryRun(actions: seq<Action>)
    requires ValidActions(actions)
    ensures var s := Run(actions).server;
      && s.open == LiveDescriptors(s.slots)
      && forall i, j :: 0 <= i < j < |s.slots| && Live(s.slots[i]) && Live(s.slots[j]) ==> s.slots[i].fd != s.slots[j].fd
  {
    RunIsGood(actions);
    var s := Run(actions).server;
    assert DescriptorsMatch(s);
    forall fd | fd in s.open
      ensures fd in LiveDescriptors(s.slots)
    {
      var i :| 0 <= i < |s.slots| && Live(s.slots[i]) && s.slots[i].fd == fd;
    }
    forall fd | fd in LiveDescriptors(s.slots)
      ensures fd in s.open
    {}
  }

  // ---------------------------------------------------------------------------------------------
  // Connections and slots
  // ---------------------------------------------------------------------------------------------

  /** A live slot is what it was, except that it may have been authorised; or it was given to a new connection. */
  ghost predicate SlotMoves(a: Server, old_: Slot, slot: Slot) {
    Live(slot) ==>
      || (Live(old_) && slot.fd == old_.fd && slot.ssl == old_.ssl
            && (old_.authorized ==> slot.authorized && slot.nick == old_.nick))
      || (slot.ssl.Some? && slot.ssl.value >= a.next)
  }

  ghost predicate Moves(a: Server, b: Server) {
    |a.slots| == |b.slots| && forall i :: 0 <= i < |a.slots| ==> SlotMoves(a, a.slots[i], b.slots[i])
  }

  lemma UnauthorizedMoves(s: Server, i: nat, command: string, env: Env)
    requires i < |s.slots| && s.slots[i].ssl.Some? && !s.slots[i].authorized
    ensures Moves(s, Unauthorized(s, i, command, env))
  {
    hide Line, Broadcast, LoginWords;
    if !("/register" <= command) && "/login" <= command {
      var (nick, token) := LoginWords(command);
      if Accepts(s.users, nick, token) {
        GrantEffect(s, i, nick, token, s.users[Lower(nick)].security_level);
      }
    }
  }

  lemma InputMoves(s: Server, i: nat, raw: string, env: Env)
    requires i < |s.slots|
    ensures Moves(s, Input(s, i, raw, env))
  {
    hide Authorized, Unauthorized, Line;
    var slot := s.slots[i];
    if slot.fd >= 0 && slot.ssl.Some? && raw != "" {
      var s1 := s.(slots := s.slots[i := Touched(slot, env.now)]);
      var command := CommandOf(raw);
      if RateLimit.Admit(slot.limit, env.now).1 && command != "" {
        if slot.authorized {
          AuthorizedOnlyWrites(s1, i, command, env);
        } else {
          UnauthorizedMoves(s1, i, command, env);
        }
      }
    }
  }

  lemma {:induction false} SweepMoves(s: Server, now: int, n: nat)
    requires n <= |s.slots|
    ensures Moves(s, Sweep(s, now, n))
  {
    if n > 0 {
      SweepMoves(s, now, n - 1);
    }
  }

  /** The sweep closes exactly the slots that have timed out, and changes nothing else of any slot. */
  lemma {:induction false} SweepSlots(s: Server, now: int, n: nat)
    requires n <= |s.slots|
    ensures forall k :: 0 <= k < |s.slots| ==>
      Sweep(s, now, n).slots[k] == if k < n && TimedOut(s.slots[k], now) then s.slots[k].(fd := -1) else s.slots[k]
  {
    if n > 0 {
      SweepSlots(s, now, n - 1);
    }
  }

  lemma ExitMoves(s: Server, i: nat)
    requires i < |s.slots|
    ensures Moves(s, Exit(s, i))
  {
    hide Broadcast;
    BroadcastOnlyWrites(s, "System", "User " + s.slots[i].nick + " disconnected");
  }

  lemma StepMoves(s: System, a: Action)
    ensures Moves(s.server, Next(s, a).server)
  {
    hide Input, Exit, Sweep, LineEvent, Line;
    match a
    case Turn(i, raw, env) =>
      if i < |s.server.slots| {
        InputMoves(s.server, i, raw, env);
      }
    case End(i) =>
      if i < |s.server.slots| {
        ExitMoves(s.server, i);
      }
    case Timeouts(now) => SweepMoves(s.server, now, |s.server.slots|);
    case _ =>
  }

  /**
   A connection never changes its slot and never comes back, and a slot keeps the nick under which it was
   authorised for as long as it is open on that connection.
   */
  lemma {:induction false} SlotsStay(actions: seq<Action>, n: nat)
    requires ValidActions(actions) && n <= |actions|
    ensures Moves(Run(actions[..n]).server, Run(actions).server)
    decreases |actions|
  {
    if n == |actions| {
      assert actions[..n] == actions;
    } else {
      var rest := actions[..|actions| - 1];
      assert rest[..n] == actions[..n];
      SlotsStay(rest, n);
      RunGrows(rest, n);
      StepMoves(Run(rest), actions[|actions| - 1]);
    }
  }

  // ---------------------------------------------------------------------------------------------
  // Logins
  // ---------------------------------------------------------------------------------------------

  /** The handler of slot `i` takes an admitted command from a client that is not authorised. */
  ghost predicate Admitted(s: Server, i: nat, raw: string, env: Env)
    requires i < |s.slots|
  {
    var slot := s.slots[i];
    Live(slot) && slot.ssl.Some? && raw != "" && RateLimit.Admit(slot.limit, env.now).1
  }

  /** The action is a login on connection `c` with the credentials of a registered user. */
  ghost predicate LoginTurn(s: Server, a: Action, c: Conn) {
    && a.Turn? && a.slot < |s.slots| && Admitted(s, a.slot, a.raw, a.env)
    && s.slots[a.slot].ssl == Some(c) && !s.slots[a.slot].authorized && a.env.query
    && "/login" <= CommandOf(a.raw)
    && var (nick, token) := LoginWords(CommandOf(a.raw));
       nick != "" && token != "" && Accepts(s.users, nick, token)
  }

  function LoginNick(raw: string): string {
    if "/login" <= CommandOf(raw) then LoginWords(CommandOf(raw)).0 else ""
  }

  lemma UnauthorizedGrants(s: Server, i: nat, command: string, env: Env)
    requires i < |s.slots| && s.slots[i].ssl.Some? && !s.slots[i].authorized
    ensures var r := Unauthorized(s, i, command, env);
      r.granted ==
        if "/login" <= command && LoginWords(command).0 != "" && LoginWords(command).1 != "" && env.query
             && Accepts(s.users, LoginWords(command).0, LoginWords(command).1)
        then s.granted[s.slots[i].ssl.value := LoginWords(command).0]
        else s.granted
  {
    hide Line, Broadcast, LoginWords, Accepts;
    if "/login" <= command {
      assert !("/register" <= command) by { assert command[1] == 'l'; }
      var (nick, token) := LoginWords(command);
      if nick != "" && token != "" && env.query && Accepts(s.users, nick, token) {
        GrantsBySlot(s, i, nick, token);
      }
    }
  }

  lemma GrantsBySlot(s: Server, i: nat, nick: string, token: string)
    requires i < |s.slots| && s.slots[i].ssl.Some? && Accepts(s.users, nick, token)
    ensures var r := Grant(s, i, nick, token, s.users[Lower(nick)].security_level);
      r.granted == s.granted[s.slots[i].ssl.value := nick]
  {
    GrantEffect(s, i, nick, token, s.users[Lower(nick)].security_level);
  }

  lemma InputGrants(s: Server, i: nat, raw: string, env: Env)
    requires i < |s.slots|
    ensures Input(s, i, raw, env).granted ==
      if s.slots[i].ssl.Some? && LoginTurn(s, Turn(i, raw, env), s.slots[i].ssl.value)
      then s.granted[s.slots[i].ssl.value := LoginNick(raw)]
      else s.granted
  {
    hide Authorized, Unauthorized, Line, LoginWords, Accepts, CommandOf;
    var slot := s.slots[i];
    if slot.fd >= 0 && slot.ssl.Some? && raw != "" {
      var s1 := s.(slots := s.slots[i := Touched(slot, env.now)]);
      var command := CommandOf(raw);
      if RateLimit.Admit(slot.limit, env.now).1 && command != "" {
        if slot.authorized {
          AuthorizedOnlyWrites(s1, i, command, env);
        } else {
          UnauthorizedGrants(s1, i, command, env);
        }
      }
    }
  }

  /** A connection becomes logged in by a login with valid credentials on it, and in no other way. */
  lemma GrantedIff(s: System, a: Action, c: Conn)
    requires c !in s.server.granted
    ensures c in Next(s, a).server.granted <==> LoginTurn(s.server, a, c)
    ensures LoginTurn(s.server, a, c) ==> Next(s, a).server.granted[c] == LoginNick(a.raw)
  {
    hide Input, Exit, Sweep, LineEvent, Line, LoginTurn, LoginNick;
    match a
    case Turn(i, raw, env) => TurnGrantedIff(s, i, raw, env, c);
    case End(i) =>
      NoLoginTurn(s.server, a, c);
      if i < |s.server.slots| {
        ExitGrants(s.server, i);
      }
    case Timeouts(now) =>
      NoLoginTurn(s.server, a, c);
      SweepEffect(s.server, now, |s.server.slots|);
    case _ => NoLoginTurn(s.server, a, c);
  }

  lemma NoLoginTurn(s: Server, a: Action, c: Conn)
    requires !a.Turn?
    ensures !LoginTurn(s, a, c)
  {}

  lemma TurnGrantedIff(s: System, i: nat, raw: string, env: Env, c: Conn)
    requires c !in s.server.granted
    ensures var a := Turn(i, raw, env);
      && (c in Next(s, a).server.granted <==> LoginTurn(s.server, a, c))
      && (LoginTurn(s.server, a, c) ==> Next(s, a).server.granted[c] == LoginNick(raw))
  {
    hide Input, LoginNick, CommandOf, LoginWords, Accepts;
    if i < |s.server.slots| {
      InputGrants(s.server, i, raw, env);
    }
  }

  lemma ExitGrants(s: Server, i: nat)
    requires i < |s.slots|
    ensures Exit(s, i).granted == s.granted
  {
    BroadcastOnlyWrites(s, "System", "User " + s.slots[i].nick + " disconnected");
  }

  /** A connection that is logged in was so made by an earlier login, under the nick that login gave. */
  lemma {:induction false} GrantHasLogin(actions: seq<Action>, c: Conn) returns (m: nat)
    requires ValidActions(actions) && c in Run(actions).server.granted
    ensures m < |actions| && LoginTurn(Run(actions[..m]).server, actions[m], c)
    ensures Run(actions).server.granted[c] == LoginNick(actions[m].raw)
    decreases |actions|
  {
    hide Next, LoginTurn, LoginNick;
    var rest, a := actions[..|actions| - 1], actions[|actions| - 1];
    if c in Run(rest).server.granted {
      m := GrantHasLogin(rest, c);
      assert rest[..m] == actions[..m];
      RunIsGood(rest);
      StepGrows(Run(rest), a);
    } else {
      GrantedIff(Run(rest), a, c);
      m := |actions| - 1;
    }
  }

  /**
   Whenever a client believes to be logged in as `n`, the server has authorised exactly `n` on that
   connection, and every open slot of that connection is authorised as `n`.
   */
  lemma LoggedInIsAuthorized(actions: seq<Action>, k: nat) returns (m: nat)
    requires ValidActions(actions) && ClientOf(Run(actions), k).logged_in
    ensures var client, s := ClientOf(Run(actions), k), Run(actions).server;
      && client.conn.Some?
      && m < |actions| && LoginTurn(Run(actions[..m]).server, actions[m], client.conn.value)
      && LoginNick(actions[m].raw) == client.nick
      && ValidNick(client.nick) && Lower(client.nick) in s.users
      && forall i :: 0 <= i < |s.slots| && Live(s.slots[i]) && s.slots[i].ssl == client.conn ==>
           s.slots[i].authorized && s.slots[i].nick == client.nick
  {
    hide Next, LoginTurn, LoginNick;
    RunIsGood(actions);
    var client, s := ClientOf(Run(actions), k), Run(actions).server;
    assert GoodClient(s, client);
    m := GrantHasLogin(actions, client.conn.value);
    LoginTurnIsValid(actions, m, client.conn.value);
    RunGrows(actions, m);
    forall i | 0 <= i < |s.slots| && Live(s.slots[i]) && s.slots[i].ssl == client.conn
      ensures s.slots[i].authorized && s.slots[i].nick == client.nick
    {
      assert GoodSlot(s, s.slots[i]);
    }
  }

  /** Once a login was granted as some nick, the slot keeps exactly that nick for as long as it is open. */
  lemma GrantedNickStays(actions: seq<Action>, n: nat, c: Conn)
    requires ValidActions(actions) && n <= |actions| && c in Run(actions[..n]).server.granted
    ensures var nick, s := Run(actions[..n]).server.granted[c], Run(actions).server;
      forall i :: 0 <= i < |s.slots| && Live(s.slots[i]) && s.slots[i].ssl == Some(c) ==>
        s.slots[i].authorized && s.slots[i].nick == nick
  {
    hide Next;
    RunIsGood(actions);
    RunGrows(actions, n);
    var s := Run(actions).server;
    forall i | 0 <= i < |s.slots| && Live(s.slots[i]) && s.slots[i].ssl == Some(c)
      ensures s.slots[i].authorized && s.slots[i].nick == s.granted[c]
    {
      assert GoodSlot(s, s.slots[i]);
    }
  }

  /** A login is only ever accepted for a valid nick that is registered. */
  lemma LoginTurnIsValid(actions: seq<Action>, m: nat, c: Conn)
    requires ValidActions(actions) && m < |actions| && LoginTurn(Run(actions[..m]).server, actions[m], c)
    ensures ValidNick(LoginNick(actions[m].raw)) && Lower(LoginNick(actions[m].raw)) in Run(actions[..m]).server.users
  {
    hide Next, CommandOf, LoginWords;
    RunIsGood(actions[..m]);
    var s, nick := Run(actions[..m]).server, LoginNick(actions[m].raw);
    assert GoodAccount(Lower(nick), s.users[Lower(nick)]);
    SameCaseIsValid(s.users[Lower(nick)].nick, nick);
  }

  // ---------------------------------------------------------------------------------------------
  // Accounts
  // ---------------------------------------------------------------------------------------------

  function RegisterNick(raw: string): string {
    if "/register" <= CommandOf(raw) then ScanWord(SkipSpaces(CommandOf(raw)[9..]), 31) else ""
  }

  /** The action registers a nick that is valid and new, with a token that is new. */
  ghost predicate RegisterTurn(s: Server, a: Action) {
    && a.Turn? && a.slot < |s.slots| && Admitted(s, a.slot, a.raw, a.env) && !s.slots[a.slot].authorized
    && "/register" <= CommandOf(a.raw)
    && ValidNick(RegisterNick(a.raw)) && Lower(RegisterNick(a.raw)) !in s.users
    && a.env.random.Some? && a.env.insert && !TokenUsed(s.users, Tokens.Token(a.env.random.value))
  }

  /** What a registration adds to the table, and what it answers. */
  function NewAccount(s: Server, i: nat, raw: string, env: Env): Account
    requires i < |s.slots| && env.random.Some?
  {
    Account(RegisterNick(raw), Tokens.Token(env.random.value), s.slots[i].security_level)
  }

  lemma RegisterUsers(s: Server, i: nat, raw: string, env: Env)
    requires i < |s.slots| && "/register" <= CommandOf(raw) && env.random.Some?
    requires ValidNick(RegisterNick(raw)) && Lower(RegisterNick(raw)) !in s.users
    requires env.insert && !TokenUsed(s.users, Tokens.Token(env.random.value))
    ensures var a := NewAccount(s, i, raw, env);
      Register(s, i, CommandOf(raw), env)
        == WriteSlot(s.(users := s.users[Lower(a.nick) := a]), i, Line(RegisteredPairs(a.nick, a.token, a.security_level)))
  {
    hide Line, WriteSlot, ScanWord, SkipSpaces, ValidNick, TokenUsed;
  }

  lemma NoRegisterUsers(s: Server, i: nat, raw: string, env: Env)
    requires i < |s.slots| && "/register" <= CommandOf(raw)
    requires !(
      && ValidNick(RegisterNick(raw)) && Lower(RegisterNick(raw)) !in s.users
      && env.random.Some? && env.insert && !TokenUsed(s.users, Tokens.Token(env.random.value)))
    ensures Register(s, i, CommandOf(raw), env).users == s.users
  {
    hide Line, ScanWord, SkipSpaces, ValidNick, TokenUsed;
  }

  lemma UnauthorizedUsers(s: Server, i: nat, command: string, env: Env)
    requires i < |s.slots| && s.slots[i].ssl.Some? && !("/register" <= command)
    ensures Unauthorized(s, i, command, env).users == s.users
  {
    hide Line, Broadcast, LoginWords;
    if "/login" <= command {
      var (nick, token) := LoginWords(command);
      if Accepts(s.users, nick, token) {
        GrantEffect(s, i, nick, token, s.users[Lower(nick)].security_level);
      }
    }
  }

  lemma InputUsers(s: Server, i: nat, raw: string, env: Env)
    requires i < |s.slots|
    ensures Input(s, i, raw, env).users ==
      if RegisterTurn(s, Turn(i, raw, env))
      then s.users[Lower(RegisterNick(raw)) := NewAccount(s, i, raw, env)]
      else s.users
  {
    hide Authorized, Register, Line, Login, CommandOf, ValidNick, TokenUsed, RegisterNick, ScanWord, SkipSpaces;
    var slot := s.slots[i];
    if slot.fd >= 0 && slot.ssl.Some? && raw != "" {
      var s1 := s.(slots := s.slots[i := Touched(slot, env.now)]);
      var command := CommandOf(raw);
      if RateLimit.Admit(slot.limit, env.now).1 && command != "" {
        if slot.authorized {
          AuthorizedOnlyWrites(s1, i, command, env);
        } else if !("/register" <= command) {
          UnauthorizedUsers(s1, i, command, env);
        } else if RegisterTurn(s, Turn(i, raw, env)) {
          RegisterUsers(s1, i, raw, env);
        } else {
          NoRegisterUsers(s1, i, raw, env);
        }
      }
    }
  }

  /** The table of accounts changes by registrations and in no other way. */
  lemma UsersChangeIff(s: System, a: Action)
    ensures Next(s, a).server.users ==
      if RegisterTurn(s.server, a)
      then s.server.users[Lower(RegisterNick(a.raw)) := NewAccount(s.server, a.slot, a.raw, a.env)]
      else s.server.users
  {
    hide Input, Exit, Sweep, LineEvent, Line, RegisterNick, CommandOf, ValidNick, TokenUsed;
    match a
    case Turn(i, raw, env) =>
      if i < |s.server.slots| {
        InputUsers(s.server, i, raw, env);
      }
    case End(i) =>
      if i < |s.server.slots| {
        ExitUsers(s.server, i);
      }
    case Timeouts(now) => SweepEffect(s.server, now, |s.server.slots|);
    case _ =>
  }

  lemma ExitUsers(s: Server, i: nat)
    requires i < |s.slots|
    ensures Exit(s, i).users == s.users
  {
    BroadcastOnlyWrites(s, "System", "User " + s.slots[i].nick + " disconnected");
  }

  /**
   After a registration every later state maps the nick, in any case of letters, to the token that was issued,
   and that token is accepted for it, as is its beginning of 63 characters, which is what a login line carries.
   */
  lemma RegistrationStays(actions: seq<Action>, m: nat, nick: string)
    requires ValidActions(actions) && m < |actions| && RegisterTurn(Run(actions[..m]).server, actions[m])
    requires Lower(nick) == Lower(RegisterNick(actions[m].raw))
    ensures var users, token := Run(actions).server.users, Tokens.Token(actions[m].env.random.value);
      && Lower(nick) in users && users[Lower(nick)].token == token
      && Accepts(users, nick, token) && Accepts(users, nick, Cut(token, 63))
  {
    hide Next, RegisterTurn, RegisterNick, Good, Lower, Tokens.Token;
    UsersChangeIff(Run(actions[..m]), actions[m]);
    assert actions[..m + 1][..m] == actions[..m];
    RunGrows(actions, m + 1);
  }

  /** Nobody is ever authorised, and no login ever granted, under a nick that is not registered. */
  lemma AuthorizedIsRegistered(actions: seq<Action>)
    requires ValidActions(actions)
    ensures var s := Run(actions).server;
      && (forall i :: 0 <= i < |s.slots| && s.slots[i].authorized ==> Lower(s.slots[i].nick) in s.users)
      && (forall c :: c in s.granted ==> Lower(s.granted[c]) in s.users)
  {
    hide Next;
    RunIsGood(actions);
    var s := Run(actions).server;
    forall i | 0 <= i < |s.slots| && s.slots[i].authorized
      ensures Lower(s.slots[i].nick) in s.users
    {
      assert GoodSlot(s, s.slots[i]);
    }
  }

  // ---------------------------------------------------------------------------------------------
  // Keys
  // ---------------------------------------------------------------------------------------------

  /** What a slot without a connection may still hold; `dropped` if the earlier server's disconnect was used. */
  function LeftKeys(dropped: bool): set<Key> {
    if dropped then {PublicKey, SharedSecret, SessionToken} else {}
  }

  ghost predicate KeysGone(s: Server, dropped: bool) {
    forall i :: 0 <= i < |s.slots| ==>
      TwofishKey !in s.slots[i].keys && (s.slots[i].ssl.None? ==> s.slots[i].keys <= LeftKeys(dropped))
  }

  /** Keys and connections are those of another state. */
  ghost predicate SameKeys(s: Server, r: Server) {
    && |r.slots| == |s.slots|
    && forall i :: 0 <= i < |s.slots| ==> r.slots[i].keys == s.slots[i].keys && r.slots[i].ssl == s.slots[i].ssl
  }

  lemma UnauthorizedKeys(s: Server, i: nat, command: string, env: Env)
    requires i < |s.slots| && s.slots[i].ssl.Some?
    ensures SameKeys(s, Unauthorized(s, i, command, env))
  {
    hide Line, Broadcast, LoginWords, ValidNick, TokenUsed;
    if !("/register" <= command) && "/login" <= command {
      var (nick, token) := LoginWords(command);
      if Accepts(s.users, nick, token) {
        GrantEffect(s, i, nick, token, s.users[Lower(nick)].security_level);
      }
    }
  }

  lemma InputKeys(s: Server, i: nat, raw: string, env: Env)
    requires i < |s.slots|
    ensures SameKeys(s, Input(s, i, raw, env))
  {
    hide Authorized, Unauthorized, Line, CommandOf, RateLimit.Admit;
    var slot := s.slots[i];
    if slot.fd >= 0 && slot.ssl.Some? && raw != "" {
      var s1, command := s.(slots := s.slots[i := Touched(slot, env.now)]), CommandOf(raw);
      if RateLimit.Admit(slot.limit, env.now).1 && command != "" {
        if slot.authorized {
          AuthorizedOnlyWrites(s1, i, command, env);
        } else {
          UnauthorizedKeys(s1, i, command, env);
        }
      }
    }
  }

  lemma {:induction false} SweepKeys(s: Server, now: int, n: nat)
    requires n <= |s.slots|
    ensures SameKeys(s, Sweep(s, now, n))
  {
    if n > 0 {
      SweepKeys(s, now, n - 1);
    }
  }

  lemma ExitKeys(s: Server, i: nat, dropped: bool)
    requires i < |s.slots| && KeysGone(s, dropped)
    ensures KeysGone(Exit(s, i), dropped)
  {
    hide Broadcast;
    BroadcastOnlyWrites(s, "System", "User " + s.slots[i].nick + " disconnected");
    WipedKeys(s.slots[i].keys);
  }

  /** What the two ways to end a connection leave. */
  lemma WipedKeys(keys: set<Key>)
    requires TwofishKey !in keys
    ensures keys - CLEANUP_KEYS == {}
    ensures keys - DISCONNECT_KEYS <= {PublicKey, SharedSecret, SessionToken}
  {
    forall k | k in keys
      ensures k in CLEANUP_KEYS && (k in DISCONNECT_KEYS || k in {PublicKey, SharedSecret, SessionToken})
    {
      match k
      case SessionKey =>
      case ChachaKey =>
      case TwofishKey =>
      case PublicKey =>
      case SharedSecret =>
      case SessionToken =>
    }
  }

  lemma StepKeys(s: System, a: Action, dropped: bool)
    requires Good(s) && KeysGone(s.server, dropped) && (a.Drop? ==> dropped)
    ensures KeysGone(Next(s, a).server, dropped)
  {
    hide Inv, Input, Exit, Sweep, LineEvent, Line, FirstFree;
    match a
    case Turn(i, raw, env) =>
      if i < |s.server.slots| {
        InputKeys(s.server, i, raw, env);
      }
    case Welcome(i, session) =>
      if i < |s.server.slots| {
        assert GoodSlot(s.server, s.server.slots[i]) by { SlotIsGood(s.server, i); }
      }
    case End(i) =>
      if i < |s.server.slots| {
        ExitKeys(s.server, i, dropped);
      }
    case Timeouts(now) => SweepKeys(s.server, now, |s.server.slots|);
    case Drop(i) =>
      if i < |s.server.slots| {
        WipedKeys(s.server.slots[i].keys);
      }
    case _ =>
  }

  lemma SlotIsGood(s: Server, i: nat)
    requires Inv(s) && i < |s.slots|
    ensures GoodSlot(s, s.slots[i])
  {}

  /**
   In every run a slot without a connection holds no key material, or, if the earlier server's disconnect was used,
   none but the buffers that disconnect leaves.  A slot that only the sweep has closed keeps what it held.
   */
  lemma {:induction false} KeysInEveryRun(actions: seq<Action>, dropped: bool)
    requires ValidActions(actions) && (!dropped ==> forall k :: 0 <= k < |actions| ==> !actions[k].Drop?)
    ensures KeysGone(Run(actions).server, dropped)
  {
    hide Next;
    if actions != [] {
      var rest := actions[..|actions| - 1];
      KeysInEveryRun(rest, dropped);
      RunIsGood(rest);
      StepKeys(Run(rest), actions[|actions| - 1], dropped);
    }
  }
}
