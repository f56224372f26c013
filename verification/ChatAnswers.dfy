/**
 What a client that is not logged in is answered: for every admitted turn, whatever bytes it sent, its next event and
 the change of the accounts, with the exact condition of every refusal.
 */
module ChatAnswers {
  import opened Common
  import opened CText
  import opened JsonLines
  import opened LineStream
  import opened ChatServer
  import opened ChatInvariants
  import opened ChatRuns
  import opened ChatTheorems
  import opened ChatLines
  import ChatLogins
  import RateLimit
  import Tokens

  // ---------------------------------------------------------------------------------------------
  // The next event
  // ---------------------------------------------------------------------------------------------

  /** What the stream of `c` reports next after what it reported in `s`, if anything was added. */
  function NextEvent(s: Server, r: Server, c: Conn): Option<Event> {
    var was, now := Events(Sent(s, c)), Events(Sent(r, c));
    if |was| < |now| && now[..|was|] == was then Some(now[|was|]) else None
  }

  /** Nothing changed but accounts, the asking slot's clock and limiter, and the stream of `c`, by at most one event. */
  ghost predicate OnlyAnswers(s: Server, r: Server, i: nat, now: int, c: Conn) {
    && i < |s.slots| && r == AfterTouch(s, i, now).(users := r.users, out := r.out)
    && (r.out == s.out || r.out == s.out[c := Sent(r, c)])
    && |Events(Sent(r, c))| <= |Events(Sent(s, c))| + 1
  }

  /** The admitted turn of a client that is not logged in. */
  ghost predicate MayAsk(s: Server, i: nat, c: Conn, raw: string, env: Env) {
    i < |s.slots| && Admitted(s, i, raw, env) && s.slots[i].ssl == Some(c) && !s.slots[i].authorized
  }

  lemma WrittenIsNext(s: Server, s1: Server, c: Conn, pairs: seq<Pair>)
    requires s1.out == s.out && '\\' !in Sent(s, c) && StreamState(Start, Sent(s, c)) == Start
    requires Typed(pairs) && PlainPairs(pairs)
    ensures var r := Write(s1, c, Line(pairs));
      && NextEvent(s, r, c) == Some(EventOf(Put(map[], pairs)))
      && |Events(Sent(r, c))| == |Events(Sent(s, c))| + 1 && r.out == s.out[c := Sent(r, c)]
  {
    hide Line, Events, StreamState, EventOf, Put, PlainPairs, Typed;
    PairsAreSome(pairs);
    LineSeen(Sent(s, c), pairs);
    assert Sent(Write(s1, c, Line(pairs)), c) == Sent(s, c) + Line(pairs);
  }

  lemma SameOutIsNothing(s: Server, r: Server, c: Conn)
    requires r.out == s.out
    ensures NextEvent(s, r, c) == None && Sent(r, c) == Sent(s, c)
  {}

  /** A client that is not logged in is at the start of a line. */
  lemma AtStart(s: Server, i: nat, c: Conn)
    requires Inv(s) && i < |s.slots| && Live(s.slots[i]) && !s.slots[i].authorized && s.slots[i].ssl == Some(c)
    ensures StreamState(Start, Sent(s, c)) == Start && '\\' !in Sent(s, c)
  {
    hide Honest, StreamState;
    assert GoodSlot(s, s.slots[i]);
    SentIsGood(s, c);
  }

  /** The turn hands its command over. */
  lemma AskingTurn(s: Server, i: nat, c: Conn, raw: string, env: Env)
    requires MayAsk(s, i, c, raw, env)
    ensures Input(s, i, raw, env) ==
      if CommandOf(raw) == "" then AfterTouch(s, i, env.now) else Unauthorized(AfterTouch(s, i, env.now), i, CommandOf(raw), env)
  {
    hide Unauthorized, CommandOf, RateLimit.Admit;
  }

  // ---------------------------------------------------------------------------------------------
  // Registration
  // ---------------------------------------------------------------------------------------------

  lemma RegisterRefusalIsRead(message: string)
    requires Plain(message)
    ensures var pairs := ResultPairs("register", message);
      Typed(pairs) && PlainPairs(pairs) && EventOf(Put(map[], pairs)) == RegisterFailed(message)
  {
    RegisterRefusalsArePlain();
    var pairs := ResultPairs("register", message);
    RefusalPairsArePlain("register", message);
    hide Plain;
    PutAt(map[], pairs, 0);
    PutAt(map[], pairs, 1);
    PutAt(map[], pairs, 2);
  }

  lemma RefusalPairsArePlain(command: string, message: string)
    requires Plain(command) && Plain(message)
    ensures PlainPairs(ResultPairs(command, message))
  {}

  /** The nick is known to be taken: the query went through and found it. */
  predicate SeenTaken(s: Server, nick: string, env: Env) {
    env.query && Lower(nick) in s.users
  }

  /** The table takes the account. */
  ghost predicate Stores(s: Server, nick: string, env: Env) {
    env.random.Some? && env.insert && Lower(nick) !in s.users && !TokenUsed(s.users, Tokens.Token(env.random.value))
  }

  lemma RefusedRegistration(s: Server, s1: Server, i: nat, c: Conn, message: string)
    requires Inv(s) && i < |s.slots| && Live(s.slots[i]) && !s.slots[i].authorized && s.slots[i].ssl == Some(c)
    requires i < |s1.slots| && s1.slots[i].ssl == Some(c) && s1.out == s.out && Plain(message)
    ensures var r := WriteSlot(s1, i, Line(ResultPairs("register", message)));
      && NextEvent(s, r, c) == Some(RegisterFailed(message))
      && |Events(Sent(r, c))| == |Events(Sent(s, c))| + 1 && r.out == s.out[c := Sent(r, c)]
  {
    hide NextEvent, Line, Inv, Put, EventOf, Plain, StreamState, Events, Sent;
    AtStart(s, i, c);
    RegisterRefusalIsRead(message);
    WrittenIsNext(s, s1, c, ResultPairs("register", message));
  }

  /** What registration does in each case; `command` is the command of the turn. */
  lemma RegisterCases(s: Server, i: nat, command: string, env: Env)
    requires i < |s.slots| && "/register" <= command
    ensures var nick, r := ScanWord(SkipSpaces(command[9..]), 31), Register(s, i, command, env);
      && (!ValidNick(nick) ==> r == WriteSlot(s, i, Line(ResultPairs("register", "Invalid nickname"))))
      && (ValidNick(nick) && SeenTaken(s, nick, env) ==>
            r == WriteSlot(s, i, Line(ResultPairs("register", "Nickname already exists"))))
      && (ValidNick(nick) && !SeenTaken(s, nick, env) && env.random.None? ==> r == s)
      && (ValidNick(nick) && !SeenTaken(s, nick, env) && env.random.Some? && !Stores(s, nick, env) ==>
            r == WriteSlot(s, i, Line(ResultPairs("register", "Database error"))))
  {
    hide ScanWord, SkipSpaces, ValidNick, Line, WriteSlot, TokenUsed;
  }

  /**
   The answer to a registration line, whatever bytes it holds.  The client's next event is a success if and only if
   the account was added, with the very nick and token; each refusal comes exactly under its condition; and nothing is
   answered exactly when there are no random bytes for a nick that could be registered.
   */
  lemma RegistrationAnswered(s: Server, i: nat, c: Conn, raw: string, env: Env)
    requires Inv(s) && MayAsk(s, i, c, raw, env) && "/register" <= CommandOf(raw)
    ensures var nick, r := RegisterNick(raw), Input(s, i, raw, env);
      var e := NextEvent(s, r, c);
      && (e == Some(RegisterFailed("Invalid nickname")) <==> !ValidNick(nick))
      && (e == Some(RegisterFailed("Nickname already exists")) <==> ValidNick(nick) && SeenTaken(s, nick, env))
      && (e == Some(RegisterFailed("Database error")) <==>
            ValidNick(nick) && !SeenTaken(s, nick, env) && env.random.Some? && !Stores(s, nick, env))
      && (e == None <==> ValidNick(nick) && !SeenTaken(s, nick, env) && env.random.None?)
      && (forall n, t :: e == Some(RegisterOk(n, t)) <==> AccountAdded(s, r, n, t, s.slots[i].security_level))
      && OnlyAnswers(s, r, i, env.now, c)
  {
    hide Events, Sent, Input, CommandOf, ValidNick, RegisterNick, Inv, Line, NextEvent, TokenUsed, ScanWord, SkipSpaces, Register, StreamState, Plain;
    var nick, s1, r := RegisterNick(raw), AfterTouch(s, i, env.now), Input(s, i, raw, env);
    AskingTurn(s, i, c, raw, env);
    assert CommandOf(raw) != "";
    assert r == Register(s1, i, CommandOf(raw), env);
    RegisterCases(s1, i, CommandOf(raw), env);
    RegisterRefusalsArePlain();
    assert nick == ScanWord(SkipSpaces(CommandOf(raw)[9..]), 31) by { RegisterNickIs(raw); }
    RefusedRegistration(s, s1, i, c, "Invalid nickname");
    RefusedRegistration(s, s1, i, c, "Nickname already exists");
    RefusedRegistration(s, s1, i, c, "Database error");
    SameOutIsNothing(s, s1, c);
    InputUsers(s, i, raw, env);
    if ValidNick(nick) && !SeenTaken(s, nick, env) && env.random.Some? && Stores(s, nick, env) {
      RegisteredIsNext(s, i, c, raw, env);
      AddedIs(s, r, nick, Tokens.Token(env.random.value), s.slots[i].security_level);
    } else {
      NothingAdded(s, r, s.slots[i].security_level);
    }
  }

  lemma RegisterNickIs(raw: string)
    requires "/register" <= CommandOf(raw)
    ensures RegisterNick(raw) == ScanWord(SkipSpaces(CommandOf(raw)[9..]), 31)
  {}

  /** Between two states exactly the account with this nick, token and level was added. */
  ghost predicate AccountAdded(s: Server, r: Server, nick: string, token: string, level: nat) {
    Lower(nick) !in s.users && r.users == s.users[Lower(nick) := Account(nick, token, level)]
  }

  lemma AddedIs(s: Server, r: Server, nick: string, token: string, level: nat)
    requires AccountAdded(s, r, nick, token, level)
    ensures forall n, t :: AccountAdded(s, r, n, t, level) <==> n == nick && t == token
  {
    forall n, t | AccountAdded(s, r, n, t, level)
      ensures n == nick && t == token
    {
      assert Lower(n) in r.users;
      assert Lower(n) == Lower(nick);
      assert r.users[Lower(n)] == Account(n, t, level);
    }
  }

  lemma NothingAdded(s: Server, r: Server, level: nat)
    requires r.users == s.users
    ensures forall n, t :: !AccountAdded(s, r, n, t, level)
  {
    forall n, t
      ensures !AccountAdded(s, r, n, t, level)
    {
      assert Lower(n) !in s.users ==> Lower(n) !in r.users;
    }
  }

  lemma RegisteredIsNext(s: Server, i: nat, c: Conn, raw: string, env: Env)
    requires Inv(s) && MayAsk(s, i, c, raw, env) && "/register" <= CommandOf(raw)
    requires ValidNick(RegisterNick(raw)) && Stores(s, RegisterNick(raw), env)
    ensures var nick, token := RegisterNick(raw), Tokens.Token(env.random.value);
      var r := Input(s, i, raw, env);
      && NextEvent(s, r, c) == Some(RegisterOk(nick, token))
      && AccountAdded(s, r, nick, token, s.slots[i].security_level)
      && OnlyAnswers(s, r, i, env.now, c)
  {
    hide Events, Sent, CommandOf, ValidNick, RegisterNick, Inv, Line, NextEvent, TokenUsed, Register, StreamState, Plain, Unauthorized, Input;
    var nick, token, level, s1 := RegisterNick(raw), Tokens.Token(env.random.value), s.slots[i].security_level, AfterTouch(s, i, env.now);
    AskingTurn(s, i, c, raw, env);
    assert CommandOf(raw) != "";
    assert Input(s, i, raw, env) == Register(s1, i, CommandOf(raw), env) by { RegisterGoes(s1, i, CommandOf(raw), env); }
    RegisterUsers(s1, i, raw, env);
    ValidIsPlain(nick);
    TokenIsPlain(env.random.value);
    ChatLogins.RegisteredIsRead(nick, token, level);
    AtStart(s, i, c);
    WrittenIsNext(s, s1.(users := s1.users[Lower(nick) := Account(nick, token, level)]), c, RegisteredPairs(nick, token, level));
  }

  lemma RegisterGoes(s: Server, i: nat, command: string, env: Env)
    requires i < |s.slots| && s.slots[i].ssl.Some? && "/register" <= command
    ensures Unauthorized(s, i, command, env) == Register(s, i, command, env)
  {
    hide Register;
  }

  /** The confirmations as a JSON reader takes them: level and session are the printed numbers. */
  lemma ConfirmationsAreRead(nick: string, token: string, level: nat, session: nat)
    requires Plain(nick) && Plain(token)
    ensures var s := Read(Start, Body(RegisteredPairs(nick, token, level)));
      && s.Done? && "security_level" in s.f && s.f["security_level"] == JNum(Decimal(level))
      && "nick" in s.f && s.f["nick"] == JStr(nick) && "token" in s.f && s.f["token"] == JStr(token)
    ensures var s := Read(Start, Body(LoginPairs(nick, session)));
      && s.Done? && "session_id" in s.f && s.f["session_id"] == JStr(Decimal(session))
      && "nick" in s.f && s.f["nick"] == JStr(nick)
  {
    RegisteredFields(nick, token, level);
    LoginFields(nick, session);
  }

  lemma RegisteredFields(nick: string, token: string, level: nat)
    requires Plain(nick) && Plain(token)
    ensures var s := Read(Start, Body(RegisteredPairs(nick, token, level)));
      && s.Done? && "security_level" in s.f && s.f["security_level"] == JNum(Decimal(level))
      && "nick" in s.f && s.f["nick"] == JStr(nick) && "token" in s.f && s.f["token"] == JStr(token)
  {
    hide Read, Plain, PlainPairs;
    var pairs := RegisteredPairs(nick, token, level);
    ChatLogins.RegisteredArePlain(nick, token, level);
    LineRoundTrip(pairs);
    PutAt(map[], pairs, 2);
    PutAt(map[], pairs, 3);
    PutAt(map[], pairs, 4);
  }

  lemma LoginFields(nick: string, session: nat)
    requires Plain(nick)
    ensures var s := Read(Start, Body(LoginPairs(nick, session)));
      && s.Done? && "session_id" in s.f && s.f["session_id"] == JStr(Decimal(session))
      && "nick" in s.f && s.f["nick"] == JStr(nick)
  {
    hide Read, Plain, PlainPairs;
    var pairs := LoginPairs(nick, session);
    LoginPairsRead(nick, session);
    LineRoundTrip(pairs);
    PutAt(map[], pairs, 2);
    PutAt(map[], pairs, 3);
  }

  // ---------------------------------------------------------------------------------------------
  // Login
  // ---------------------------------------------------------------------------------------------

  lemma LoginGoes(s: Server, i: nat, command: string, env: Env)
    requires i < |s.slots| && s.slots[i].ssl.Some? && "/login" <= command
    ensures command != "" && Unauthorized(s, i, command, env) == Login(s, i, command, env)
  {
    hide Login;
    assert command[1] == 'l';
  }

  /**
   The answer to a login line, whatever bytes it holds: a success for the presented nick if and only if the login is
   granted, a refusal if and only if both words are there but are not accepted, and nothing if one is missing.
   */
  lemma LoginAnswered(s: Server, i: nat, c: Conn, raw: string, env: Env)
    requires Inv(s) && MayAsk(s, i, c, raw, env) && "/login" <= CommandOf(raw)
    ensures c !in s.granted
    ensures var (nick, token) := LoginWords(CommandOf(raw));
      var r := Input(s, i, raw, env);
      var e, accepted := NextEvent(s, r, c), env.query && Accepts(s.users, nick, token);
      && (e == None <==> nick == "" || token == "")
      && (e == Some(LoginFailed("Invalid credentials")) <==> nick != "" && token != "" && !accepted)
      && (forall n :: e == Some(LoginOk(n)) <==> GrantAdded(s, r, c, n))
      && (GrantAdded(s, r, c, nick) <==> nick != "" && token != "" && accepted)
  {
    hide Input, CommandOf, LoginWords, Inv, Line, NextEvent, StreamState, Plain, Grant, Accepts;
    var (nick, token) := LoginWords(CommandOf(raw));
    var s1 := AfterTouch(s, i, env.now);
    AskingTurn(s, i, c, raw, env);
    assert GoodSlot(s, s.slots[i]) by { InvParts(s, i); }
    LoginGoes(s1, i, CommandOf(raw), env);
    InputGrants(s, i, raw, env);
    if nick == "" || token == "" {
      SameOutIsNothing(s, s1, c);
      NoNewGrant(s, Input(s, i, raw, env), c);
    } else if env.query && Accepts(s.users, nick, token) {
      GrantIsNext(s, i, c, nick, token, env.now);
      NewGrant(s, Input(s, i, raw, env), c, nick);
    } else {
      LoginRefusedIsNext(s, s1, i, c);
      NoNewGrant(s, Input(s, i, raw, env), c);
    }
  }

  /** Between two states a login was granted on connection `c`, as `nick`, and no other. */
  ghost predicate GrantAdded(s: Server, r: Server, c: Conn, nick: string) {
    c !in s.granted && r.granted == s.granted[c := nick]
  }

  lemma NewGrant(s: Server, r: Server, c: Conn, nick: string)
    requires GrantAdded(s, r, c, nick)
    ensures forall n :: GrantAdded(s, r, c, n) <==> n == nick
  {
    forall n | GrantAdded(s, r, c, n)
      ensures n == nick
    {
      assert r.granted[c] == n;
    }
  }

  lemma NoNewGrant(s: Server, r: Server, c: Conn)
    requires c !in s.granted && r.granted == s.granted
    ensures forall n :: !GrantAdded(s, r, c, n)
  {
    forall n
      ensures !GrantAdded(s, r, c, n)
    {
      assert c !in r.granted;
    }
  }

  lemma LoginRefusedIsNext(s: Server, s1: Server, i: nat, c: Conn)
    requires Inv(s) && i < |s.slots| && Live(s.slots[i]) && !s.slots[i].authorized && s.slots[i].ssl == Some(c)
    requires i < |s1.slots| && s1.slots[i].ssl == Some(c) && s1.out == s.out
    ensures NextEvent(s, WriteSlot(s1, i, Line(ResultPairs("login", "Invalid credentials"))), c)
      == Some(LoginFailed("Invalid credentials"))
  {
    hide NextEvent, Line, Inv, Put, EventOf, Plain, StreamState;
    AtStart(s, i, c);
    ChatLogins.RefusalIsPlain();
    ChatLogins.RefusalIsRead("Invalid credentials");
    WrittenIsNext(s, s1, c, ResultPairs("login", "Invalid credentials"));
  }

  lemma GrantIsNext(s: Server, i: nat, c: Conn, nick: string, token: string, now: int)
    requires Inv(s) && i < |s.slots| && Live(s.slots[i]) && !s.slots[i].authorized && s.slots[i].ssl == Some(c)
    requires Accepts(s.users, nick, token)
    ensures var s1 := AfterTouch(s, i, now);
      NextEvent(s, Grant(s1, i, nick, token, s.users[Lower(nick)].security_level), c) == Some(LoginOk(nick))
  {
    hide Inv, Events, Grant, StreamState, ValidNick, Lower, RateLimit.Admit;
    var s1, level := AfterTouch(s, i, now), s.users[Lower(nick)].security_level;
    AtStart(s, i, c);
    AcceptedIsValid(s, nick, token);
    ChatLogins.GrantIsSeen(s1, i, c, nick, token, level);
  }

  lemma AcceptedIsValid(s: Server, nick: string, token: string)
    requires Inv(s) && Accepts(s.users, nick, token)
    ensures ValidNick(nick)
  {
    assert GoodAccount(Lower(nick), s.users[Lower(nick)]);
    SameCaseIsValid(s.users[Lower(nick)].nick, nick);
  }

  // ---------------------------------------------------------------------------------------------
  // Help, and everything else
  // ---------------------------------------------------------------------------------------------

  lemma HelpIsRead()
    ensures Typed(HelpPairs(HELP_COMMANDS)) && PlainPairs(HelpPairs(HELP_COMMANDS))
    ensures EventOf(Put(map[], HelpPairs(HELP_COMMANDS))) == Help(HELP_COMMANDS)
  {
    var pairs := HelpPairs(HELP_COMMANDS);
    HelpCommandsArePlain();
    PutAt(map[], pairs, 0);
    PutAt(map[], pairs, 1);
  }

  /** The answer to `/help` lists the five commands. */
  lemma HelpAnswered(s: Server, i: nat, c: Conn, raw: string, env: Env)
    requires Inv(s) && MayAsk(s, i, c, raw, env) && "/help" <= CommandOf(raw)
    ensures NextEvent(s, Input(s, i, raw, env), c) == Some(Help([
      "/register <nick> - Register new account",
      "/login <nick> <token> - Login to account",
      "/msg <user> <text> - Send private message",
      "/online - List online users",
      "/help - This help message"]))
    ensures OnlyAnswers(s, Input(s, i, raw, env), i, env.now, c) && Input(s, i, raw, env).users == s.users
  {
    hide Events, Sent, Input, CommandOf, Inv, Line, NextEvent, StreamState, Plain, EventOf, Put, HelpPairs;
    var s1 := AfterTouch(s, i, env.now);
    AskingTurn(s, i, c, raw, env);
    HelpGoes(s1, i, CommandOf(raw), env);
    AtStart(s, i, c);
    HelpIsRead();
    PairsAreSome(HelpPairs(HELP_COMMANDS));
    WrittenIsNext(s, s1, c, HelpPairs(HELP_COMMANDS));
  }

  lemma HelpGoes(s: Server, i: nat, command: string, env: Env)
    requires i < |s.slots| && s.slots[i].ssl.Some? && "/help" <= command
    ensures HelpPairs(HELP_COMMANDS) != [] && command != ""
    ensures Unauthorized(s, i, command, env) == WriteSlot(s, i, Line(HelpPairs(HELP_COMMANDS)))
  {
    hide Line;
    assert command[1] == 'h';
  }

  lemma ErrorIsPlain(message: string)
    requires Plain(message)
    ensures PlainPairs(ErrorPairs(message))
  {}

  /** A line with an error message, as a JSON reader takes it; the client shows nothing for it. */
  lemma ErrorIsRead(message: string)
    requires Plain(message)
    ensures Read(Start, Body(ErrorPairs(message))) == Done(map["type" := JStr("error"), "message" := JStr(message)])
    ensures LineEvent(Body(ErrorPairs(message))) == NoEvent
  {
    hide Read;
    var pairs := ErrorPairs(message);
    ErrorIsPlain(message);
    LineRoundTrip(pairs);
    assert pairs[..1] == [pairs[0]] && pairs[0..1] + [pairs[1]] == pairs;
    PutAppend(map[], pairs[..1], pairs[1]);
    assert Put(map[], [pairs[0]]) == map["type" := JStr("error")] by { assert [pairs[0]][1..] == []; }
  }

  /** A stream got one more line, which holds exactly an error message. */
  ghost predicate ErrorLineAdded(s: Server, r: Server, c: Conn, message: string) {
    exists line :: && r.out == s.out[c := Sent(s, c) + (line + "\n")] && '\n' !in line
                   && Read(Start, line) == Done(map["type" := JStr("error"), "message" := JStr(message)])
  }

  lemma ErrorAdded(s: Server, s1: Server, c: Conn, message: string)
    requires s1.out == s.out && Plain(message)
    ensures ErrorLineAdded(s, Write(s1, c, Line(ErrorPairs(message))), c, message)
  {
    hide Read, Body, Line;
    var pairs := ErrorPairs(message);
    ErrorIsRead(message);
    LineIsBody(pairs);
    BodyClean(pairs);
  }

  /** Any other command is answered with an error and changes nothing else; a blank line is not answered. */
  lemma OtherAnswered(s: Server, i: nat, c: Conn, raw: string, env: Env)
    requires MayAsk(s, i, c, raw, env)
    requires var command := CommandOf(raw); !("/register" <= command) && !("/login" <= command) && !("/help" <= command)
    ensures var r := Input(s, i, raw, env);
      && r == AfterTouch(s, i, env.now).(out := r.out)
      && if CommandOf(raw) == "" then r.out == s.out else ErrorLineAdded(s, r, c, "Authentication required")
  {
    hide Input, CommandOf, Line, ErrorLineAdded;
    AskingTurn(s, i, c, raw, env);
    RequiredIsPlain();
    ErrorAdded(s, AfterTouch(s, i, env.now), c, "Authentication required");
  }

  lemma RequiredIsPlain()
    ensures Plain("Authentication required")
  {}

  lemma ExceededIsPlain()
    ensures Plain("Rate limit exceeded")
  {}

  /** A turn that the limiter does not admit is answered with an error, whoever sent it, and changes nothing else. */
  lemma RefusedByLimiter(s: Server, i: nat, c: Conn, raw: string, env: Env)
    requires i < |s.slots| && Live(s.slots[i]) && s.slots[i].ssl == Some(c) && raw != ""
    requires !RateLimit.Admit(s.slots[i].limit, env.now).1
    ensures var r := Input(s, i, raw, env);
      r == AfterTouch(s, i, env.now).(out := r.out) && ErrorLineAdded(s, r, c, "Rate limit exceeded")
  {
    hide CommandOf, Line, ErrorLineAdded, Authorized, Unauthorized;
    ExceededIsPlain();
    ErrorAdded(s, AfterTouch(s, i, env.now), c, "Rate limit exceeded");
  }
}
