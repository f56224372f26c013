/**
 From the registration and login lines a client sends to the accounts, the grants, and the answers it sees.
 */
module ChatLogins {
  import opened Common
  import opened CText
  import opened JsonLines
  import opened LineStream
  import opened ChatServer
  import opened ChatInvariants
  import opened ChatRuns
  import opened ChatTheorems
  import opened ChatLines
  import RateLimit
  import Tokens

  // ---------------------------------------------------------------------------------------------
  // Login lines
  // ---------------------------------------------------------------------------------------------

  /** `loginUser`. */
  function LoginCommand(nick: string, token: string): string {
    "/login " + nick + " " + token
  }

  /** A word that reaches the server unchanged. */
  ghost predicate SafeWord(w: string) {
    w != "" && forall c :: c in w ==> !Unsafe(c) && !IsSpace(c) && c != NUL
  }

  /** Sanitising changes nothing in a login line, and both words are found again, the second cut to 63 characters. */
  lemma LoginLineIsRead(nick: string, w: string)
    requires ValidNick(nick) && SafeWord(w)
    ensures CommandOf(LoginCommand(nick, w) + "\n") == LoginCommand(nick, w)
    ensures "/login" <= LoginCommand(nick, w)
    ensures LoginWords(LoginCommand(nick, w)) == (nick, Cut(w, 63))
  {
    LoginLineIsSafe(nick, w);
    CommandOfLine(LoginCommand(nick, w));
    SafeTextStays(LoginCommand(nick, w));
    NickIsSafe(nick);
    LoginArguments(nick, w);
    TwoWords(nick, w);
  }

  lemma LoginArguments(nick: string, token: string)
    ensures "/login" <= LoginCommand(nick, token)
    ensures LoginCommand(nick, token)[6..] == " " + (nick + (" " + token))
  {
    var rest := nick + (" " + token);
    assert LoginCommand(nick, token) == "/login " + rest;
    assert "/login " == "/login" + " ";
    assert LoginCommand(nick, token) == "/login" + (" " + rest);
  }

  lemma LoginLineIsSafe(nick: string, w: string)
    requires ValidNick(nick) && SafeWord(w)
    ensures forall c :: c in LoginCommand(nick, w) ==> !Unsafe(c) && c != '\n' && c != NUL
  {
    NickIsSafe(nick);
    SafeConcat("/login ", nick);
    SafeConcat("/login " + nick, " ");
    SafeConcat("/login " + nick + " ", w);
  }

  lemma TokenIsSafe(token: string)
    requires token != "" && forall c :: c in token ==> Tokens.IsTokenChar(c)
    ensures SafeWord(token)
  {
    forall c | c in token
      ensures !Unsafe(c) && !IsSpace(c) && c != NUL
    {
      assert Tokens.IsTokenChar(c);
    }
  }

  lemma TwoWords(nick: string, w: string)
    requires 0 < |nick| <= 31 && forall c :: c in nick ==> !IsSpace(c)
    requires w != "" && forall c :: c in w ==> !IsSpace(c)
    ensures var after := SkipSpaces(" " + (nick + (" " + w)));
      after == nick + (" " + w) && ScanWord(after, 31) == nick
      && ScanWord(SkipSpaces(after[|nick|..]), 63) == Cut(w, 63)
  {
    assert nick[0] in nick && w[0] in w;
    SkipOneSpace(nick + (" " + w));
    ScanWordWhole(nick, " " + w, 31);
    assert (nick + (" " + w))[|nick|..] == " " + w;
    SkipOneSpace(w);
    if |w| >= 63 {
      ScanWordLong(w, 63);
    } else {
      ScanWordWhole(w, "", 63);
      assert w + "" == w;
    }
  }

  /** An admitted turn of a client that is not logged in, while the database answers. */
  ghost predicate CanTry(s: Server, i: nat, c: Conn, env: Env) {
    && i < |s.slots| && Live(s.slots[i]) && s.slots[i].ssl == Some(c) && !s.slots[i].authorized
    && env.query && RateLimit.Admit(s.slots[i].limit, env.now).1
  }

  /** Between two states the slot was authorised, and its client told so. */
  ghost predicate NowLoggedIn(s: Server, r: Server, i: nat, c: Conn, nick: string) {
    && i < |s.slots| == |r.slots|
    && r.slots[i].authorized && r.slots[i].nick == nick
    && r.slots[i].fd == s.slots[i].fd && r.slots[i].ssl == s.slots[i].ssl == Some(c)
    && r.granted == s.granted[c := nick]
    && |Events(Sent(s, c))| < |Events(Sent(r, c))|
    && Events(Sent(r, c))[..|Events(Sent(s, c))|] == Events(Sent(s, c))
    && Events(Sent(r, c))[|Events(Sent(s, c))|] == LoginOk(nick)
  }

  /** Between two states nothing changed but the clock and limiter of the slot, and the client was told of a refusal. */
  ghost predicate LoginRefused(s: Server, r: Server, i: nat, now: int, c: Conn) {
    && Arrives(s, r, i, now, c, LoginFailed("Invalid credentials")) && r.granted == s.granted
    && Events(Sent(r, c))[|Events(Sent(s, c))|] == LoginFailed("Invalid credentials")
  }

  /**
   What a login line of a registered nick does: it is granted, under the nick as it was typed, if the word it
   presents, cut to 63 characters, is a beginning of the stored token, and refused otherwise; either way the
   client's next event says so.
   */
  lemma LoginOutcome(s: Server, i: nat, c: Conn, nick: string, w: string, env: Env)
    requires Inv(s) && CanTry(s, i, c, env) && ValidNick(nick) && Lower(nick) in s.users && SafeWord(w)
    ensures c !in s.granted
    ensures var r := Input(s, i, LoginCommand(nick, w) + "\n", env);
      if Cut(w, 63) <= s.users[Lower(nick)].token then NowLoggedIn(s, r, i, c, nick)
      else LoginRefused(s, r, i, env.now, c)
  {
    hide LoginCommand, CommandOf, LoginWords, Line, Broadcast, Events, StreamState, LoginPairs, ValidNick, Printed;
    hide Honest, GoodAccount, SafeWord, Inv;
    assert GoodSlot(s, s.slots[i]) && GoodStreams(s) by { InvParts(s, i); }
    var level := s.users[Lower(nick)].security_level;
    var s1 := AfterTouch(s, i, env.now);
    LoginLineIsRead(nick, w);
    WordsAreNotEmpty(nick, w);
    LoginIsNoRegister(nick, w);
    SentIsGood(s, c);
    if Cut(w, 63) <= s.users[Lower(nick)].token {
      assert Input(s, i, LoginCommand(nick, w) + "\n", env) == Grant(s1, i, nick, Cut(w, 63), level);
      GrantIsSeen(s1, i, c, nick, Cut(w, 63), level);
    } else {
      var pairs := ResultPairs("login", "Invalid credentials");
      assert Input(s, i, LoginCommand(nick, w) + "\n", env) == Write(s1, c, Line(pairs));
      RefusalIsPlain();
      RefusalIsRead("Invalid credentials");
      WrittenArrives(s, s1, i, env.now, c, pairs);
    }
  }

  lemma WordsAreNotEmpty(nick: string, w: string)
    requires ValidNick(nick) && SafeWord(w)
    ensures nick != "" && Cut(w, 63) != ""
  {}

  lemma LoginIsNoRegister(nick: string, w: string)
    ensures !("/register" <= LoginCommand(nick, w))
  {
    assert LoginCommand(nick, w)[1] == "/login"[1];
  }

  lemma RefusalIsRead(message: string)
    requires Plain(message)
    ensures var pairs := ResultPairs("login", message);
      Typed(pairs) && PlainPairs(pairs) && EventOf(Put(map[], pairs)) == LoginFailed(message)
  {
    var pairs := ResultPairs("login", message);
    PutAt(map[], pairs, 0);
    PutAt(map[], pairs, 1);
    PutAt(map[], pairs, 2);
  }

  lemma RefusalIsPlain()
    ensures Plain("Invalid credentials")
  {}

  /** The stored token is accepted. */
  lemma LoginSucceeds(s: Server, i: nat, c: Conn, nick: string, env: Env)
    requires Inv(s) && CanTry(s, i, c, env) && ValidNick(nick) && Lower(nick) in s.users
    ensures NowLoggedIn(s, Input(s, i, LoginCommand(nick, s.users[Lower(nick)].token) + "\n", env), i, c, nick)
  {
    var token := s.users[Lower(nick)].token;
    StoredToken(s, nick);
    TokenIsSafe(token);
    LoginOutcome(s, i, c, nick, token, env);
  }

  /** So is its first character alone: one of the sixteen digits is always granted, and the others are refused. */
  lemma OneDigitLogsIn(s: Server, i: nat, c: Conn, nick: string, digit: char, env: Env)
    requires Inv(s) && CanTry(s, i, c, env) && ValidNick(nick) && Lower(nick) in s.users && Tokens.IsTokenChar(digit)
    ensures s.users[Lower(nick)].token != "" && Tokens.IsTokenChar(s.users[Lower(nick)].token[0])
    ensures var r := Input(s, i, LoginCommand(nick, [digit]) + "\n", env);
      if digit == s.users[Lower(nick)].token[0] then NowLoggedIn(s, r, i, c, nick)
      else LoginRefused(s, r, i, env.now, c)
  {
    hide Input, LoginCommand, NowLoggedIn, LoginRefused, Inv, ValidNick, CanTry;
    var token := s.users[Lower(nick)].token;
    StoredToken(s, nick);
    assert token[0] in token;
    TokenIsSafe([digit]);
    LoginOutcome(s, i, c, nick, [digit], env);
    assert [digit] <= token <==> digit == token[0];
  }

  lemma StoredToken(s: Server, nick: string)
    requires Inv(s) && Lower(nick) in s.users
    ensures var token := s.users[Lower(nick)].token; token != "" && forall c :: c in token ==> Tokens.IsTokenChar(c)
  {
    assert GoodAccount(Lower(nick), s.users[Lower(nick)]);
  }

  lemma {:induction false} WriteOnlineExtends(s: Server, text: string, n: nat, c: Conn)
    requires n <= |s.slots|
    ensures Sent(s, c) <= Sent(WriteOnline(s, text, n), c)
  {
    if n > 0 {
      WriteOnlineExtends(s, text, n - 1, c);
    }
  }

  lemma GrantIsSeen(s: Server, i: nat, c: Conn, nick: string, token: string, level: nat)
    requires i < |s.slots| && s.slots[i].ssl == Some(c) && ValidNick(nick)
    requires '\\' !in Sent(s, c) && StreamState(Start, Sent(s, c)) == Start
    ensures NowLoggedIn(s, Grant(s, i, nick, token, level), i, c, nick)
  {
    hide Line, Events, StreamState, LoginPairs, Printed, ValidNick;
    var pairs := LoginPairs(nick, s.slots[i].session_id);
    assert Plain(nick) by { ValidIsPlain(nick); }
    LoginPairsRead(nick, s.slots[i].session_id);
    var s2 := WriteSlot(Authorize(s, i, nick, token, level), i, Line(pairs));
    GrantEffect(s, i, nick, token, level);
    WriteOnlineExtends(s2,
      Printed([("type", JStr("message")), ("from", JStr("System"))]
              + [("text", JStr("User " + nick + " joined the secure network"))]), |s2.slots|, c);
    EventsExtend(Sent(s, c), pairs, Sent(Grant(s, i, nick, token, level), c));
  }

  // ---------------------------------------------------------------------------------------------
  // Registration lines
  // ---------------------------------------------------------------------------------------------

  /** `registerUser`. */
  function RegisterCommand(nick: string): string {
    "/register " + nick
  }

  lemma RegisterLineIsRead(nick: string)
    requires ValidNick(nick)
    ensures CommandOf(RegisterCommand(nick) + "\n") == RegisterCommand(nick)
    ensures "/register" <= RegisterCommand(nick)
    ensures RegisterNick(RegisterCommand(nick) + "\n") == nick
  {
    var line := RegisterCommand(nick);
    NickIsSafe(nick);
    SafeConcat("/register ", nick);
    CommandOfLine(line);
    SafeTextStays(line);
    RegisterArguments(nick);
    assert nick[0] in nick;
    SkipOneSpace(nick);
    ScanWordWhole(nick, "", 31);
    assert nick + "" == nick;
  }

  /** Of any word the first 31 characters are taken as the nick. */
  lemma RegisterLineIsCut(w: string)
    requires SafeWord(w)
    ensures CommandOf(RegisterCommand(w) + "\n") == RegisterCommand(w)
    ensures RegisterNick(RegisterCommand(w) + "\n") == Cut(w, 31)
  {
    var line := RegisterCommand(w);
    WordIsSafe(w);
    SafeConcat("/register ", w);
    CommandOfLine(line);
    SafeTextStays(line);
    RegisterArguments(w);
    SkipOneSpace(w);
    WordIsCut(w, "", 31);
    assert w + "" == w;
  }

  lemma WordIsSafe(w: string)
    requires SafeWord(w)
    ensures SafeText(w) && !IsSpace(w[0])
  {
    assert w[0] in w;
    forall c | c in w
      ensures c != '\n'
    {
      assert !IsSpace(c);
    }
  }

  lemma WordIsCut(w: string, rest: string, max: nat)
    requires w != "" && (forall c :: c in w ==> !IsSpace(c)) && (rest == "" || IsSpace(rest[0]) || |w| > max)
    ensures ScanWord(w + rest, max) == Cut(w, max)
  {
    if |w| <= max {
      ScanWordWhole(w, rest, max);
    } else {
      assert w + rest == w[..max] + (w[max..] + rest);
      ScanWordWhole(w[..max], w[max..] + rest, max);
    }
  }

  /** A login line with a nick of more than 31 characters: what is over is taken as the token. */
  lemma LongNickSplits(nick: string, w: string)
    requires SafeWord(nick) && SafeWord(w) && |nick| > 31
    ensures CommandOf(LoginCommand(nick, w) + "\n") == LoginCommand(nick, w) && "/login" <= LoginCommand(nick, w)
    ensures LoginWords(LoginCommand(nick, w)) == (nick[..31], Cut(nick[31..], 63))
  {
    hide CommandOf, LoginCommand;
    LongLineIsRead(nick, w);
    LoginArguments(nick, w);
    WordIsSafe(nick);
    SkipOneSpace(nick + (" " + w));
    var after := nick + (" " + w);
    WordIsCut(nick, " " + w, 31);
    assert after[31..] == nick[31..] + (" " + w);
    WordSuffix(nick, 31);
    SkipSpacesOf(after[31..]);
    WordIsCut(nick[31..], " " + w, 63);
  }

  lemma WordSuffix(w: string, n: nat)
    requires (forall c :: c in w ==> !IsSpace(c)) && n < |w|
    ensures w[n..] != "" && !IsSpace(w[n..][0]) && forall c :: c in w[n..] ==> !IsSpace(c)
  {
    assert w[n] in w;
  }

  lemma LongLineIsRead(nick: string, w: string)
    requires SafeWord(nick) && SafeWord(w)
    ensures CommandOf(LoginCommand(nick, w) + "\n") == LoginCommand(nick, w)
  {
    WordIsSafe(nick);
    WordIsSafe(w);
    SafeConcat("/login ", nick);
    SafeConcat("/login " + nick, " ");
    SafeConcat("/login " + nick + " ", w);
    CommandOfLine(LoginCommand(nick, w));
    SafeTextStays(LoginCommand(nick, w));
  }

  lemma RegisterArguments(nick: string)
    ensures "/register" <= RegisterCommand(nick) && RegisterCommand(nick)[9..] == " " + nick
  {
    assert "/register " == "/register" + " ";
    assert RegisterCommand(nick) == "/register" + (" " + nick);
  }

  lemma RegisteredIsRead(nick: string, token: string, level: nat)
    requires Plain(nick) && Plain(token)
    ensures Typed(RegisteredPairs(nick, token, level)) && PlainPairs(RegisteredPairs(nick, token, level))
    ensures EventOf(Put(map[], RegisteredPairs(nick, token, level))) == RegisterOk(nick, token)
  {
    RegisteredArePlain(nick, token, level);
    hide Plain;
    var pairs := RegisteredPairs(nick, token, level);
    PutAt(map[], pairs, 0);
    PutAt(map[], pairs, 1);
    PutAt(map[], pairs, 2);
    PutAt(map[], pairs, 3);
  }

  lemma RegisteredArePlain(nick: string, token: string, level: nat)
    requires Plain(nick) && Plain(token)
    ensures PlainPairs(RegisteredPairs(nick, token, level))
  {
    DecimalIsDigits(level);
    RegisteredKeysArePlain();
    hide Plain;
  }

  lemma RegisteredKeysArePlain()
    ensures Plain("type") && Plain("status") && Plain("nick") && Plain("token") && Plain("security_level")
    ensures Plain("register") && Plain("success")
  {}

  /** A nick and a token that are both new, on an admitted turn of a client that is not logged in. */
  ghost predicate CanRegister(s: Server, i: nat, c: Conn, nick: string, env: Env) {
    && i < |s.slots| && Live(s.slots[i]) && s.slots[i].ssl == Some(c) && !s.slots[i].authorized
    && ValidNick(nick) && Lower(nick) !in s.users && RateLimit.Admit(s.slots[i].limit, env.now).1
    && env.random.Some? && env.insert && !TokenUsed(s.users, Tokens.Token(env.random.value))
  }

  /** Between two states the account was added, and the client told its token. */
  ghost predicate NowRegistered(s: Server, r: Server, c: Conn, a: Account) {
    && r.users == s.users[Lower(a.nick) := a]
    && |Events(Sent(r, c))| == |Events(Sent(s, c))| + 1
    && Events(Sent(r, c))[..|Events(Sent(s, c))|] == Events(Sent(s, c))
    && Events(Sent(r, c))[|Events(Sent(s, c))|] == RegisterOk(a.nick, a.token)
  }

  /** A registration is answered with the very token that is stored. */
  lemma RegisterSucceeds(s: Server, i: nat, c: Conn, nick: string, env: Env)
    requires Inv(s) && CanRegister(s, i, c, nick, env)
    ensures NowRegistered(s, Input(s, i, RegisterCommand(nick) + "\n", env), c,
      Account(nick, Tokens.Token(env.random.value), s.slots[i].security_level))
  {
    hide RegisterCommand, CommandOf, Line, Events, StreamState, RegisteredPairs, ValidNick, Register, Honest, TokenUsed;
    assert GoodSlot(s, s.slots[i]);
    var raw, token, level := RegisterCommand(nick) + "\n", Tokens.Token(env.random.value), s.slots[i].security_level;
    var s1, pairs := AfterTouch(s, i, env.now), RegisteredPairs(nick, token, level);
    RegisterLineIsRead(nick);
    ValidIsPlain(nick);
    TokenIsPlain(env.random.value);
    RegisteredIsRead(nick, token, level);
    SentIsGood(s, c);
    LineSeen(Sent(s, c), pairs);
    assert NewAccount(s1, i, raw, env) == Account(nick, token, level);
    RegisterUsers(s1, i, raw, env);
    assert CommandOf(raw) != "" by { assert CommandOf(raw)[0] == "/register"[0]; }
    assert Input(s, i, raw, env) == Register(s1, i, CommandOf(raw), env);
  }

  lemma CanRegisterIsTurn(s: Server, a: Action, c: Conn, nick: string)
    requires a.Turn? && CanRegister(s, a.slot, c, nick, a.env) && a.raw == RegisterCommand(nick) + "\n"
    ensures RegisterTurn(s, a) && RegisterNick(a.raw) == nick
  {
    hide RegisterCommand, RegisterNick, ValidNick, TokenUsed, RateLimit.Admit, CommandOf;
    RegisterLineIsRead(nick);
    assert a.raw != "";
  }

  /**
   From registration to login: a client that sends, at any later time and on any connection, the token it was
   given, with its nick in any case of letters, is logged in and told so.
   */
  lemma RegisterThenLogin(actions: seq<Action>, m: nat, c: Conn, nick: string, j: nat, d: Conn, as_typed: string, env: Env)
    requires ValidActions(actions) && m < |actions| && actions[m].Turn?
    requires CanRegister(Run(actions[..m]).server, actions[m].slot, c, nick, actions[m].env)
    requires actions[m].raw == RegisterCommand(nick) + "\n"
    requires ValidNick(as_typed) && Lower(as_typed) == Lower(nick)
    requires CanTry(Run(actions).server, j, d, env)
    ensures var s, token := Run(actions).server, Tokens.Token(actions[m].env.random.value);
      NowLoggedIn(s, Input(s, j, LoginCommand(as_typed, token) + "\n", env), j, d, as_typed)
  {
    hide Next, RegisterCommand, LoginCommand, Input, ValidNick, NowLoggedIn, RegisterNick, Inv, Lower, CanRegister, CanTry;
    hide RegisterTurn, Tokens.Token, Accepts;
    var s := Run(actions).server;
    CanRegisterIsTurn(Run(actions[..m]).server, actions[m], c, nick);
    RegistrationStays(actions, m, as_typed);
    RunIsGood(actions);
    LoginSucceeds(s, j, d, as_typed, env);
  }

  /**
   The exact condition, over runs: after a registration, an admitted login line with that nick in any case of
   letters and a word is granted if and only if the word, cut to 63 characters, is a beginning of the issued token.
   */
  lemma LoginGrantedIff(actions: seq<Action>, m: nat, j: nat, d: Conn, as_typed: string, w: string, env: Env)
    requires ValidActions(actions) && m < |actions| && RegisterTurn(Run(actions[..m]).server, actions[m])
    requires ValidNick(as_typed) && Lower(as_typed) == Lower(RegisterNick(actions[m].raw))
    requires CanTry(Run(actions).server, j, d, env) && SafeWord(w)
    ensures d in Input(Run(actions).server, j, LoginCommand(as_typed, w) + "\n", env).granted
      <==> Cut(w, 63) <= Tokens.Token(actions[m].env.random.value)
  {
    hide Next, RegisterTurn, LoginCommand, Input, ValidNick, RegisterNick, Inv, Lower, CanTry, Tokens.Token, Accepts, SafeWord;
    hide Arrives;
    RegistrationStays(actions, m, as_typed);
    RunIsGood(actions);
    LoginOutcome(Run(actions).server, j, d, as_typed, w, env);
  }
}
