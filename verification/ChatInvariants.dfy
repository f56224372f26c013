/**
 What every step of the chat server keeps: descriptors, accounts, and the honesty of every stream of bytes
 towards a client.
 */
module ChatInvariants {
  import opened Common
  import opened CText
  import opened JsonLines
  import opened LineStream
  import opened ChatServer
  import Tokens

  // ---------------------------------------------------------------------------------------------
  // The invariant
  // ---------------------------------------------------------------------------------------------

  predicate Live(slot: Slot) {
    slot.fd >= 0
  }

  /** The descriptors of the live slots are distinct and are exactly those that are accepted and not closed. */
  ghost predicate DescriptorsMatch(s: Server) {
    && (forall i, j :: 0 <= i < j < |s.slots| && Live(s.slots[i]) && Live(s.slots[j]) ==> s.slots[i].fd != s.slots[j].fd)
    && (forall i :: 0 <= i < |s.slots| && Live(s.slots[i]) ==> s.slots[i].fd in s.open)
    && (forall fd :: fd in s.open ==> exists i :: 0 <= i < |s.slots| && Live(s.slots[i]) && s.slots[i].fd == fd)
  }

  ghost predicate GoodAccount(key: string, a: Account) {
    key == Lower(a.nick) && ValidNick(a.nick) && |a.token| == Tokens.TOKEN_LENGTH
      && forall c :: c in a.token ==> Tokens.IsTokenChar(c)
  }

  ghost predicate GoodAccounts(s: Server) {
    forall k :: k in s.users ==> GoodAccount(k, s.users[k])
  }

  /** A live slot has its own connection, and is authorised exactly when a login was granted on it, under that nick. */
  ghost predicate GoodSlot(s: Server, slot: Slot) {
    && (slot.authorized ==> ValidNick(slot.nick) && Lower(slot.nick) in s.users)
    && (Live(slot) ==>
          && slot.ssl.Some? && slot.ssl.value < s.next
          && (slot.authorized <==> slot.ssl.value in s.granted)
          && (slot.authorized ==> s.granted[slot.ssl.value] == slot.nick))
  }

  ghost predicate GoodSlots(s: Server) {
    && (forall i :: 0 <= i < |s.slots| ==> GoodSlot(s, s.slots[i]))
    && (forall i, j :: 0 <= i < j < |s.slots| && Live(s.slots[i]) && Live(s.slots[j]) ==> s.slots[i].ssl != s.slots[j].ssl)
    && (forall c :: c in s.granted ==> c < s.next && Lower(s.granted[c]) in s.users)
  }

  function Allowed(s: Server, c: Conn): set<string> {
    if c in s.granted then {s.granted[c]} else {}
  }

  /** No stream confirms a login that was not granted on its connection; before the login it ends with a whole line. */
  ghost predicate GoodStream(s: Server, c: Conn, text: string) {
    && '\\' !in text
    && Honest(Start, text, Allowed(s, c))
    && (c !in s.granted ==> StreamState(Start, text) == Start)
  }

  ghost predicate GoodStreams(s: Server) {
    && (forall c :: c in s.out ==> c < s.next)
    && (forall c :: c in s.out ==> GoodStream(s, c, s.out[c]))
  }

  ghost predicate Inv(s: Server) {
    DescriptorsMatch(s) && GoodAccounts(s) && GoodSlots(s) && GoodStreams(s)
  }

  lemma InitialInv()
    ensures Inv(Initial())
  {}

  // ---------------------------------------------------------------------------------------------
  // Plain texts
  // ---------------------------------------------------------------------------------------------

  lemma NickIsPlain(nick: string)
    requires forall c :: c in nick ==> NickChar(c)
    ensures Plain(nick)
  {}

  lemma {:induction false} DecimalIsDigits(n: nat)
    ensures Decimal(n) != "" && forall c :: c in Decimal(n) ==> IsDigit(c)
  {
    if n >= 10 {
      DecimalIsDigits(n / 10);
    }
  }

  lemma DecimalIsPlain(n: nat)
    ensures Plain(Decimal(n))
  {
    DecimalIsDigits(n);
    forall c | c in Decimal(n)
      ensures c != '"' && c != '\\' && c >= ' '
    {
      assert IsDigit(c);
    }
  }

  /** A nick that equals a valid one up to the case of letters is valid. */
  lemma SameCaseIsValid(a: string, b: string)
    requires ValidNick(a) && Lower(a) == Lower(b)
    ensures ValidNick(b)
  {
    forall c | c in b
      ensures NickChar(c)
    {
      var k :| 0 <= k < |b| && b[k] == c;
      assert |a| == |Lower(a)| == |Lower(b)| == |b|;
      assert a[k] in a && LowerChar(a[k]) == Lower(a)[k] == Lower(b)[k] == LowerChar(b[k]);
    }
    assert |Lower(a)| == |Lower(b)|;
  }

  // ---------------------------------------------------------------------------------------------
  // Writes
  // ---------------------------------------------------------------------------------------------

  /** A text that confirms no login wherever a line may have been left unfinished. */
  ghost predicate Harmless(text: string) {
    && '\\' !in text
    && forall s: State, ok: set<string> :: NoPending(s) ==> Honest(s, text, ok)
  }

  /** A harmless whole line. */
  ghost predicate WholeLine(text: string) {
    Harmless(text) && forall s: State :: NoPending(s) ==> StreamState(s, text) == Start
  }

  /** Pairs of a given type other than a login answer; the key `type` comes once. */
  ghost predicate OfType(pairs: seq<Pair>, name: string) {
    Typed(pairs) && PlainPairs(pairs) && pairs[0].1.s == name && forall j :: 0 < j < |pairs| ==> pairs[j].0 != "type"
  }

  lemma TypeIs(pairs: seq<Pair>, name: string)
    requires OfType(pairs, name)
    ensures Str(Put(map[], pairs), "type") == name
  {
    PutAt(map[], pairs, 0);
  }

  lemma LineIsWholeFrom(s: State, pairs: seq<Pair>, name: string, ok: set<string>)
    requires OfType(pairs, name) && name != "login" && NoPending(s)
    ensures Honest(s, Line(pairs), ok) && Honest(s, Printed(pairs), ok) && StreamState(s, Line(pairs)) == Start
  {
    TypeIs(pairs, name);
    LineFrom(s, pairs);
    LineIsHonest(s, pairs, ok);
    CutIsHonest(s, Line(pairs), BUFFER_SIZE - 1, ok);
  }

  lemma LineIsWhole(pairs: seq<Pair>, name: string)
    requires OfType(pairs, name) && name != "login"
    ensures WholeLine(Line(pairs)) && Harmless(Printed(pairs))
  {
    hide Honest, StreamState, Line;
    forall s: State, ok: set<string> | NoPending(s)
      ensures Honest(s, Line(pairs), ok) && Honest(s, Printed(pairs), ok)
    {
      LineIsWholeFrom(s, pairs, name, ok);
    }
    forall s: State | NoPending(s)
      ensures StreamState(s, Line(pairs)) == Start
    {
      LineIsWholeFrom(s, pairs, name, {});
    }
    BodyClean(pairs);
  }

  lemma TextIsHarmless(heads: seq<Pair>, name: string, key: string, text: string)
    requires OfType(heads, name) && name != "login" && Plain(key) && key != "type" && Unquoted(text)
    ensures Harmless(Printed(heads + [(key, JStr(text))]))
  {
    TypeIs(heads, name);
    forall s: State, ok: set<string> | NoPending(s)
      ensures Honest(s, Printed(heads + [(key, JStr(text))]), ok)
    {
      TextLineIsHonest(s, heads, key, text, BUFFER_SIZE - 1, ok);
    }
    TextLineIsHonest(Start, heads, key, text, BUFFER_SIZE - 1, {});
  }

  lemma WrittenStream(s: Server, c: Conn, before: string, text: string)
    requires GoodStream(s, c, before) && Harmless(text) && (c in s.granted || WholeLine(text))
    ensures GoodStream(s, c, before + text)
  {
    NoBackslashNoEscape(Start, before);
    HonestConcat(Start, before, text, Allowed(s, c));
    StreamConcat(Start, before, text);
  }

  lemma WriteKeepsStreams(s: Server, c: Conn, text: string)
    requires GoodStreams(s) && c < s.next && Harmless(text) && (c in s.granted || WholeLine(text))
    ensures GoodStreams(Write(s, c, text))
  {
    WrittenStream(s, c, Sent(s, c), text);
    var s1 := Write(s, c, text);
    forall d | d in s1.out
      ensures GoodStream(s1, d, s1.out[d])
    {
      assert GoodStream(s, d, s1.out[d]);
    }
  }

  /** Only the bytes written differ. */
  predicate SameButOut(a: Server, b: Server) {
    a == b.(out := a.out)
  }

  lemma SameButOutKeeps(a: Server, b: Server)
    requires SameButOut(a, b) && Inv(b) && GoodStreams(a)
    ensures Inv(a)
  {
    forall i | 0 <= i < |a.slots|
      ensures GoodSlot(a, a.slots[i])
    {
      assert GoodSlot(b, b.slots[i]);
    }
  }

  /** A whole line may go to any live slot. */
  lemma WriteSlotKeeps(s: Server, i: nat, text: string)
    requires Inv(s) && i < |s.slots| && Live(s.slots[i])
    requires Harmless(text) && (s.slots[i].authorized || WholeLine(text))
    ensures Inv(WriteSlot(s, i, text)) && SameButOut(WriteSlot(s, i, text), s)
  {
    assert GoodSlot(s, s.slots[i]);
    WriteKeepsStreams(s, s.slots[i].ssl.value, text);
    SameButOutKeeps(WriteSlot(s, i, text), s);
  }

  lemma {:induction false} WriteOnlineKeeps(s: Server, text: string, n: nat)
    requires Inv(s) && n <= |s.slots| && Harmless(text)
    ensures Inv(WriteOnline(s, text, n)) && SameButOut(WriteOnline(s, text, n), s)
  {
    hide Inv, Harmless, WholeLine;
    if n > 0 {
      WriteOnlineKeeps(s, text, n - 1);
      if IsOnline(s.slots[n - 1]) {
        WriteSlotKeeps(WriteOnline(s, text, n - 1), n - 1, text);
      }
    }
  }

  lemma MessageIsHarmless(sender: string, text: string)
    requires Plain(sender) && Unquoted(text)
    ensures Harmless(Printed([("type", JStr("message")), ("from", JStr(sender))] + [("text", JStr(text))]))
  {
    var heads: seq<Pair> := [("type", JStr("message")), ("from", JStr(sender))];
    TextIsHarmless(heads, "message", "text", text);
  }

  lemma BroadcastKeeps(s: Server, sender: string, text: string)
    requires Inv(s) && Plain(sender) && Unquoted(text)
    ensures Inv(Broadcast(s, sender, text)) && SameButOut(Broadcast(s, sender, text), s)
  {
    MessageIsHarmless(sender, text);
    WriteOnlineKeeps(s, Printed([("type", JStr("message")), ("from", JStr(sender))] + [("text", JStr(text))]), |s.slots|);
  }

  // ---------------------------------------------------------------------------------------------
  // Commands of unauthorised clients
  // ---------------------------------------------------------------------------------------------

  lemma ErrorIsWhole(message: string)
    requires Plain(message)
    ensures WholeLine(Line(ErrorPairs(message)))
  {
    var pairs := ErrorPairs(message);
    LineIsWhole(pairs, "error");
  }

  /** A login answer without success confirms nothing either. */
  lemma RefusalIsWhole(pairs: seq<Pair>)
    requires Typed(pairs) && PlainPairs(pairs) && Str(Put(map[], pairs), "status") != "success"
    ensures WholeLine(Line(pairs))
  {
    hide Honest, StreamState, Line;
    forall s: State, ok: set<string> | NoPending(s)
      ensures Honest(s, Line(pairs), ok)
    {
      LineIsHonest(s, pairs, ok);
    }
    forall s: State | NoPending(s)
      ensures StreamState(s, Line(pairs)) == Start
    {
      LineFrom(s, pairs);
    }
    BodyClean(pairs);
  }

  lemma ResultIsWhole(command: string, message: string)
    requires Plain(command) && Plain(message)
    ensures WholeLine(Line(ResultPairs(command, message)))
  {
    var pairs := ResultPairs(command, message);
    PutAt(map[], pairs, 1);
    RefusalIsWhole(pairs);
  }

  lemma RegisteredIsWhole(nick: string, token: string, level: nat)
    requires Plain(nick) && Plain(token)
    ensures WholeLine(Line(RegisteredPairs(nick, token, level)))
  {
    var pairs := RegisteredPairs(nick, token, level);
    DecimalIsDigits(level);
    LineIsWhole(pairs, "register");
  }

  lemma HelpIsWhole(commands: seq<string>)
    requires forall e :: e in commands ==> Plain(e)
    ensures WholeLine(Line(HelpPairs(commands)))
  {
    LineIsWhole(HelpPairs(commands), "help");
  }

  lemma RegisterHelpIsPlain()
    ensures Plain("/register <nick> - Register new account")
  {}

  lemma LoginHelpIsPlain()
    ensures Plain("/login <nick> <token> - Login to account")
  {}

  lemma MsgHelpIsPlain()
    ensures Plain("/msg <user> <text> - Send private message")
  {}

  lemma OnlineHelpIsPlain()
    ensures Plain("/online - List online users")
  {}

  lemma HelpHelpIsPlain()
    ensures Plain("/help - This help message")
  {}

  lemma HelpCommandsArePlain()
    ensures forall e :: e in HELP_COMMANDS ==> Plain(e)
  {
    hide Plain;
    RegisterHelpIsPlain();
    LoginHelpIsPlain();
    MsgHelpIsPlain();
    OnlineHelpIsPlain();
    HelpHelpIsPlain();
  }

  lemma WelcomeWordsArePlain()
    ensures Plain("type") && Plain("welcome") && Plain("version")
    ensures Plain("4.0") && Plain("security") && Plain("enhanced")
  {}

  lemma WelcomeIsPlain()
    ensures PlainPairs(WELCOME)
  {
    hide Plain;
    WelcomeWordsArePlain();
  }

  lemma WelcomeIsWhole()
    ensures WholeLine(Line(WELCOME))
  {
    WelcomeIsPlain();
    hide Plain;
    LineIsWhole(WELCOME, "welcome");
  }

  /** One more account; accounts that exist keep their token. */
  lemma NewAccountKeeps(s: Server, a: Account)
    requires Inv(s) && GoodAccount(Lower(a.nick), a) && Lower(a.nick) !in s.users
    ensures Inv(s.(users := s.users[Lower(a.nick) := a]))
  {
    var s1 := s.(users := s.users[Lower(a.nick) := a]);
    forall i | 0 <= i < |s1.slots|
      ensures GoodSlot(s1, s1.slots[i])
    {
      assert GoodSlot(s, s.slots[i]);
    }
    forall c | c in s1.out
      ensures GoodStream(s1, c, s1.out[c])
    {
      assert GoodStream(s, c, s.out[c]);
    }
  }

  lemma TokenIsPlain(bytes: seq<byte>)
    ensures Plain(Tokens.Token(bytes)) && forall c :: c in Tokens.Token(bytes) ==> Tokens.IsTokenChar(c)
  {
    Tokens.TokenRoundTrip(bytes);
    forall c | c in Tokens.Token(bytes)
      ensures c != '"' && c != '\\' && c >= ' '
    {
      assert Tokens.IsTokenChar(c);
    }
  }

  lemma RegisteredKeeps(s: Server, i: nat, nick: string, bytes: seq<byte>)
    requires Inv(s) && i < |s.slots| && Live(s.slots[i])
    requires ValidNick(nick) && Lower(nick) !in s.users && |bytes| == Tokens.TOKEN_LENGTH / 2
    ensures var token, level := Tokens.Token(bytes), s.slots[i].security_level;
      var s1 := s.(users := s.users[Lower(nick) := Account(nick, token, level)]);
      Inv(WriteSlot(s1, i, Line(RegisteredPairs(nick, token, level))))
  {
    hide Inv, Line, WholeLine, Harmless;
    var token, level := Tokens.Token(bytes), s.slots[i].security_level;
    TokenIsPlain(bytes);
    NickIsPlain(nick);
    NewAccountKeeps(s, Account(nick, token, level));
    RegisteredIsWhole(nick, token, level);
    WriteSlotKeeps(s.(users := s.users[Lower(nick) := Account(nick, token, level)]), i, Line(RegisteredPairs(nick, token, level)));
  }

  lemma RefuseKeeps(s: Server, i: nat, command: string, message: string)
    requires Inv(s) && i < |s.slots| && Live(s.slots[i]) && Plain(command) && Plain(message)
    ensures Inv(WriteSlot(s, i, Line(ResultPairs(command, message))))
  {
    ResultIsWhole(command, message);
    WriteSlotKeeps(s, i, Line(ResultPairs(command, message)));
  }

  lemma RegisterRefusalsArePlain()
    ensures Plain("register") && Plain("Invalid nickname")
    ensures Plain("Nickname already exists") && Plain("Database error")
  {}

  lemma RegisterKeeps(s: Server, i: nat, command: string, env: Env)
    requires Inv(s) && ValidEnv(env) && i < |s.slots| && Live(s.slots[i]) && "/register" <= command
    ensures Inv(Register(s, i, command, env))
  {
    hide Inv, Line, WriteSlot, Plain;
    RegisterRefusalsArePlain();
    var nick := ScanWord(SkipSpaces(command[9..]), 31);
    RefuseKeeps(s, i, "register", "Invalid nickname");
    RefuseKeeps(s, i, "register", "Nickname already exists");
    RefuseKeeps(s, i, "register", "Database error");
    if ValidNick(nick) && Lower(nick) !in s.users && env.random.Some? {
      RegisteredKeeps(s, i, nick, env.random.value);
    }
  }

  // ---------------------------------------------------------------------------------------------
  // Login
  // ---------------------------------------------------------------------------------------------

  lemma LoginArePlain(nick: string, session: nat)
    requires Plain(nick)
    ensures PlainPairs(LoginPairs(nick, session))
  {
    DecimalIsPlain(session);
  }

  lemma LoginPairsRead(nick: string, session: nat)
    requires Plain(nick)
    ensures Typed(LoginPairs(nick, session)) && PlainPairs(LoginPairs(nick, session))
    ensures EventOf(Put(map[], LoginPairs(nick, session))) == LoginOk(nick)
  {
    LoginArePlain(nick, session);
    hide Plain;
    var pairs := LoginPairs(nick, session);
    PutAt(map[], pairs, 0);
    PutAt(map[], pairs, 1);
    PutAt(map[], pairs, 2);
  }

  /** The state in which a slot has just been authorised. */
  function Authorize(s: Server, i: nat, nick: string, token: string, level: nat): Server
    requires i < |s.slots| && s.slots[i].ssl.Some?
  {
    s.(slots := s.slots[i := s.slots[i].(nick := nick, token := token, authorized := true, security_level := level)],
       granted := s.granted[s.slots[i].ssl.value := nick])
  }

  lemma AuthorizeKeeps(s: Server, i: nat, nick: string, token: string, level: nat)
    requires Inv(s) && i < |s.slots| && Live(s.slots[i]) && !s.slots[i].authorized
    requires ValidNick(nick) && Lower(nick) in s.users
    ensures GoodSlot(s, s.slots[i])
    ensures Inv(Authorize(s, i, nick, token, level))
  {
    hide DescriptorsMatch, ValidNick, Honest, StreamState;
    assert GoodSlot(s, s.slots[i]);
    var s1 := Authorize(s, i, nick, token, level);
    AuthorizeSlots(s, i, nick, token, level);
    forall d | d in s1.out
      ensures GoodStream(s1, d, s1.out[d])
    {
      assert GoodStream(s, d, s.out[d]);
      HonestMonotone(Start, s.out[d], Allowed(s, d), Allowed(s1, d));
    }
    AuthorizeDescriptors(s, i, nick, token, level);
  }

  lemma AuthorizeSlots(s: Server, i: nat, nick: string, token: string, level: nat)
    requires GoodSlots(s) && i < |s.slots| && Live(s.slots[i]) && s.slots[i].ssl.Some?
    requires ValidNick(nick) && Lower(nick) in s.users
    ensures GoodSlots(Authorize(s, i, nick, token, level))
  {
    hide ValidNick;
    var s1 := Authorize(s, i, nick, token, level);
    assert GoodSlot(s, s.slots[i]);
    forall j | 0 <= j < |s1.slots|
      ensures GoodSlot(s1, s1.slots[j])
    {
      assert GoodSlot(s, s.slots[j]);
    }
  }

  lemma AuthorizeDescriptors(s: Server, i: nat, nick: string, token: string, level: nat)
    requires DescriptorsMatch(s) && i < |s.slots| && s.slots[i].ssl.Some?
    ensures DescriptorsMatch(Authorize(s, i, nick, token, level))
  {
    SameDescriptors(s, Authorize(s, i, nick, token, level));
  }

  lemma SameDescriptors(a: Server, b: Server)
    requires DescriptorsMatch(a) && a.open == b.open && |a.slots| == |b.slots|
    requires forall k :: 0 <= k < |a.slots| ==> a.slots[k].fd == b.slots[k].fd
    ensures DescriptorsMatch(b)
  {
    forall fd | fd in b.open
      ensures exists i :: 0 <= i < |b.slots| && Live(b.slots[i]) && b.slots[i].fd == fd
    {
      var i :| 0 <= i < |a.slots| && Live(a.slots[i]) && a.slots[i].fd == fd;
      assert Live(b.slots[i]) && b.slots[i].fd == fd;
    }
  }

  /** The confirmation itself is honest on the connection it is written to. */
  lemma ConfirmationKeeps(s: Server, i: nat, nick: string)
    requires Inv(s) && i < |s.slots| && Live(s.slots[i]) && s.slots[i].authorized && s.slots[i].nick == nick
    ensures Inv(WriteSlot(s, i, Line(LoginPairs(nick, s.slots[i].session_id))))
  {
    hide Line, DescriptorsMatch, ValidNick;
    var slot := s.slots[i];
    assert GoodSlot(s, slot);
    var c, line := slot.ssl.value, Line(LoginPairs(nick, slot.session_id));
    assert Plain(nick) by { ValidNickIsPlain(nick); }
    LoginPairsRead(nick, slot.session_id);
    BodyClean(LoginPairs(nick, slot.session_id));
    assert GoodStream(s, c, Sent(s, c));
    NoBackslashNoEscape(Start, Sent(s, c));
    LineIsHonest(StreamState(Start, Sent(s, c)), LoginPairs(nick, slot.session_id), Allowed(s, c));
    HonestConcat(Start, Sent(s, c), line, Allowed(s, c));
    var s1 := WriteSlot(s, i, line);
    forall d | d in s1.out
      ensures GoodStream(s1, d, s1.out[d])
    {
      if d != c {
        assert GoodStream(s, d, s.out[d]);
      }
    }
    SameButOutKeeps(s1, s);
  }

  lemma ValidNickIsPlain(nick: string)
    requires ValidNick(nick)
    ensures Plain(nick)
  {
    NickIsPlain(nick);
  }

  lemma UnquotedNotice(before: string, nick: string, after: string)
    requires Plain(nick) && Unquoted(before) && Unquoted(after)
    ensures Unquoted(before + nick + after)
  {}

  lemma GrantKeeps(s: Server, i: nat, nick: string, token: string, level: nat)
    requires Inv(s) && i < |s.slots| && Live(s.slots[i]) && !s.slots[i].authorized
    requires ValidNick(nick) && Lower(nick) in s.users
    ensures GoodSlot(s, s.slots[i])
    ensures Inv(Grant(s, i, nick, token, level))
  {
    AuthorizeKeeps(s, i, nick, token, level);
    var s1 := Authorize(s, i, nick, token, level);
    ConfirmationKeeps(s1, i, nick);
    NickIsPlain(nick);
    NoticeKeeps(WriteSlot(s1, i, Line(LoginPairs(nick, s.slots[i].session_id))), nick);
  }

  lemma NoticeKeeps(s: Server, nick: string)
    requires Inv(s) && Plain(nick)
    ensures Inv(Broadcast(s, "System", "User " + nick + " joined the secure network"))
    ensures Inv(Broadcast(s, "System", "User " + nick + " disconnected"))
    ensures SameButOut(Broadcast(s, "System", "User " + nick + " disconnected"), s)
  {
    UnquotedNotice("User ", nick, " joined the secure network");
    UnquotedNotice("User ", nick, " disconnected");
    BroadcastKeeps(s, "System", "User " + nick + " joined the secure network");
    BroadcastKeeps(s, "System", "User " + nick + " disconnected");
  }

  lemma LoginKeeps(s: Server, i: nat, command: string, env: Env)
    requires Inv(s) && i < |s.slots| && Live(s.slots[i]) && !s.slots[i].authorized && "/login" <= command
    ensures GoodSlot(s, s.slots[i])
    ensures Inv(Login(s, i, command, env))
  {
    assert GoodSlot(s, s.slots[i]);
    var (nick, token) := LoginWords(command);
    if nick != "" && token != "" {
      if env.query && Accepts(s.users, nick, token) {
        var a := s.users[Lower(nick)];
        assert GoodAccount(Lower(nick), a);
        SameCaseIsValid(a.nick, nick);
        GrantKeeps(s, i, nick, token, a.security_level);
      } else {
        RefuseKeeps(s, i, "login", "Invalid credentials");
      }
    }
  }

  // ---------------------------------------------------------------------------------------------
  // Commands of authorised clients
  // ---------------------------------------------------------------------------------------------

  lemma {:induction false} OnlineNicksArePlain(slots: seq<Slot>)
    requires forall k :: 0 <= k < |slots| && slots[k].authorized ==> ValidNick(slots[k].nick)
    ensures forall e :: e in OnlineNicks(slots) ==> Plain(e)
  {
    if slots != [] {
      OnlineNicksArePlain(slots[..|slots| - 1]);
      if slots[|slots| - 1].authorized {
        NickIsPlain(slots[|slots| - 1].nick);
      }
    }
  }

  lemma OnlineIsHarmless(slots: seq<Slot>)
    requires forall k :: 0 <= k < |slots| && slots[k].authorized ==> ValidNick(slots[k].nick)
    ensures Harmless(Printed(OnlinePairs(slots)))
  {
    OnlineNicksArePlain(slots);
    var pairs := OnlinePairs(slots);
    LineIsWhole(pairs, "online");
  }

  /** Texts cut out of a sanitised command are sanitised. */
  lemma MessageWordsAreUnquoted(command: string, n: nat)
    requires Unquoted(command) && n <= |command|
    ensures Unquoted(MessageWords(command[n..]).1)
  {
    var after := SkipSpaces(command[n..]);
    SkipSpacesOf(command[n..]);
    var rest := after[|ScanWord(after, 31)|..];
    SkipSpacesOf(rest);
    forall c | c in ScanLine(SkipSpaces(rest), 2047)
      ensures c in command
    {
      assert c in SkipSpaces(rest);
      assert c in rest;
      assert c in after;
      assert c in command[n..];
    }
  }

  lemma PrivateIsHarmless(from: string, to: string, text: string)
    requires Plain(from) && Plain(to) && Unquoted(text)
    ensures Harmless(Printed(PrivateHeads(from, to) + [("text", JStr(text))]))
  {
    TextIsHarmless(PrivateHeads(from, to), "private", "text", text);
  }

  lemma SendPrivateKeeps(s: Server, from: string, to: string, text: string)
    requires Inv(s) && Plain(from) && Unquoted(text)
    ensures Inv(SendPrivate(s, from, to, text)) && SameButOut(SendPrivate(s, from, to, text), s)
  {
    hide Harmless, Printed;
    match FindOnline(s.slots, to)
    case None =>
    case Some(j) =>
      assert GoodSlot(s, s.slots[j]);
      NickIsPlain(to);
      PrivateIsHarmless(from, to, text);
      WriteSlotKeeps(s, j, Printed(PrivateHeads(from, to) + [("text", JStr(text))]));
  }

  lemma EncryptedIsHarmless(from: string, to: string, text: string)
    requires Plain(from) && Plain(to) && Unquoted(text)
    ensures Harmless(Printed(
      [("type", JStr("encrypted")), ("from", JStr(from)), ("to", JStr(to))] + [("data", JStr(text))]))
  {
    var heads: seq<Pair> := [("type", JStr("encrypted")), ("from", JStr(from)), ("to", JStr(to))];
    TextIsHarmless(heads, "encrypted", "data", text);
  }

  lemma SendEncryptedKeeps(s: Server, from: string, to: string, cipher: Option<string>)
    requires Inv(s) && Plain(from) && (cipher.Some? ==> Unquoted(cipher.value))
    ensures Inv(SendEncrypted(s, from, to, cipher)) && SameButOut(SendEncrypted(s, from, to, cipher), s)
  {
    hide Harmless, Printed;
    match FindOnline(s.slots, to)
    case None =>
    case Some(j) =>
      if cipher.Some? {
        assert GoodSlot(s, s.slots[j]);
        NickIsPlain(to);
        EncryptedIsHarmless(from, to, cipher.value);
        WriteSlotKeeps(s, j, Printed(
          [("type", JStr("encrypted")), ("from", JStr(from)), ("to", JStr(to))] + [("data", JStr(cipher.value))]));
      }
  }

  lemma AuthorizedKeeps(s: Server, i: nat, command: string, env: Env)
    requires Inv(s) && ValidEnv(env) && i < |s.slots| && Live(s.slots[i]) && s.slots[i].authorized
    requires Unquoted(command)
    ensures Inv(Authorized(s, i, command, env)) && SameButOut(Authorized(s, i, command, env), s)
  {
    var nick := s.slots[i].nick;
    assert GoodSlot(s, s.slots[i]);
    NickIsPlain(nick);
    if command == "/online" {
      forall k | 0 <= k < |s.slots| && s.slots[k].authorized
        ensures ValidNick(s.slots[k].nick)
      {
        assert GoodSlot(s, s.slots[k]);
      }
      OnlineIsHarmless(s.slots);
      WriteSlotKeeps(s, i, Printed(OnlinePairs(s.slots)));
    } else if "/msg" <= command {
      MessageWordsAreUnquoted(command, 4);
      SendPrivateKeeps(s, nick, MessageWords(command[4..]).0, MessageWords(command[4..]).1);
    } else if "/send_enc" <= command {
      SendEncryptedKeeps(s, nick, MessageWords(command[9..]).0, env.cipher);
    } else if command != "" {
      BroadcastKeeps(s, nick, command);
    }
  }
}
