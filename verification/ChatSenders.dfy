/**
 Who a message comes from: every message, private message or encrypted message that a client reports was sent, with
 that text, by the user it names; and what holds of texts of "System".
 */
module ChatSenders {
  import opened Common
  import opened CText
  import opened JsonLines
  import opened LineStream
  import opened GenuineStreams
  import opened ChatServer
  import opened ChatInvariants
  import opened ChatRuns
  import opened ChatTheorems
  import opened ChatLines
  import opened ChatMessages
  import RateLimit
  import Tokens

  // ---------------------------------------------------------------------------------------------
  // What an action says
  // ---------------------------------------------------------------------------------------------

  /** The action is an admitted command of a slot that is authorised as `n`. */
  ghost predicate Speaks(s: Server, a: Action, n: string) {
    && a.Turn? && a.slot < |s.slots| && Admitted(s, a.slot, a.raw, a.env)
    && s.slots[a.slot].authorized && s.slots[a.slot].nick == n
  }

  /** The server tells everybody that somebody came or went. */
  ghost predicate Notice(s: Server, a: Action, text: string) {
    || (a.End? && a.slot < |s.slots| && s.slots[a.slot].authorized
          && text == "User " + s.slots[a.slot].nick + " disconnected")
    || (a.Turn? && a.slot < |s.slots| && s.slots[a.slot].ssl.Some? && LoginTurn(s, a, s.slots[a.slot].ssl.value)
          && text == "User " + LoginNick(a.raw) + " joined the secure network")
  }

  /** The event is what the action sends to other clients. */
  ghost predicate Authored(s: Server, a: Action, e: Event) {
    match e
    case Message(n, t) =>
      || (Speaks(s, a, n) && IsChat(CommandOf(a.raw)) && t == CommandOf(a.raw))
      || (n == "System" && Notice(s, a, t))
    case Private(n, to, t) =>
      Speaks(s, a, n) && "/msg" <= CommandOf(a.raw) && MessageWords(CommandOf(a.raw)[4..]) == (to, t)
    case Encrypted(n, to, d) =>
      && Speaks(s, a, n) && "/send_enc" <= CommandOf(a.raw) && MessageWords(CommandOf(a.raw)[9..]).0 == to
      && a.env.cipher == Some(d)
    case _ => false
  }

  predicate Quiet(e: Event) {
    !e.Message? && !e.Private? && !e.Encrypted?
  }

  /** What the actions of a run have said, and all events that nobody says. */
  ghost function Said(actions: seq<Action>): iset<Event> {
    iset e: Event | Quiet(e) || exists m :: 0 <= m < |actions| && Authored(Run(actions[..m]).server, actions[m], e)
  }

  // ---------------------------------------------------------------------------------------------
  // Streams
  // ---------------------------------------------------------------------------------------------

  /** A stream of genuine lines; with `braced`, all of them begin like an object. */
  ghost predicate Fine(text: string, ok: iset<Event>, braced: bool) {
    '\\' !in text && Genuine(Start, text, ok) && (braced ==> Braced(text))
  }

  ghost predicate StreamsFine(s: Server, ok: iset<Event>, braced: bool) {
    forall c :: c in s.out ==> Fine(s.out[c], ok, braced)
  }

  /** A text that may be written to any stream. */
  ghost predicate Fair(text: string, ok: iset<Event>, braced: bool) {
    && '\\' !in text && (braced ==> Braced(text))
    && forall st: State :: NoPending(st) ==> Genuine(st, text, ok)
  }

  lemma WriteFine(s: Server, c: Conn, text: string, ok: iset<Event>, braced: bool)
    requires StreamsFine(s, ok, braced) && Fair(text, ok, braced)
    ensures StreamsFine(Write(s, c, text), ok, braced)
  {
    hide Genuine, Braced;
    var before := Sent(s, c);
    assert Fine(before, ok, braced) by { EmptyIsFine(ok, braced); }
    NoBackslashNoEscape(Start, before);
    GenuineConcat(Start, before, text, ok);
    if braced {
      BracedConcat(before, text);
    }
  }

  lemma EmptyIsFine(ok: iset<Event>, braced: bool)
    ensures Fine("", ok, braced)
  {}

  lemma WriteSlotFine(s: Server, i: nat, text: string, ok: iset<Event>, braced: bool)
    requires i < |s.slots| && StreamsFine(s, ok, braced) && Fair(text, ok, braced)
    ensures StreamsFine(WriteSlot(s, i, text), ok, braced)
  {
    if s.slots[i].ssl.Some? {
      WriteFine(s, s.slots[i].ssl.value, text, ok, braced);
    }
  }

  lemma {:induction false} WriteOnlineFine(s: Server, text: string, n: nat, ok: iset<Event>, braced: bool)
    requires n <= |s.slots| && StreamsFine(s, ok, braced) && Fair(text, ok, braced)
    ensures StreamsFine(WriteOnline(s, text, n), ok, braced)
  {
    hide StreamsFine, Fair;
    if n > 0 {
      WriteOnlineFine(s, text, n - 1, ok, braced);
      WriteSlotFine(WriteOnline(s, text, n - 1), n - 1, text, ok, braced);
    }
  }

  // ---------------------------------------------------------------------------------------------
  // Lines
  // ---------------------------------------------------------------------------------------------

  lemma LineIsFair(pairs: seq<Pair>, ok: iset<Event>, braced: bool)
    requires Typed(pairs) && PlainPairs(pairs) && EventOf(Put(map[], pairs)) in ok
    ensures Fair(Line(pairs), ok, braced) && Fair(Printed(pairs), ok, braced)
  {
    hide Genuine, Line, Braced, EventOf, Put, Typed, PlainPairs;
    PairsAreSome(pairs);
    forall st: State | NoPending(st)
      ensures Genuine(st, Line(pairs), ok) && Genuine(st, Printed(pairs), ok)
    {
      LineIsGenuine(st, pairs, ok);
      GenuineCut(st, Line(pairs), BUFFER_SIZE - 1, ok);
    }
    BodyClean(pairs);
    LineIsBraced(pairs, BUFFER_SIZE - 1);
  }

  lemma LineIsBraced(pairs: seq<Pair>, n: nat)
    requires pairs != [] && '\n' !in Body(pairs)
    ensures Braced(Line(pairs)) && Braced(Cut(Line(pairs), n))
  {
    hide Braced;
    LineIsBody(pairs);
    assert Line(pairs)[0] == '{';
    forall k | 0 <= k < |Line(pairs)| - 1
      ensures Line(pairs)[k] != '\n'
    {
      assert Line(pairs)[k] == Body(pairs)[k] && Body(pairs)[k] in Body(pairs);
    }
    BracedLine(Line(pairs), n);
    BracedLine(Line(pairs), |Line(pairs)|);
  }

  /** Lines of a type that is no message are fair whoever speaks. */
  lemma QuietLineIsFair(pairs: seq<Pair>, name: string, ok: iset<Event>, braced: bool)
    requires OfType(pairs, name) && name != "message" && name != "private" && name != "encrypted"
    requires forall e :: Quiet(e) ==> e in ok
    ensures Fair(Line(pairs), ok, braced) && Fair(Printed(pairs), ok, braced)
  {
    hide Fair, Line;
    TypeIs(pairs, name);
    QuietEvent(Put(map[], pairs));
    LineIsFair(pairs, ok, braced);
  }

  lemma QuietEvent(f: Fields)
    requires Str(f, "type") != "message" && Str(f, "type") != "private" && Str(f, "type") != "encrypted"
    ensures Quiet(EventOf(f))
  {}

  lemma TextLineIsFair(heads: seq<Pair>, key: string, text: string, ok: iset<Event>, braced: bool)
    requires Typed(heads) && PlainPairs(heads) && Plain(key) && Unquoted(text) && NoEvent in ok
    requires Plain(text) ==> EventOf(Put(map[], heads + [(key, JStr(text))])) in ok
    requires braced ==> '\n' !in text
    ensures Fair(Printed(heads + [(key, JStr(text))]), ok, braced)
  {
    hide Genuine, Line, Braced, EventOf, Put, Plain;
    var pairs, n := heads + [(key, JStr(text))], BUFFER_SIZE - 1;
    forall st: State | NoPending(st)
      ensures Genuine(st, Printed(pairs), ok)
    {
      TextLineIsGenuine(st, heads, key, text, n, ok);
    }
    TextLineHasNoBackslash(heads, key, text);
    if braced {
      TextBody(heads, key, text);
      LineIsBraced(pairs, n);
    }
  }

  lemma TextLineHasNoBackslash(heads: seq<Pair>, key: string, text: string)
    requires PlainPairs(heads) && Plain(key) && Unquoted(text)
    ensures '\\' !in Line(heads + [(key, JStr(text))])
  {
    TextLineSplits(heads, key, text);
    HeadsClean(heads);
  }

  lemma TextBody(heads: seq<Pair>, key: string, text: string)
    requires PlainPairs(heads) && Plain(key) && '\n' !in text
    ensures '\n' !in Body(heads + [(key, JStr(text))])
  {
    hide Plain, PlainPairs, Heads;
    var pairs := heads + [(key, JStr(text))];
    HeadsClean(heads);
    PlainHasNoNewline(key);
    assert pairs[..|pairs| - 1] == heads;
  }

  lemma MessageIsFair(from: string, text: string, ok: iset<Event>, braced: bool)
    requires Plain(from) && Unquoted(text) && NoEvent in ok
    requires Plain(text) ==> Message(from, text) in ok
    requires braced ==> '\n' !in text
    ensures Fair(Printed(MessagePairs(from, text)), ok, braced)
  {
    hide Fair, Line;
    var heads: seq<Pair> := [("type", JStr("message")), ("from", JStr(from))];
    if Plain(text) {
      MessageIsRead(from, text);
    }
    assert PlainPairs(heads) && Plain("text") by { MessageWordsArePlain(); }
    TextLineIsFair(heads, "text", text, ok, braced);
  }

  lemma MessageWordsArePlain()
    ensures Plain("type") && Plain("message") && Plain("private") && Plain("encrypted")
    ensures Plain("from") && Plain("to") && Plain("text") && Plain("data")
  {}

  lemma BroadcastFine(s: Server, from: string, text: string, ok: iset<Event>, braced: bool)
    requires StreamsFine(s, ok, braced) && Plain(from) && Unquoted(text) && NoEvent in ok
    requires Plain(text) ==> Message(from, text) in ok
    requires braced ==> '\n' !in text
    ensures StreamsFine(Broadcast(s, from, text), ok, braced)
  {
    hide StreamsFine, Fair, Line, Cut;
    MessageIsFair(from, text, ok, braced);
    WriteOnlineFine(s, Printed(MessagePairs(from, text)), |s.slots|, ok, braced);
  }

  // ---------------------------------------------------------------------------------------------
  // Commands of unauthorised clients
  // ---------------------------------------------------------------------------------------------

  ghost predicate AllQuiet(ok: iset<Event>) {
    forall e :: Quiet(e) ==> e in ok
  }

  lemma ResultFine(s: Server, i: nat, command: string, message: string, ok: iset<Event>, braced: bool)
    requires i < |s.slots| && StreamsFine(s, ok, braced) && AllQuiet(ok)
    requires Plain(command) && Plain(message) && command != "message" && command != "private" && command != "encrypted"
    ensures StreamsFine(WriteSlot(s, i, Line(ResultPairs(command, message))), ok, braced)
  {
    hide StreamsFine, Fair, Line;
    QuietLineIsFair(ResultPairs(command, message), command, ok, braced);
    WriteSlotFine(s, i, Line(ResultPairs(command, message)), ok, braced);
  }

  /** Only the bytes written count. */
  lemma SameOutFine(a: Server, b: Server, ok: iset<Event>, braced: bool)
    requires StreamsFine(a, ok, braced) && b.out == a.out
    ensures StreamsFine(b, ok, braced)
  {}

  lemma RegisteredFine(s: Server, i: nat, nick: string, bytes: seq<byte>, level: nat, ok: iset<Event>, braced: bool)
    requires i < |s.slots| && StreamsFine(s, ok, braced) && AllQuiet(ok) && Plain(nick)
    ensures StreamsFine(WriteSlot(s, i, Line(RegisteredPairs(nick, Tokens.Token(bytes), level))), ok, braced)
  {
    hide StreamsFine, Fair, Line;
    var pairs := RegisteredPairs(nick, Tokens.Token(bytes), level);
    TokenIsPlain(bytes);
    DecimalIsDigits(level);
    QuietLineIsFair(pairs, "register", ok, braced);
    WriteSlotFine(s, i, Line(pairs), ok, braced);
  }

  lemma RegisterFine(s: Server, i: nat, command: string, env: Env, ok: iset<Event>, braced: bool)
    requires i < |s.slots| && "/register" <= command && StreamsFine(s, ok, braced) && AllQuiet(ok)
    ensures StreamsFine(Register(s, i, command, env), ok, braced)
  {
    hide StreamsFine, AllQuiet, Line, WriteSlot, Plain, ValidNick, RegisteredPairs, Tokens.Token;
    RegisterRefusalsArePlain();
    var nick := ScanWord(SkipSpaces(command[9..]), 31);
    ResultFine(s, i, "register", "Invalid nickname", ok, braced);
    ResultFine(s, i, "register", "Nickname already exists", ok, braced);
    ResultFine(s, i, "register", "Database error", ok, braced);
    if ValidNick(nick) && env.random.Some? {
      ValidIsPlain(nick);
      var token, level := Tokens.Token(env.random.value), s.slots[i].security_level;
      var s1 := s.(users := s.users[Lower(nick) := Account(nick, token, level)]);
      SameOutFine(s, s1, ok, braced);
      RegisteredFine(s1, i, nick, env.random.value, level, ok, braced);
    }
  }

  lemma GrantFine(s: Server, i: nat, nick: string, token: string, level: nat, ok: iset<Event>, braced: bool)
    requires i < |s.slots| && s.slots[i].ssl.Some? && StreamsFine(s, ok, braced) && AllQuiet(ok) && ValidNick(nick)
    requires Message("System", "User " + nick + " joined the secure network") in ok
    ensures StreamsFine(Grant(s, i, nick, token, level), ok, braced)
  {
    hide StreamsFine, Line, LoginPairs, Broadcast, Fair, AllQuiet, Plain;
    var s1, pairs := Authorize(s, i, nick, token, level), LoginPairs(nick, s.slots[i].session_id);
    ValidIsPlain(nick);
    LoginPairsRead(nick, s.slots[i].session_id);
    assert LoginOk(nick) in ok by { QuietIsSaid(LoginOk(nick), ok); }
    assert NoEvent in ok by { QuietIsSaid(NoEvent, ok); }
    LineIsFair(pairs, ok, braced);
    SameOutFine(s, s1, ok, braced);
    WriteSlotFine(s1, i, Line(pairs), ok, braced);
    NoticeIsUnquoted(nick);
    BroadcastFine(WriteSlot(s1, i, Line(pairs)), "System", "User " + nick + " joined the secure network", ok, braced);
  }

  lemma QuietIsSaid(e: Event, ok: iset<Event>)
    requires AllQuiet(ok) && Quiet(e)
    ensures e in ok
  {}

  lemma NoticeIsUnquoted(nick: string)
    requires ValidNick(nick)
    ensures Plain("System")
    ensures Unquoted("User " + nick + " joined the secure network") && '\n' !in "User " + nick + " joined the secure network"
    ensures Unquoted("User " + nick + " disconnected") && '\n' !in "User " + nick + " disconnected"
  {
    ValidIsPlain(nick);
    NoticeWords();
    hide Plain;
    PlainHasNoNewline(nick);
    NoticeConcat("User ", nick, " joined the secure network");
    NoticeConcat("User ", nick, " disconnected");
  }

  lemma NoticeWords()
    ensures Plain("System") && Plain("User ") && Plain(" joined the secure network") && Plain(" disconnected")
  {}

  lemma NoticeConcat(before: string, nick: string, after: string)
    requires Plain(before) && Plain(nick) && Plain(after)
    ensures Unquoted(before + nick + after) && '\n' !in before + nick + after
  {
    UnquotedNotice(before, nick, after);
    PlainHasNoNewline(before);
    PlainHasNoNewline(nick);
    PlainHasNoNewline(after);
  }

  lemma LoginFine(s: Server, i: nat, command: string, env: Env, ok: iset<Event>, braced: bool)
    requires GoodAccounts(s) && i < |s.slots| && s.slots[i].ssl.Some? && "/login" <= command
    requires StreamsFine(s, ok, braced) && AllQuiet(ok)
    requires var (nick, token) := LoginWords(command);
      nick != "" && token != "" && env.query && Accepts(s.users, nick, token) ==>
        Message("System", "User " + nick + " joined the secure network") in ok
    ensures StreamsFine(Login(s, i, command, env), ok, braced)
  {
    hide StreamsFine, Line, Grant, WriteSlot, LoginWords, AllQuiet;
    var (nick, token) := LoginWords(command);
    if nick != "" && token != "" {
      if env.query && Accepts(s.users, nick, token) {
        var a := s.users[Lower(nick)];
        assert GoodAccount(Lower(nick), a);
        SameCaseIsValid(a.nick, nick);
        GrantFine(s, i, nick, token, a.security_level, ok, braced);
      } else {
        LoginRefusalIsPlain();
        ResultFine(s, i, "login", "Invalid credentials", ok, braced);
      }
    }
  }

  lemma LoginRefusalIsPlain()
    ensures Plain("login") && Plain("Invalid credentials")
  {}

  lemma ErrorFine(s: Server, i: nat, message: string, ok: iset<Event>, braced: bool)
    requires i < |s.slots| && StreamsFine(s, ok, braced) && AllQuiet(ok) && Plain(message)
    ensures StreamsFine(WriteSlot(s, i, Line(ErrorPairs(message))), ok, braced)
  {
    hide StreamsFine, Fair, Line;
    QuietLineIsFair(ErrorPairs(message), "error", ok, braced);
    WriteSlotFine(s, i, Line(ErrorPairs(message)), ok, braced);
  }

  lemma HelpFine(s: Server, i: nat, ok: iset<Event>, braced: bool)
    requires i < |s.slots| && StreamsFine(s, ok, braced) && AllQuiet(ok)
    ensures StreamsFine(WriteSlot(s, i, Line(HelpPairs(HELP_COMMANDS))), ok, braced)
  {
    hide StreamsFine, Fair, Line;
    HelpCommandsArePlain();
    HelpLineFair(HELP_COMMANDS, ok, braced);
    WriteSlotFine(s, i, Line(HelpPairs(HELP_COMMANDS)), ok, braced);
  }

  lemma HelpLineFair(commands: seq<string>, ok: iset<Event>, braced: bool)
    requires AllQuiet(ok) && forall e :: e in commands ==> Plain(e)
    ensures Fair(Line(HelpPairs(commands)), ok, braced)
  {
    hide Fair, Line;
    QuietLineIsFair(HelpPairs(commands), "help", ok, braced);
  }

  lemma UnauthorizedFine(s: Server, i: nat, command: string, env: Env, ok: iset<Event>, braced: bool)
    requires GoodAccounts(s) && i < |s.slots| && s.slots[i].ssl.Some? && StreamsFine(s, ok, braced) && AllQuiet(ok)
    requires "/login" <= command ==>
      var (nick, token) := LoginWords(command);
      nick != "" && token != "" && env.query && Accepts(s.users, nick, token) ==>
        Message("System", "User " + nick + " joined the secure network") in ok
    ensures StreamsFine(Unauthorized(s, i, command, env), ok, braced)
  {
    hide StreamsFine, AllQuiet, Line, Register, Login, WriteSlot, LoginWords, Accepts;
    if "/register" <= command {
      RegisterFine(s, i, command, env, ok, braced);
    } else if "/login" <= command {
      LoginFine(s, i, command, env, ok, braced);
    } else if "/help" <= command {
      HelpFine(s, i, ok, braced);
    } else {
      AuthenticationIsPlain();
      ErrorFine(s, i, "Authentication required", ok, braced);
    }
  }

  lemma AuthenticationIsPlain()
    ensures Plain("Authentication required")
  {}

  // ---------------------------------------------------------------------------------------------
  // Commands of authorised clients
  // ---------------------------------------------------------------------------------------------

  lemma PrivateFine(s: Server, from: string, to: string, text: string, ok: iset<Event>, braced: bool)
    requires GoodSlots(s) && StreamsFine(s, ok, braced) && Plain(from) && Unquoted(text) && NoEvent in ok
    requires Private(from, to, text) in ok && '\n' !in text
    ensures StreamsFine(SendPrivate(s, from, to, text), ok, braced)
  {
    hide StreamsFine, Fair, Line, Cut;
    match FindOnline(s.slots, to)
    case None =>
    case Some(j) =>
      assert GoodSlot(s, s.slots[j]);
      ValidIsPlain(to);
      PrivateIsFair(from, to, text, ok, braced);
      WriteSlotFine(s, j, Printed(PrivatePairs(from, to, text)), ok, braced);
  }

  lemma PrivateIsFair(from: string, to: string, text: string, ok: iset<Event>, braced: bool)
    requires Plain(from) && Plain(to) && Unquoted(text) && NoEvent in ok
    requires Private(from, to, text) in ok && '\n' !in text
    ensures Fair(Printed(PrivatePairs(from, to, text)), ok, braced)
  {
    hide Fair, Line;
    if Plain(text) {
      PrivateIsRead(from, to, text);
    }
    assert PlainPairs(PrivateHeads(from, to)) && Plain("text") by { MessageWordsArePlain(); }
    TextLineIsFair(PrivateHeads(from, to), "text", text, ok, braced);
  }

  function EncryptedHeads(from: string, to: string): seq<Pair> {
    [("type", JStr("encrypted")), ("from", JStr(from)), ("to", JStr(to))]
  }

  lemma EncryptedIsRead(from: string, to: string, data: string)
    requires Plain(from) && Plain(to) && Plain(data)
    ensures EventOf(Put(map[], EncryptedHeads(from, to) + [("data", JStr(data))])) == Encrypted(from, to, data)
  {
    var pairs := EncryptedHeads(from, to) + [("data", JStr(data))];
    PutAt(map[], pairs, 0);
    PutAt(map[], pairs, 1);
    PutAt(map[], pairs, 2);
    PutAt(map[], pairs, 3);
  }

  lemma EncryptedIsFair(from: string, to: string, data: string, ok: iset<Event>, braced: bool)
    requires Plain(from) && Plain(to) && Unquoted(data) && NoEvent in ok
    requires Encrypted(from, to, data) in ok && (braced ==> '\n' !in data)
    ensures Fair(Printed(EncryptedHeads(from, to) + [("data", JStr(data))]), ok, braced)
  {
    hide Fair, Line;
    if Plain(data) {
      EncryptedIsRead(from, to, data);
    }
    assert PlainPairs(EncryptedHeads(from, to)) && Plain("data") by { MessageWordsArePlain(); }
    TextLineIsFair(EncryptedHeads(from, to), "data", data, ok, braced);
  }

  lemma EncryptedFine(s: Server, from: string, to: string, cipher: Option<string>, ok: iset<Event>, braced: bool)
    requires GoodSlots(s) && StreamsFine(s, ok, braced) && Plain(from) && NoEvent in ok
    requires cipher.Some? ==>
      Unquoted(cipher.value) && Encrypted(from, to, cipher.value) in ok && (braced ==> '\n' !in cipher.value)
    ensures StreamsFine(SendEncrypted(s, from, to, cipher), ok, braced)
  {
    hide StreamsFine, Fair, Line, Cut;
    match FindOnline(s.slots, to)
    case None =>
    case Some(j) =>
      if cipher.Some? {
        assert GoodSlot(s, s.slots[j]);
        ValidIsPlain(to);
        EncryptedIsFair(from, to, cipher.value, ok, braced);
        WriteSlotFine(s, j, Printed(EncryptedHeads(from, to) + [("data", JStr(cipher.value))]), ok, braced);
      }
  }

  lemma OnlineFine(s: Server, i: nat, ok: iset<Event>, braced: bool)
    requires Inv(s) && i < |s.slots| && StreamsFine(s, ok, braced) && AllQuiet(ok)
    ensures StreamsFine(WriteSlot(s, i, Printed(OnlinePairs(s.slots))), ok, braced)
  {
    hide StreamsFine, Fair, Line, OnlinePairs, AllQuiet, Inv;
    NicksAreGood(s);
    OnlineIsRead(s.slots);
    QuietIsSaid(Online(OnlineNicks(s.slots)), ok);
    LineIsFair(OnlinePairs(s.slots), ok, braced);
    WriteSlotFine(s, i, Printed(OnlinePairs(s.slots)), ok, braced);
  }

  /** What the command of an authorised slot may say. */
  ghost predicate MaySay(nick: string, command: string, env: Env, ok: iset<Event>) {
    && (IsChat(command) ==> Message(nick, command) in ok)
    && ("/msg" <= command ==> Private(nick, MessageWords(command[4..]).0, MessageWords(command[4..]).1) in ok)
    && ("/send_enc" <= command && env.cipher.Some? ==> Encrypted(nick, MessageWords(command[9..]).0, env.cipher.value) in ok)
  }

  lemma AuthorizedFine(s: Server, i: nat, command: string, env: Env, ok: iset<Event>, braced: bool)
    requires Inv(s) && ValidEnv(env) && i < |s.slots| && s.slots[i].authorized && Unquoted(command)
    requires StreamsFine(s, ok, braced) && AllQuiet(ok) && MaySay(s.slots[i].nick, command, env, ok)
    requires braced ==> '\n' !in command && (env.cipher.Some? ==> '\n' !in env.cipher.value)
    ensures StreamsFine(Authorized(s, i, command, env), ok, braced)
  {
    hide StreamsFine, Line, Printed, SendPrivate, SendEncrypted, Broadcast, WriteSlot, ValidNick;
    var nick := s.slots[i].nick;
    assert GoodSlot(s, s.slots[i]) && GoodSlots(s);
    ValidIsPlain(nick);
    QuietIsSaid(NoEvent, ok);
    if command == "/online" {
      OnlineFine(s, i, ok, braced);
    } else if "/msg" <= command {
      MessageWordsAreUnquoted(command, 4);
      PrivateFine(s, nick, MessageWords(command[4..]).0, MessageWords(command[4..]).1, ok, braced);
    } else if "/send_enc" <= command {
      EncryptedFine(s, nick, MessageWords(command[9..]).0, env.cipher, ok, braced);
    } else if command != "" {
      BroadcastFine(s, nick, command, ok, braced);
    }
  }

  // ---------------------------------------------------------------------------------------------
  // Steps
  // ---------------------------------------------------------------------------------------------

  /** No newline inside the command or the encrypted text of a turn. */
  predicate OneLine(a: Action) {
    a.Turn? ==> '\n' !in CommandOf(a.raw) && (a.env.cipher.Some? ==> '\n' !in a.env.cipher.value)
  }

  ghost predicate Says(s: Server, a: Action, ok: iset<Event>) {
    AllQuiet(ok) && forall e :: Authored(s, a, e) ==> e in ok
  }

  lemma SaysAtLogin(s: Server, i: nat, raw: string, env: Env, ok: iset<Event>)
    requires i < |s.slots| && Admitted(s, i, raw, env) && !s.slots[i].authorized && Says(s, Turn(i, raw, env), ok)
    ensures "/login" <= CommandOf(raw) ==>
      var (nick, token) := LoginWords(CommandOf(raw));
      nick != "" && token != "" && env.query && Accepts(s.users, nick, token) ==>
        Message("System", "User " + nick + " joined the secure network") in ok
  {
    hide CommandOf, LoginWords, Accepts;
    var a := Turn(i, raw, env);
    if "/login" <= CommandOf(raw) {
      var (nick, token) := LoginWords(CommandOf(raw));
      if nick != "" && token != "" && env.query && Accepts(s.users, nick, token) {
        assert LoginTurn(s, a, s.slots[i].ssl.value) && LoginNick(raw) == nick;
        assert Authored(s, a, Message("System", "User " + nick + " joined the secure network"));
      }
    }
  }

  lemma SaysOfCommand(s: Server, i: nat, raw: string, env: Env, ok: iset<Event>)
    requires i < |s.slots| && Admitted(s, i, raw, env) && s.slots[i].authorized && Says(s, Turn(i, raw, env), ok)
    ensures MaySay(s.slots[i].nick, CommandOf(raw), env, ok)
  {
    hide CommandOf, MessageWords, IsChat;
    var a, nick, command := Turn(i, raw, env), s.slots[i].nick, CommandOf(raw);
    assert Speaks(s, a, nick);
    assert IsChat(command) ==> Authored(s, a, Message(nick, command));
    if "/msg" <= command {
      assert Authored(s, a, Private(nick, MessageWords(command[4..]).0, MessageWords(command[4..]).1));
    }
    if "/send_enc" <= command && env.cipher.Some? {
      assert Authored(s, a, Encrypted(nick, MessageWords(command[9..]).0, env.cipher.value));
    }
  }

  lemma InputFine(s: Server, i: nat, raw: string, env: Env, ok: iset<Event>, braced: bool)
    requires Inv(s) && ValidEnv(env) && i < |s.slots| && StreamsFine(s, ok, braced)
    requires Says(s, Turn(i, raw, env), ok) && (braced ==> OneLine(Turn(i, raw, env)))
    ensures StreamsFine(Input(s, i, raw, env), ok, braced)
  {
    hide StreamsFine, Inv, Authored, AllQuiet, Line, WriteSlot, Authorized, Unauthorized, CommandOf, MaySay, LoginWords, Accepts;
    hide RateLimit.Admit;
    var slot := s.slots[i];
    if slot.fd >= 0 && slot.ssl.Some? && raw != "" {
      var s1, command := AfterTouch(s, i, env.now), CommandOf(raw);
      TouchKeeps(s, i, Touched(slot, env.now));
      SameOutFine(s, s1, ok, braced);
      if !RateLimit.Admit(slot.limit, env.now).1 {
        RateRefusalIsPlain();
        ErrorFine(s1, i, "Rate limit exceeded", ok, braced);
      } else if command != "" {
        if slot.authorized {
          CommandIsUnquoted(raw);
          SaysOfCommand(s, i, raw, env, ok);
          AuthorizedFine(s1, i, command, env, ok, braced);
        } else {
          SaysAtLogin(s, i, raw, env, ok);
          assert GoodAccounts(s1) by { AccountsAreGood(s1); }
          UnauthorizedFine(s1, i, command, env, ok, braced);
        }
      }
    }
  }

  lemma AccountsAreGood(s: Server)
    requires Inv(s)
    ensures GoodAccounts(s)
  {}

  lemma RateRefusalIsPlain()
    ensures Plain("Rate limit exceeded")
  {}

  lemma GreetFine(s: Server, i: nat, session: nat, ok: iset<Event>, braced: bool)
    requires i < |s.slots| && StreamsFine(s, ok, braced) && AllQuiet(ok)
    ensures StreamsFine(Greet(s, i, session), ok, braced)
  {
    hide StreamsFine, Fair, Line;
    var s1 := s.(slots := s.slots[i := Greeted(s.slots[i], session)]);
    SameOutFine(s, s1, ok, braced);
    assert OfType(WELCOME, "welcome") by { WelcomeIsPlain(); }
    QuietLineIsFair(WELCOME, "welcome", ok, braced);
    WriteSlotFine(s1, i, Line(WELCOME), ok, braced);
  }

  lemma ExitFine(s: Server, i: nat, ok: iset<Event>, braced: bool)
    requires Inv(s) && i < |s.slots| && StreamsFine(s, ok, braced) && Says(s, End(i), ok)
    ensures StreamsFine(Exit(s, i), ok, braced)
  {
    hide StreamsFine, AllQuiet, Broadcast, Inv;
    var slot := s.slots[i];
    if slot.authorized {
      var text := "User " + slot.nick + " disconnected";
      assert Authored(s, End(i), Message("System", text));
      assert GoodSlot(s, slot) by { InvParts(s, i); }
      NoticeIsUnquoted(slot.nick);
      QuietIsSaid(NoEvent, ok);
      BroadcastFine(s, "System", text, ok, braced);
      SameOutFine(Broadcast(s, "System", text), Exit(s, i), ok, braced);
    } else {
      SameOutFine(s, Exit(s, i), ok, braced);
    }
  }

  lemma ReadLineFine(s: System, k: nat, ok: iset<Event>, braced: bool)
    requires StreamsFine(s.server, ok, braced)
    ensures StreamsFine(Next(s, ReadLine(k)).server, ok, braced)
  {
    hide Genuine, LineEvent;
    var client := ClientOf(s, k);
    if client.conn.Some? {
      var text := Sent(s.server, client.conn.value);
      var n := FirstNewline(text);
      if n < |text| {
        assert Fine(text, ok, braced);
        GenuineFirstLine(text, ok);
        assert Fine(text[n + 1..], ok, braced);
      }
    }
  }

  lemma StepFine(s: System, a: Action, ok: iset<Event>, braced: bool)
    requires Good(s) && ValidAction(a) && StreamsFine(s.server, ok, braced) && Says(s.server, a, ok)
    requires braced ==> OneLine(a)
    ensures StreamsFine(Next(s, a).server, ok, braced)
  {
    hide StreamsFine, Inv, Input, Exit, Greet, Sweep, Accept, LineEvent, OneLine, Authored, AllQuiet;
    match a
    case Connect(k, fd, handshake, now) => ConnectOut(s, k, fd, handshake, now, ok, braced);
    case Welcome(i, session) =>
      if i < |s.server.slots| {
        GreetFine(s.server, i, session, ok, braced);
      }
    case Turn(i, raw, env) =>
      if i < |s.server.slots| {
        InputFine(s.server, i, raw, env, ok, braced);
      }
    case End(i) =>
      if i < |s.server.slots| {
        ExitFine(s.server, i, ok, braced);
      }
    case Drop(i) => SameOutFine(s.server, Next(s, a).server, ok, braced);
    case Timeouts(now) =>
      SweepEffect(s.server, now, |s.server.slots|);
      SameOutFine(s.server, Next(s, a).server, ok, braced);
    case ReadLine(k) => ReadLineFine(s, k, ok, braced);
    case Leave(k) =>
    case Gone(k) =>
  }

  lemma ConnectOut(s: System, k: nat, fd: int, handshake: bool, now: int, ok: iset<Event>, braced: bool)
    requires StreamsFine(s.server, ok, braced)
    ensures StreamsFine(Next(s, Connect(k, fd, handshake, now)).server, ok, braced)
  {
    hide StreamsFine, FirstFree;
    SameOutFine(s.server, Next(s, Connect(k, fd, handshake, now)).server, ok, braced);
  }

  // ---------------------------------------------------------------------------------------------
  // Runs
  // ---------------------------------------------------------------------------------------------

  lemma SaidGrows(actions: seq<Action>)
    requires actions != []
    ensures Said(actions[..|actions| - 1]) <= Said(actions)
    ensures Says(Run(actions[..|actions| - 1]).server, actions[|actions| - 1], Said(actions))
  {
    hide Authored, Run;
    var n := |actions| - 1;
    var rest := actions[..n];
    forall e | e in Said(rest)
      ensures e in Said(actions)
    {
      if !Quiet(e) {
        var m :| 0 <= m < |rest| && Authored(Run(rest[..m]).server, rest[m], e);
        assert rest[..m] == actions[..m];
        assert Authored(Run(actions[..m]).server, actions[m], e);
      }
    }
  }

  lemma StreamsGrow(s: Server, ok: iset<Event>, ok': iset<Event>, braced: bool)
    requires StreamsFine(s, ok, braced) && ok <= ok'
    ensures StreamsFine(s, ok', braced)
  {
    hide Genuine, Braced;
    forall c | c in s.out
      ensures Fine(s.out[c], ok', braced)
    {
      GenuineMonotone(Start, s.out[c], ok, ok');
    }
  }

  lemma {:induction false} RunIsFine(actions: seq<Action>, braced: bool)
    requires ValidActions(actions)
    requires braced ==> forall k :: 0 <= k < |actions| ==> OneLine(actions[k])
    ensures StreamsFine(Run(actions).server, Said(actions), braced)
  {
    hide Next, Said, Genuine, Braced, OneLine, Says;
    if actions != [] {
      hide StreamsFine;
      var n := |actions| - 1;
      var rest := actions[..n];
      RunIsFine(rest, braced);
      RunIsGood(rest);
      SaidGrows(actions);
      StreamsGrow(Run(rest).server, Said(rest), Said(actions), braced);
      StepFine(Run(rest), actions[n], Said(actions), braced);
    }
  }

  /** The event that the next line of a client's stream reports. */
  function HeardNext(s: System, k: nat): Option<Event> {
    if ClientOf(s, k).conn.None? then None
    else
      var text := Sent(s.server, ClientOf(s, k).conn.value);
      if FirstNewline(text) == |text| then None else Some(LineEvent(text[..FirstNewline(text)]))
  }

  function SenderOf(e: Event): string {
    match e
    case Message(n, _) => n
    case Private(n, _, _) => n
    case Encrypted(n, _, _) => n
    case _ => ""
  }

  /**
   A message, private message or encrypted message that a client reports under a name other than "System" was sent,
   with that text, by an earlier admitted command of a slot on whose connection the server had granted exactly that name.
   */
  lemma SenderIsGenuine(actions: seq<Action>, k: nat, e: Event) returns (m: nat)
    requires ValidActions(actions) && HeardNext(Run(actions), k) == Some(e)
    requires !Quiet(e) && (e.Message? ==> e.from != "System")
    ensures m < |actions| && Authored(Run(actions[..m]).server, actions[m], e)
    ensures var s := Run(actions[..m]).server;
      && Speaks(s, actions[m], SenderOf(e))
      && s.slots[actions[m].slot].ssl.value in s.granted
      && s.granted[s.slots[actions[m].slot].ssl.value] == SenderOf(e)
  {
    hide Next, LineEvent, Genuine, Braced, CommandOf, MessageWords;
    RunIsFine(actions, false);
    var text := Sent(Run(actions).server, ClientOf(Run(actions), k).conn.value);
    assert Fine(text, Said(actions), false) by { EmptyIsFine(Said(actions), false); }
    GenuineFirstLine(text, Said(actions));
    m :| 0 <= m < |actions| && Authored(Run(actions[..m]).server, actions[m], e);
    RunIsGood(actions[..m]);
    var s := Run(actions[..m]).server;
    assert GoodSlot(s, s.slots[actions[m].slot]);
  }

  /** Nobody is called "System". */
  lemma SystemIsNoNick()
    ensures !ValidNick("System")
  {
    assert Lower("System") == "system";
  }

  /**
   If no command and no encrypted text of a run holds a newline, then every text of "System" that a client reports
   is a notice of the server that somebody came or went.
   */
  lemma SystemIsGenuine(actions: seq<Action>, k: nat, text: string) returns (m: nat)
    requires ValidActions(actions) && HeardNext(Run(actions), k) == Some(Message("System", text))
    requires forall j :: 0 <= j < |actions| ==> OneLine(actions[j])
    ensures m < |actions| && Notice(Run(actions[..m]).server, actions[m], text)
  {
    hide Next, LineEvent, Genuine, Braced, CommandOf, MessageWords, OneLine, Notice;
    RunIsFine(actions, true);
    var stream, e := Sent(Run(actions).server, ClientOf(Run(actions), k).conn.value), Message("System", text);
    assert Fine(stream, Said(actions), true) by { EmptyIsFine(Said(actions), true); }
    BracedFirstLine(stream, Said(actions));
    m :| 0 <= m < |actions| && Authored(Run(actions[..m]).server, actions[m], e);
    RunIsGood(actions[..m]);
    SystemOnlyNotices(Run(actions[..m]).server, actions[m], text);
  }

  lemma SystemOnlyNotices(s: Server, a: Action, text: string)
    requires Inv(s) && Authored(s, a, Message("System", text))
    ensures Notice(s, a, text)
  {
    hide Notice, CommandOf, ValidNick;
    if Speaks(s, a, "System") {
      assert GoodSlot(s, s.slots[a.slot]);
      SystemIsNoNick();
    }
  }
}
