/**
 The server as the program keeps it: one table of slots that every operation updates in place.  Each method is
 proved to have the effect of the function of the same step in `ChatServer`.
 */
module ChatServerState {
  import opened Common
  import opened CText
  import opened JsonLines
  import opened ChatServer
  import opened ChatInvariants
  import opened ChatRuns
  import ChatConnections
  import ChatLines
  import ChatTheorems
  import Transport
  import RateLimit
  import Tokens

  // ---------------------------------------------------------------------------------------------
  // Buffers
  // ---------------------------------------------------------------------------------------------

  /** Up to the first NUL a buffer does not depend on what follows. */
  lemma {:induction false} CStrOfPrefix(b: seq<char>, n: nat)
    requires n < |b| && b[n] == NUL
    ensures CStr(b) == CStr(b[..n]) && NUL in b
  {
    if n > 0 && b[0] != NUL {
      assert b[..n][1..] == b[1..][..n - 1];
      CStrOfPrefix(b[1..], n - 1);
    }
  }

  method StringLength(str: array<char>) returns (n: nat)
    requires NUL in str[..]
    ensures n == |CStr(str[..])| && n < str.Length && str[n] == NUL
  {
    n := 0;
    HeldByCStr(str[..]);
    while str[n] != NUL
      invariant n <= |CStr(str[..])|
      decreases |CStr(str[..])| - n
    {
      n := n + 1;
    }
  }

  /** The handler's part between reading and dispatch; the command is nothing for a blank line. */
  method TakeCommand(buffer: array<char>, bytes_read: nat) returns (command: string)
    requires 0 < bytes_read < buffer.Length && buffer[bytes_read] == NUL
    modifies buffer
    ensures command == CommandOf(old(buffer[..bytes_read]))
  {
    CStrOfPrefix(buffer[..], bytes_read);
    assert buffer[..][..bytes_read] == buffer[..bytes_read];
    ghost var clean := Sanitized(CStr(buffer[..bytes_read]));
    SanitizeInput(buffer);
    var n := StringLength(buffer);
    assert CStr(buffer[..]) == clean == buffer[..n];
    command := CommandIn(buffer, n, clean);
  }

  /** Blank lines give no command; a newline at the end is overwritten. */
  method CommandIn(buffer: array<char>, length: nat, ghost clean: string) returns (command: string)
    requires length < buffer.Length && buffer[..length] == clean
    modifies buffer
    ensures command == if clean == "" || clean[0] == '\n' then "" else StripNewline(clean)
  {
    if length == 0 || buffer[0] == '\n' {
      return "";
    }
    var n := length;
    if buffer[n - 1] == '\n' {
      buffer[n - 1] := NUL;
      n := n - 1;
    }
    command := buffer[..n];
    assert command == clean[..n];
  }

  function OnlineOpening(): string {
    "{\"type\":\"online\",\"users\":["
  }

  /** The full list, without its end, as it stands after some slots. */
  function OnlineText(slots: seq<Slot>): string {
    OnlineOpening() + Elements(OnlineNicks(slots))
  }

  function OnlineEntry(nick: string, first: bool): string {
    (if first then "" else ",") + Quoted(nick)
  }

  lemma {:induction false} ElementsAppend(elems: seq<string>, e: string)
    ensures Elements(elems + [e]) == (if elems == [] then "" else Elements(elems) + ",") + Quoted(e)
    decreases |elems|
  {
    if elems == [] {
      assert elems + [e] == [e];
    } else {
      var rest := elems[1..];
      assert (elems + [e])[0] == elems[0] && (elems + [e])[1..] == rest + [e];
      ElementsAppend(rest, e);
      if rest == [] {
        assert elems == [elems[0]];
      } else {
        assert Elements(elems + [e]) == Quoted(elems[0]) + "," + (Elements(rest) + "," + Quoted(e));
      }
    }
  }

  lemma OnlineTextStep(slots: seq<Slot>, k: nat)
    requires k < |slots|
    ensures OnlineText(slots[..k + 1]) ==
      if IsOnline(slots[k]) then OnlineText(slots[..k]) + OnlineEntry(slots[k].nick, OnlineNicks(slots[..k]) == [])
      else OnlineText(slots[..k])
  {
    hide OnlineOpening;
    assert slots[..k + 1][..k] == slots[..k];
    var nicks, nick := OnlineNicks(slots[..k]), slots[k].nick;
    ElementsAppend(nicks, nick);
    assert slots[..k + 1][k] == slots[k] && nicks + [] == nicks;
    assert OnlineNicks(slots[..k + 1]) == nicks + if IsOnline(slots[k]) then [nick] else [];
    if nicks == [] {
      assert OnlineOpening() + "" == OnlineOpening();
    } else {
      assert OnlineOpening() + (Elements(nicks) + "," + Quoted(nick)) == OnlineText(slots[..k]) + ("," + Quoted(nick));
    }
  }

  lemma OnlineLineIs(slots: seq<Slot>)
    ensures Line(OnlinePairs(slots)) == OnlineText(slots) + "]}\n"
  {
    hide OnlineOpening;
    var pairs, nicks := OnlinePairs(slots), Elements(OnlineNicks(slots));
    assert pairs[..1] == [pairs[0]] && pairs[..1][1..] == [];
    OpeningIs(pairs[0], nicks);
    assert PairText(pairs[1]) == Quoted("users") + ":" + ("[" + nicks + "]");
    assert Heads(pairs[..1]) == PairText(pairs[0]) + ",";
    LineOfTwo(pairs, nicks);
  }

  lemma LineOfTwo(pairs: seq<Pair>, nicks: string)
    requires |pairs| == 2 && pairs[1] == ("users", pairs[1].1) && pairs[1].1.JArr?
    requires Elements(pairs[1].1.elems) == nicks
    ensures Line(pairs) == "{" + Heads(pairs[..1]) + (Quoted("users") + ":") + "[" + nicks + "]}\n"
  {
    var head, key := "{" + Heads(pairs[..1]), Quoted("users") + ":";
    assert PairText(pairs[1]) == key + ("[" + nicks + "]");
    assert "]" + "}\n" == "]}\n";
    assert head + (key + ("[" + nicks + "]")) + "}\n" == head + key + "[" + nicks + ("]" + "}\n");
  }

  lemma OpeningIs(p: Pair, nicks: string)
    requires p == ("type", JStr("online"))
    ensures "{" + (PairText(p) + ",") + (Quoted("users") + ":") + "[" == OnlineOpening()
  {}

  method Append(list: array<char>, text: string, ghost all: string)
    requires list.Length == BUFFER_SIZE && NUL in list[..] && NUL !in text
    requires CStr(list[..]) == Cut(all, BUFFER_SIZE - 1)
    modifies list
    ensures NUL in list[..] && CStr(list[..]) == Cut(all + text, BUFFER_SIZE - 1)
  {
    var n := StringLength(list);
    StrNCat(list, text, BUFFER_SIZE - n - 1);
    CutOfConcat(Cut(all, BUFFER_SIZE - 1), text, BUFFER_SIZE - 1);
    CutOfConcat(all, text, BUFFER_SIZE - 1);
  }

  /** `validate_nickname`; the scan before it leaves at most 31 characters. */
  method ValidateNickname(nick: string) returns (valid: bool)
    requires |nick| <= MAX_NICK_LENGTH
    ensures valid == ValidNick(nick)
  {
    if |nick| < 3 {
      return false;
    }
    for i := 0 to |nick|
      invariant forall k :: 0 <= k < i ==> NickChar(nick[k])
    {
      if !NickChar(nick[i]) {
        assert nick[i] in nick;
        return false;
      }
    }
    assert forall c :: c in nick ==> NickChar(c);
    for i := 0 to |FORBIDDEN|
      invariant Lower(nick) !in FORBIDDEN[..i]
    {
      if Lower(nick) == FORBIDDEN[i] {
        return false;
      }
    }
    assert FORBIDDEN[..|FORBIDDEN|] == FORBIDDEN;
    return true;
  }

  ghost predicate NicksAreStrings(slots: seq<Slot>) {
    forall k :: 0 <= k < |slots| && slots[k].authorized ==> NUL !in slots[k].nick
  }

  lemma NicksHoldNoNul(s: Server)
    requires Inv(s)
    ensures NicksAreStrings(s.slots)
  {
    forall k | 0 <= k < |s.slots| && s.slots[k].authorized
      ensures NUL !in s.slots[k].nick
    {
      assert GoodSlot(s, s.slots[k]);
      ChatLines.NickIsSafe(s.slots[k].nick);
    }
  }

  lemma NoEntries(slots: seq<Slot>)
    requires slots == []
    ensures OnlineText(slots) == OnlineOpening()
  {}

  lemma LengthIs(b: seq<char>, n: nat)
    requires n == |CStr(b)|
    ensures b[..n] == CStr(b)
  {}

  lemma PrintedIs(pairs: seq<Pair>)
    requires pairs != []
    ensures Printed(pairs) == Cut(Line(pairs), BUFFER_SIZE - 1)
  {}

  method StartList() returns (list: array<char>)
    ensures fresh(list) && list.Length == BUFFER_SIZE && NUL in list[..]
    ensures CStr(list[..]) == Cut(OnlineOpening(), BUFFER_SIZE - 1)
  {
    hide OnlineOpening;
    list := new char[BUFFER_SIZE](_ => NUL);
    assert list[0] == NUL;
    OpeningHasNoNul();
    Append(list, OnlineOpening(), "");
    assert "" + OnlineOpening() == OnlineOpening();
  }

  lemma OpeningHasNoNul()
    ensures NUL !in OnlineOpening()
  {}

  /** One entry of the online list. */
  method AppendNick(list: array<char>, nick: string, first: bool, ghost all: string)
    requires list.Length == BUFFER_SIZE && NUL in list[..] && NUL !in nick
    requires CStr(list[..]) == Cut(all, BUFFER_SIZE - 1)
    modifies list
    ensures NUL in list[..] && CStr(list[..]) == Cut(all + OnlineEntry(nick, first), BUFFER_SIZE - 1)
  {
    hide Cut, CStr, Quoted;
    if first {
      AppendQuoted(list, nick, all);
      assert OnlineEntry(nick, first) == Quoted(nick);
    } else {
      Append(list, ",", all);
      AppendQuoted(list, nick, all + ",");
      assert all + "," + Quoted(nick) == all + OnlineEntry(nick, first);
    }
  }

  method AppendQuoted(list: array<char>, nick: string, ghost all: string)
    requires list.Length == BUFFER_SIZE && NUL in list[..] && NUL !in nick
    requires CStr(list[..]) == Cut(all, BUFFER_SIZE - 1)
    modifies list
    ensures NUL in list[..] && CStr(list[..]) == Cut(all + Quoted(nick), BUFFER_SIZE - 1)
  {
    hide Cut, CStr;
    Append(list, "\"", all);
    Append(list, nick, all + "\"");
    Append(list, "\"", all + "\"" + nick);
    assert all + "\"" + nick + "\"" == all + Quoted(nick);
  }

  method AppendEnd(list: array<char>, ghost all: string)
    requires list.Length == BUFFER_SIZE && NUL in list[..] && CStr(list[..]) == Cut(all, BUFFER_SIZE - 1)
    modifies list
    ensures NUL in list[..] && CStr(list[..]) == Cut(all + "]}\n", BUFFER_SIZE - 1)
  {
    Append(list, "]}\n", all);
  }

  // ---------------------------------------------------------------------------------------------
  // The server
  // ---------------------------------------------------------------------------------------------

  class SecureServer {
    const clients: array<Slot>
    var users: map<string, Account>
    var out: map<Conn, string>
    var open: set<int>
    var granted: map<Conn, string>
    var next: Conn

    ghost function State(): Server
      reads this, clients
    {
      Server(clients[..], users, out, open, granted, next)
    }

    ghost predicate Valid()
      reads this, clients
    {
      clients.Length == MAX_CLIENTS && Inv(State())
    }

    constructor ()
      ensures fresh(clients) && Valid() && State() == Initial()
    {
      clients := new Slot[MAX_CLIENTS](_ => FREE_SLOT);
      users, out, open, granted, next := map[], map[], {}, map[], 0;
      new;
      assert clients[..] == Initial().slots;
      InitialInv();
    }

    /** `ssl_safe_write` of a whole text; a slot without a connection gets nothing. */
    method Send(i: nat, text: string)
      requires i < clients.Length
      modifies this`out
      ensures State() == WriteSlot(old(State()), i, text)
    {
      if clients[i].ssl.Some? {
        var c := clients[i].ssl.value;
        out := out[c := (if c in out then out[c] else "") + text];
      }
    }

    method FindClientByNick(nick: string) returns (r: Option<nat>)
      ensures r == FindOnline(clients[..], nick)
    {
      for i := 0 to clients.Length
        invariant forall k :: 0 <= k < i ==> !(IsOnline(clients[k]) && clients[k].nick == nick)
      {
        if clients[i].fd >= 0 && clients[i].authorized && clients[i].nick == nick {
          return Some(i);
        }
      }
      return None;
    }

    method BroadcastMessage(sender: string, message: string)
      modifies this`out
      ensures State() == Broadcast(old(State()), sender, message)
    {
      var line := Printed([("type", JStr("message")), ("from", JStr(sender))] + [("text", JStr(message))]);
      for i := 0 to clients.Length
        invariant State() == WriteOnline(old(State()), line, i)
      {
        if clients[i].fd >= 0 && clients[i].authorized {
          Send(i, line);
        }
      }
    }

    method SendPrivateMessage(from: string, to: string, message: string)
      modifies this`out
      ensures State() == SendPrivate(old(State()), from, to, message)
    {
      var target := FindClientByNick(to);
      if target == None {
        return;
      }
      var line := Printed(PrivateHeads(from, to) + [("text", JStr(message))]);
      if clients[target.value].fd >= 0 && clients[target.value].authorized {
        Send(target.value, line);
      }
    }

    method SendEncryptedMessage(from: string, to: string, cipher: Option<string>)
      modifies this`out
      ensures State() == SendEncrypted(old(State()), from, to, cipher)
    {
      if cipher == None {
        return;
      }
      var line := Printed(
        [("type", JStr("encrypted")), ("from", JStr(from)), ("to", JStr(to))] + [("data", JStr(cipher.value))]);
      var target := FindClientByNick(to);
      if target != None {
        Send(target.value, line);
      }
    }

    /** Whatever the table holds, the list is the beginning of the full list, as far as the buffer goes. */
    method SendOnlineUsers(i: nat)
      requires i < clients.Length && NicksAreStrings(clients[..])
      modifies this`out
      ensures State() == WriteSlot(old(State()), i, Printed(OnlinePairs(clients[..])))
    {
      hide OnlineOpening, OnlineText, OnlineEntry, Printed, Line, Cut, CStr;
      var list := StartList();
      var first := true;
      assert OnlineText(clients[..0]) == OnlineOpening() by { NoEntries(clients[..0]); }
      for k := 0 to clients.Length
        invariant out == old(out) && list.Length == BUFFER_SIZE && NUL in list[..] && (first <==> OnlineNicks(clients[..k]) == [])
        invariant CStr(list[..]) == Cut(OnlineText(clients[..k]), BUFFER_SIZE - 1)
      {
        OnlineTextStep(clients[..], k);
        assert clients[..][..k] == clients[..k] && clients[..][..k + 1] == clients[..k + 1];
        assert clients[..k + 1][..k] == clients[..k];
        if clients[k].fd >= 0 && clients[k].authorized {
          AppendNick(list, clients[k].nick, first, OnlineText(clients[..k]));
          first := false;
        }
      }
      assert clients[..clients.Length] == clients[..];
      AppendEnd(list, OnlineText(clients[..]));
      OnlineLineIs(clients[..]);
      var n := StringLength(list);
      assert list[..n] == CStr(list[..]) by { LengthIs(list[..], n); }
      PrintedIs(OnlinePairs(clients[..]));
      Send(i, list[..n]);
    }

    // -----------------------------------------------------------------------------------------
    // Commands
    // -----------------------------------------------------------------------------------------

    method CheckNicknameExists(nick: string, query: bool) returns (exists_: bool)
      ensures exists_ <==> query && Lower(nick) in users
    {
      exists_ := query && Lower(nick) in users;
    }

    /** The table refuses a nick or a token that is there already. */
    method SaveUser(a: Account, insert: bool) returns (ok: bool)
      modifies this`users
      ensures ok <==> insert && Lower(a.nick) !in old(users) && !TokenUsed(old(users), a.token)
      ensures users == if ok then old(users)[Lower(a.nick) := a] else old(users)
    {
      ok := insert && Lower(a.nick) !in users && !TokenUsed(users, a.token);
      if ok {
        users := users[Lower(a.nick) := a];
      }
    }

    method ProcessRegistration(i: nat, command: string, env: Env)
      requires i < clients.Length && "/register" <= command
      modifies this`users, this`out
      ensures State() == Register(old(State()), i, command, env)
    {
      var nick := ScanWord(SkipSpaces(command[9..]), 31);
      var valid := ValidateNickname(nick);
      if !valid {
        Send(i, Line(ResultPairs("register", "Invalid nickname")));
        return;
      }
      var taken := CheckNicknameExists(nick, env.query);
      if taken {
        Send(i, Line(ResultPairs("register", "Nickname already exists")));
        return;
      }
      if env.random.None? {
        return;
      }
      var token := Tokens.Token(env.random.value);
      var saved := SaveUser(Account(nick, token, clients[i].security_level), env.insert);
      if saved {
        Send(i, Line(RegisteredPairs(nick, token, clients[i].security_level)));
      } else {
        Send(i, Line(ResultPairs("register", "Database error")));
      }
    }

    method AuthenticateUser(i: nat, nick: string, token: string, query: bool) returns (ok: bool)
      requires i < clients.Length
      modifies clients
      ensures ok <==> query && Accepts(users, nick, token)
      ensures clients[..] == if ok
        then old(clients[..])[i := old(clients[i]).(security_level := users[Lower(nick)].security_level)]
        else old(clients[..])
    {
      ok := false;
      if query && Lower(nick) in users && token <= users[Lower(nick)].token {
        ok := true;
        clients[i] := clients[i].(security_level := users[Lower(nick)].security_level);
      }
    }

    method ProcessLogin(i: nat, command: string, env: Env)
      requires i < clients.Length && clients[i].ssl.Some? && "/login" <= command
      modifies this`out, this`granted, clients
      ensures State() == Login(old(State()), i, command, env)
    {
      var (nick, token) := LoginWords(command);
      if nick == "" || token == "" {
        return;
      }
      var ok := AuthenticateUser(i, nick, token, env.query);
      if ok {
        clients[i] := clients[i].(nick := nick);
        clients[i] := clients[i].(token := token);
        clients[i] := clients[i].(authorized := true);
        granted := granted[clients[i].ssl.value := nick];
        assert State() == Authorize(old(State()), i, nick, token, users[Lower(nick)].security_level);
        Send(i, Line(LoginPairs(nick, clients[i].session_id)));
        BroadcastMessage("System", "User " + nick + " joined the secure network");
      } else {
        Send(i, Line(ResultPairs("login", "Invalid credentials")));
      }
    }

    method HandleUnauthorizedCommands(i: nat, command: string, env: Env)
      requires i < clients.Length && clients[i].ssl.Some?
      modifies this, clients
      ensures State() == Unauthorized(old(State()), i, command, env)
    {
      if "/register" <= command {
        ProcessRegistration(i, command, env);
      } else if "/login" <= command {
        ProcessLogin(i, command, env);
      } else if "/help" <= command {
        Send(i, Line(HelpPairs(HELP_COMMANDS)));
      } else {
        Send(i, Line(ErrorPairs("Authentication required")));
      }
    }

    method HandleAuthorizedCommands(i: nat, command: string, env: Env)
      requires i < clients.Length && NicksAreStrings(clients[..])
      modifies this`out
      ensures State() == Authorized(old(State()), i, command, env)
    {
      var nick := clients[i].nick;
      if command == "/online" {
        SendOnlineUsers(i);
      } else if "/msg" <= command {
        var (to, text) := MessageWords(command[4..]);
        if to != "" && text != "" {
          SendPrivateMessage(nick, to, text);
        }
      } else if "/send_enc" <= command {
        var (to, text) := MessageWords(command[9..]);
        if to != "" && text != "" {
          SendEncryptedMessage(nick, to, env.cipher);
        }
      } else if command != "" {
        BroadcastMessage(nick, command);
      }
    }

    /** The rate limiter as it stands inlined in the handler. */
    method AdmitRequest(i: nat, now: int) returns (ok: bool)
      requires i < clients.Length
      modifies clients
      ensures clients[..] == old(clients[..])[i := Touched(old(clients[i]), now)]
      ensures ok == RateLimit.Admit(old(clients[i]).limit, now).1
    {
      clients[i] := clients[i].(last_activity := now);
      if now - clients[i].limit.window_start > RateLimit.RATE_LIMIT_WINDOW {
        clients[i] := clients[i].(limit := RateLimit.Limiter(now, 0));
      }
      if clients[i].limit.count >= RateLimit.MAX_RATE_LIMIT {
        return false;
      }
      clients[i] := clients[i].(limit := clients[i].limit.(count := clients[i].limit.count + 1));
      return true;
    }

    /** One turn of the handler's loop, with `bytes_read` characters in its buffer. */
    method HandlerTurn(i: nat, buffer: array<char>, bytes_read: nat, env: Env)
      requires Valid() && ValidEnv(env) && i < clients.Length && clients[i].fd >= 0
      requires 0 < bytes_read < buffer.Length && buffer[bytes_read] == NUL
      modifies this, clients, buffer
      ensures Valid() && State() == Input(old(State()), i, old(buffer[..bytes_read]), env)
    {
      ghost var s, raw := State(), buffer[..bytes_read];
      InputKeeps(s, i, raw, env);
      NicksHoldNoNul(s);
      assert GoodSlot(s, s.slots[i]);
      var ok := AdmitRequest(i, env.now);
      ghost var s1 := s.(slots := s.slots[i := Touched(s.slots[i], env.now)]);
      assert State() == s1;
      if !ok {
        Send(i, Line(ErrorPairs("Rate limit exceeded")));
        return;
      }
      var command := TakeCommand(buffer, bytes_read);
      if command == "" {
        return;
      }
      if !clients[i].authorized {
        HandleUnauthorizedCommands(i, command, env);
      } else {
        HandleAuthorizedCommands(i, command, env);
      }
    }

    /**
     One turn of the handler with its read: `script` is what the transport will deliver.  `again` is false when
     the handler leaves its loop.  A connection that ended reads as a time-out without input.
     */
    method HandlerStep(i: nat, selected: int, buffer: array<char>, script: seq<Transport.ReadResult>, env: Env)
      returns (again: bool, rest: seq<Transport.ReadResult>)
      requires Valid() && ValidEnv(env) && i < clients.Length
      requires buffer.Length == BUFFER_SIZE && Transport.NoEmptyRecords(script)
      modifies this, clients, buffer
      ensures Valid()
      ensures var (got, left) := if selected > 0 && Live(old(clients[i])) then Transport.Received(script, BUFFER_SIZE - 1) else ("", script);
        && State() == Input(old(State()), i, got, env) && rest == left
        && (again <==> Live(old(clients[i])) && (got == "" ==> env.now - old(clients[i]).last_activity <= CONNECTION_TIMEOUT))
    {
      if clients[i].fd < 0 {
        return false, script;
      }
      var ret;
      ret, rest := Transport.SafeRead(clients[i].fd, selected, buffer, BUFFER_SIZE, script);
      if ret == 0 {
        return env.now - clients[i].last_activity <= CONNECTION_TIMEOUT, rest;
      }
      HandlerTurn(i, buffer, ret, env);
      again := true;
    }

    // -----------------------------------------------------------------------------------------
    // Connections
    // -----------------------------------------------------------------------------------------

    /** `fd` is what `accept` returned: negative, or a descriptor that was not open. */
    method HandleNewConnection(fd: int, handshake: bool, now: int)
      requires Valid() && fd !in open
      modifies this, clients
      ensures Valid()
      ensures State() == if fd < 0 then old(State()) else Accept(old(State()), fd, handshake, now)
      ensures fd >= 0 && handshake ==> forall k :: ChatConnections.IsFirstFree(old(clients[..]), k) ==>
        ChatConnections.NowConnected(old(State()), State(), k, fd, now)
      ensures fd < 0 || !handshake || ChatConnections.Full(old(clients[..])) ==> State() == old(State())
    {
      hide Inv;
      if fd < 0 {
        return;
      }
      ChatConnections.AcceptTakesFirstFree(State(), fd, handshake, now);
      AcceptKeeps(State(), fd, handshake, now);
      ghost var was := open;
      open := open + {fd};
      var client_index := FindFreeSlot();
      if client_index == None || !handshake {
        open := open - {fd};
        assert open == was;
        return;
      }
      clients[client_index.value] := Slot(fd, Some(next), "", "", false, now, RateLimit.Limiter(now, 0), 0, 1, {});
      next := next + 1;
    }

    method FindFreeSlot() returns (r: Option<nat>)
      ensures r == FirstFree(clients[..])
    {
      for i := 0 to clients.Length
        invariant forall k :: 0 <= k < i ==> clients[k].fd >= 0
      {
        if clients[i].fd < 0 {
          return Some(i);
        }
      }
      return None;
    }

    method StartHandler(i: nat, session: nat)
      requires Valid() && i < clients.Length
      modifies this`out, clients
      ensures Valid() && State() == Greet(old(State()), i, session)
    {
      GreetKeeps(State(), i, session);
      hide Inv;
      if clients[i].fd >= 0 {
        clients[i] := clients[i].(keys := clients[i].keys + HANDLER_KEYS);
        clients[i] := clients[i].(session_id := session);
        assert clients[..] == old(clients[..])[i := Greeted(old(clients[i]), session)];
        Send(i, Line(WELCOME));
      }
    }

    method CleanupClientResources(i: nat)
      requires i < clients.Length
      modifies this`open, clients
      ensures State() == Cleanup(old(State()), i)
    {
      clients[i] := clients[i].(ssl := None);
      if clients[i].fd >= 0 {
        open := open - {clients[i].fd};
        clients[i] := clients[i].(fd := -1);
      }
      clients[i] := clients[i].(nick := "", token := "", keys := clients[i].keys - CLEANUP_KEYS);
      clients[i] := clients[i].(authorized := false);
    }

    /** The end of a handler. */
    method FinishHandler(i: nat)
      requires Valid() && i < clients.Length
      modifies this`out, this`open, clients
      ensures Valid() && State() == Exit(old(State()), i) && ChatConnections.NowFreed(old(State()), State(), i)
    {
      ExitKeeps(State(), i);
      ChatConnections.ExitFrees(State(), i);
      BroadcastOnlyWrites(State(), "System", "User " + clients[i].nick + " disconnected");
      if clients[i].authorized {
        BroadcastMessage("System", "User " + clients[i].nick + " disconnected");
      }
      CleanupClientResources(i);
    }

    /** `disconnect_client`. */
    method DisconnectClient(i: nat)
      requires Valid() && i < clients.Length
      modifies this`open, clients
      ensures Valid() && State() == Disconnect(old(State()), i)
      ensures Live(old(clients[i])) ==> ChatConnections.NowFreed(old(State()), State(), i)
    {
      if clients[i].fd < 0 {
        return;
      }
      DisconnectKeeps(State(), i);
      ChatConnections.DisconnectFrees(State(), i);
      hide Inv;
      open := open - {clients[i].fd};
      clients[i] := clients[i].(fd := -1);
      clients[i] := clients[i].(ssl := None);
      clients[i] := clients[i].(authorized := false);
      clients[i] := clients[i].(nick := "", token := "", keys := clients[i].keys - DISCONNECT_KEYS);
      assert clients[..] == old(clients[..])[i := clients[i]];
      assert clients[i] == Disconnect(old(State()), i).slots[i];
    }

    method CheckClientTimeouts(now: int)
      requires Valid()
      modifies this`open, clients
      ensures Valid() && State() == Sweep(old(State()), now, clients.Length)
      ensures forall k :: 0 <= k < clients.Length ==>
        clients[k] == if TimedOut(old(clients[k]), now) then old(clients[k]).(fd := -1) else old(clients[k])
    {
      ghost var s := State();
      hide Inv;
      SweepKeeps(State(), now, clients.Length);
      for i := 0 to clients.Length
        invariant State() == Sweep(old(State()), now, i)
      {
        if clients[i].fd >= 0 {
          if now - clients[i].last_activity > CONNECTION_TIMEOUT {
            open := open - {clients[i].fd};
            clients[i] := clients[i].(fd := -1);
          }
        }
      }
      ChatTheorems.SweepSlots(s, now, clients.Length);
      assert clients[..] == State().slots && s.slots == old(clients[..]);
    }
  }
}
