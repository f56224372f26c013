/**
 Server and clients together: steps, runs, and what holds in every reachable state.
 */
module ChatRuns {
  import opened Common
  import opened CText
  import opened JsonLines
  import opened LineStream
  import opened ChatServer
  import opened ChatInvariants
  import RateLimit

  // ---------------------------------------------------------------------------------------------
  // The other steps of the server
  // ---------------------------------------------------------------------------------------------

  lemma UnauthorizedKeeps(s: Server, i: nat, command: string, env: Env)
    requires Inv(s) && ValidEnv(env) && i < |s.slots| && Live(s.slots[i]) && !s.slots[i].authorized
    ensures GoodSlot(s, s.slots[i])
    ensures Inv(Unauthorized(s, i, command, env))
  {
    assert GoodSlot(s, s.slots[i]);
    if "/register" <= command {
      RegisterKeeps(s, i, command, env);
    } else if "/login" <= command {
      LoginKeeps(s, i, command, env);
    } else if "/help" <= command {
      HelpCommandsArePlain();
      HelpIsWhole(HELP_COMMANDS);
      WriteSlotKeeps(s, i, Line(HelpPairs(HELP_COMMANDS)));
    } else {
      ErrorIsWhole("Authentication required");
      WriteSlotKeeps(s, i, Line(ErrorPairs("Authentication required")));
    }
  }

  /** Fields that neither identify the connection nor the user do not matter. */
  lemma TouchKeeps(s: Server, i: nat, slot: Slot)
    requires Inv(s) && i < |s.slots|
    requires var old_ := s.slots[i];
      slot.fd == old_.fd && slot.ssl == old_.ssl && slot.nick == old_.nick && slot.authorized == old_.authorized
    ensures Inv(s.(slots := s.slots[i := slot]))
  {
    hide DescriptorsMatch, GoodStreams, GoodAccount;
    var s1 := s.(slots := s.slots[i := slot]);
    TouchedSlots(s, i, slot);
    SameDescriptors(s, s1);
    StreamsStay(s, s1);
  }

  lemma TouchedSlots(s: Server, i: nat, slot: Slot)
    requires GoodSlots(s) && i < |s.slots|
    requires var old_ := s.slots[i];
      slot.fd == old_.fd && slot.ssl == old_.ssl && slot.nick == old_.nick && slot.authorized == old_.authorized
    ensures GoodSlots(s.(slots := s.slots[i := slot]))
  {
    hide ValidNick;
    var s1 := s.(slots := s.slots[i := slot]);
    forall j | 0 <= j < |s1.slots|
      ensures GoodSlot(s1, s1.slots[j])
    {
      assert GoodSlot(s, s.slots[j]);
    }
  }

  lemma CommandIsUnquoted(raw: string)
    ensures Unquoted(CommandOf(raw))
  {
    SanitizedIsSafe(CStr(raw));
    forall c | c in CommandOf(raw)
      ensures c != '"' && c != '\\'
    {
      assert c in Sanitized(CStr(raw));
      assert !Unsafe(c);
    }
  }

  /** The slot after the clock and the rate limiter have been updated. */
  function Touched(slot: Slot, now: int): Slot {
    slot.(last_activity := now, limit := RateLimit.Admit(slot.limit, now).0)
  }

  lemma InputKeeps(s: Server, i: nat, raw: string, env: Env)
    requires Inv(s) && ValidEnv(env) && i < |s.slots|
    ensures Inv(Input(s, i, raw, env))
  {
    hide Inv, Line, CommandOf, Authorized, Unauthorized, RateLimit.Admit;
    var slot := s.slots[i];
    if slot.fd >= 0 && slot.ssl.Some? && raw != "" {
      TouchKeeps(s, i, Touched(slot, env.now));
      var s1 := s.(slots := s.slots[i := Touched(slot, env.now)]);
      var command := CommandOf(raw);
      if !RateLimit.Admit(slot.limit, env.now).1 {
        ErrorIsWhole("Rate limit exceeded");
        WriteSlotKeeps(s1, i, Line(ErrorPairs("Rate limit exceeded")));
      } else if command != "" {
        CommandIsUnquoted(raw);
        if slot.authorized {
          AuthorizedKeeps(s1, i, command, env);
        } else {
          UnauthorizedKeeps(s1, i, command, env);
        }
      }
    }
  }

  lemma GreetKeeps(s: Server, i: nat, session: nat)
    requires Inv(s) && i < |s.slots|
    ensures Inv(Greet(s, i, session))
  {
    if s.slots[i].fd >= 0 {
      var slot := Greeted(s.slots[i], session);
      TouchKeeps(s, i, slot);
      WelcomeIsWhole();
      WriteSlotKeeps(s.(slots := s.slots[i := slot]), i, Line(WELCOME));
    }
  }

  // ---------------------------------------------------------------------------------------------
  // Descriptors
  // ---------------------------------------------------------------------------------------------

  /** A free slot takes a descriptor that was not open. */
  lemma OpenDescriptor(s: Server, i: nat, slot: Slot)
    requires DescriptorsMatch(s) && i < |s.slots| && !Live(s.slots[i]) && Live(slot) && slot.fd !in s.open
    ensures DescriptorsMatch(s.(slots := s.slots[i := slot], open := s.open + {slot.fd}))
  {
    var s1 := s.(slots := s.slots[i := slot], open := s.open + {slot.fd});
    assert Live(s1.slots[i]) && s1.slots[i].fd == slot.fd;
    forall f | f in s.open
      ensures exists k :: 0 <= k < |s1.slots| && Live(s1.slots[k]) && s1.slots[k].fd == f
    {
      var k :| 0 <= k < |s.slots| && Live(s.slots[k]) && s.slots[k].fd == f;
      assert Live(s1.slots[k]) && s1.slots[k].fd == f;
    }
  }

  lemma AcceptDescriptors(s: Server, fd: int, handshake: bool, now: int)
    requires DescriptorsMatch(s) && 0 <= fd && fd !in s.open
    ensures DescriptorsMatch(Accept(s, fd, handshake, now))
  {
    hide FirstFree, DescriptorsMatch;
    var r, s1 := FirstFree(s.slots), Accept(s, fd, handshake, now);
    if r.Some? && handshake {
      OpenDescriptor(s, r.value, s1.slots[r.value]);
      assert s1.slots == s.slots[r.value := s1.slots[r.value]];
      SameDescriptors(s.(slots := s1.slots, open := s1.open), s1);
    }
  }

  /** Closing the descriptor of a slot, and nothing else, keeps the match; the descriptor was open. */
  lemma CloseDescriptor(s: Server, i: nat, slot: Slot)
    requires DescriptorsMatch(s) && i < |s.slots| && Live(s.slots[i]) && !Live(slot)
    ensures s.slots[i].fd in s.open
    ensures DescriptorsMatch(s.(slots := s.slots[i := slot], open := s.open - {s.slots[i].fd}))
  {
    var s1 := s.(slots := s.slots[i := slot], open := s.open - {s.slots[i].fd});
    forall fd | fd in s1.open
      ensures exists k :: 0 <= k < |s1.slots| && Live(s1.slots[k]) && s1.slots[k].fd == fd
    {
      var k :| 0 <= k < |s.slots| && Live(s.slots[k]) && s.slots[k].fd == fd;
      assert Live(s1.slots[k]) && s1.slots[k].fd == fd;
    }
  }

  lemma AcceptSlots(s: Server, fd: int, now: int)
    requires GoodSlots(s) && 0 <= fd
    ensures GoodSlots(Accept(s, fd, true, now))
  {
    hide FirstFree;
    var s1 := Accept(s, fd, true, now);
    forall j | 0 <= j < |s1.slots|
      ensures GoodSlot(s1, s1.slots[j])
    {
      assert GoodSlot(s, s.slots[j]);
    }
    forall i, j | 0 <= i < j < |s1.slots| && Live(s1.slots[i]) && Live(s1.slots[j])
      ensures s1.slots[i].ssl != s1.slots[j].ssl
    {
      assert GoodSlot(s, s.slots[i]) && GoodSlot(s, s.slots[j]);
    }
  }

  lemma AcceptKeeps(s: Server, fd: int, handshake: bool, now: int)
    requires Inv(s) && 0 <= fd && fd !in s.open
    ensures Inv(Accept(s, fd, handshake, now))
  {
    hide DescriptorsMatch, GoodSlots, GoodStreams, FirstFree;
    AcceptDescriptors(s, fd, handshake, now);
    AcceptSlots(s, fd, now);
    StreamsStay(s, Accept(s, fd, handshake, now));
  }

  lemma StreamsStay(s: Server, s1: Server)
    requires GoodStreams(s) && s1.out == s.out && s1.granted == s.granted && s.next <= s1.next
    ensures GoodStreams(s1)
  {
    forall c | c in s1.out
      ensures GoodStream(s1, c, s1.out[c])
    {
      assert GoodStream(s, c, s.out[c]);
    }
  }

  /** A slot that is no longer live, whatever it still holds of its user. */
  lemma ClosedSlotKeeps(s: Server, i: nat, slot: Slot)
    requires Inv(s) && i < |s.slots| && !Live(slot)
    requires slot.authorized ==> s.slots[i].authorized && slot.nick == s.slots[i].nick
    ensures Inv(s.(slots := s.slots[i := slot], open := if Live(s.slots[i]) then s.open - {s.slots[i].fd} else s.open))
  {
    var s1 := s.(slots := s.slots[i := slot], open := if Live(s.slots[i]) then s.open - {s.slots[i].fd} else s.open);
    if Live(s.slots[i]) {
      CloseDescriptor(s, i, slot);
    } else {
      DeadSlotDescriptors(s, i, slot);
    }
    forall j | 0 <= j < |s1.slots|
      ensures GoodSlot(s1, s1.slots[j])
    {
      assert GoodSlot(s, s.slots[j]);
    }
    StreamsStay(s, s1);
  }

  lemma DeadSlotDescriptors(s: Server, i: nat, slot: Slot)
    requires DescriptorsMatch(s) && i < |s.slots| && !Live(s.slots[i]) && !Live(slot)
    ensures DescriptorsMatch(s.(slots := s.slots[i := slot]))
  {
    var s1 := s.(slots := s.slots[i := slot]);
    forall fd | fd in s1.open
      ensures exists k :: 0 <= k < |s1.slots| && Live(s1.slots[k]) && s1.slots[k].fd == fd
    {
      var k :| 0 <= k < |s.slots| && Live(s.slots[k]) && s.slots[k].fd == fd;
      assert Live(s1.slots[k]) && s1.slots[k].fd == fd;
    }
  }

  lemma CleanupKeeps(s: Server, i: nat)
    requires Inv(s) && i < |s.slots|
    ensures Inv(Cleanup(s, i))
  {
    var slot := s.slots[i];
    var freed := slot.(fd := if slot.fd >= 0 then -1 else slot.fd, ssl := None, nick := "", token := "", authorized := false,
      keys := slot.keys - CLEANUP_KEYS);
    ClosedSlotKeeps(s, i, freed);
  }

  lemma DisconnectKeeps(s: Server, i: nat)
    requires Inv(s) && i < |s.slots|
    ensures Inv(Disconnect(s, i))
  {
    var slot := s.slots[i];
    if slot.fd >= 0 {
      ClosedSlotKeeps(s, i, slot.(fd := -1, ssl := None, nick := "", token := "", authorized := false,
        keys := slot.keys - DISCONNECT_KEYS));
    }
  }

  lemma ExitKeeps(s: Server, i: nat)
    requires Inv(s) && i < |s.slots|
    ensures Inv(Exit(s, i))
  {
    var slot := s.slots[i];
    var s1 := if slot.authorized then Broadcast(s, "System", "User " + slot.nick + " disconnected") else s;
    if slot.authorized {
      assert GoodSlot(s, slot);
      NickIsPlain(slot.nick);
      NoticeKeeps(s, slot.nick);
    }
    CleanupKeeps(s1, i);
  }

  lemma {:induction false} SweepKeeps(s: Server, now: int, n: nat)
    requires Inv(s) && n <= |s.slots|
    ensures Inv(Sweep(s, now, n))
  {
    hide Inv;
    if n > 0 {
      SweepKeeps(s, now, n - 1);
      var s1 := Sweep(s, now, n - 1);
      if TimedOut(s1.slots[n - 1], now) {
        ClosedSlotKeeps(s1, n - 1, s1.slots[n - 1].(fd := -1));
      }
    }
  }

  // ---------------------------------------------------------------------------------------------
  // Clients
  // ---------------------------------------------------------------------------------------------

  /** A chat client: `m_loggedIn`, `m_nick`, and the connection its socket is on. */
  datatype Client = Client(conn: Option<Conn>, logged_in: bool, nick: string)

  const NEW_CLIENT: Client := Client(None, false, "")

  datatype System = System(server: Server, clients: map<nat, Client>)

  datatype Action =
    | Connect(client: nat, fd: int, handshake: bool, now: int)
    | Welcome(slot: nat, session: nat)
    | Turn(slot: nat, raw: string, env: Env)
    | End(slot: nat)
    | Drop(slot: nat)
    | Timeouts(now: int)
    | ReadLine(client: nat)
    | Leave(client: nat)
    | Gone(client: nat)

  function ClientOf(s: System, k: nat): Client {
    if k in s.clients then s.clients[k] else NEW_CLIENT
  }

  /** `onReadyRead` on one line. */
  function Heard(client: Client, e: Event): Client {
    if e.LoginOk? then client.(logged_in := true, nick := e.nick) else client
  }

  /** A client without a connection connects; `fd` is what the kernel would hand out. */
  function Connected(s: System, k: nat, server: Server): System {
    if server.next == s.server.next then s
    else System(server, s.clients[k := ClientOf(s, k).(conn := Some(s.server.next))])
  }

  /** The client takes `n` characters and a newline from what was written to its connection. */
  function TakeLine(s: System, k: nat, c: Conn, n: nat): System
    requires n < |Sent(s.server, c)|
  {
    System(s.server.(out := s.server.out[c := Sent(s.server, c)[n + 1..]]),
           s.clients[k := Heard(ClientOf(s, k), LineEvent(Sent(s.server, c)[..n]))])
  }

  function ReadLineOf(s: System, k: nat, c: Conn): System {
    if FirstNewline(Sent(s.server, c)) < |Sent(s.server, c)|
    then TakeLine(s, k, c, FirstNewline(Sent(s.server, c)))
    else s
  }

  function Next(s: System, a: Action): System {
    match a
    case Connect(k, fd, handshake, now) =>
      if fd < 0 || fd in s.server.open || ClientOf(s, k).conn.Some? then s
      else Connected(s, k, Accept(s.server, fd, handshake, now))
    case Welcome(i, session) => if i < |s.server.slots| then s.(server := Greet(s.server, i, session)) else s
    case Turn(i, raw, env) => if i < |s.server.slots| then s.(server := Input(s.server, i, raw, env)) else s
    case End(i) => if i < |s.server.slots| then s.(server := Exit(s.server, i)) else s
    case Drop(i) => if i < |s.server.slots| then s.(server := Disconnect(s.server, i)) else s
    case Timeouts(now) => s.(server := Sweep(s.server, now, |s.server.slots|))
    case ReadLine(k) => if ClientOf(s, k).conn.None? then s else ReadLineOf(s, k, ClientOf(s, k).conn.value)
    case Leave(k) => s.(clients := s.clients[k := ClientOf(s, k).(logged_in := false, nick := "")])
    case Gone(k) => s.(clients := s.clients[k := NEW_CLIENT])
  }

  function Run(actions: seq<Action>): System {
    if actions == [] then System(Initial(), map[]) else Next(Run(actions[..|actions| - 1]), actions[|actions| - 1])
  }

  ghost predicate ValidAction(a: Action) {
    a.Turn? ==> ValidEnv(a.env)
  }

  ghost predicate ValidActions(actions: seq<Action>) {
    forall k :: 0 <= k < |actions| ==> ValidAction(actions[k])
  }

  /** A client that is logged in is so on a connection on which the server granted exactly that nick. */
  ghost predicate GoodClient(s: Server, client: Client) {
    && (client.conn.Some? ==> client.conn.value < s.next)
    && (client.logged_in ==>
          client.conn.Some? && client.conn.value in s.granted && s.granted[client.conn.value] == client.nick)
  }

  ghost predicate Good(s: System) {
    Inv(s.server) && forall k :: k in s.clients ==> GoodClient(s.server, s.clients[k])
  }

  // ---------------------------------------------------------------------------------------------
  // What only grows
  // ---------------------------------------------------------------------------------------------

  /** Accounts keep nick and token, grants stay, connections are never used again. */
  ghost predicate Grows(a: Server, b: Server) {
    && (forall k :: k in a.users ==> k in b.users && b.users[k] == a.users[k])
    && (forall c :: c in a.granted ==> c in b.granted && b.granted[c] == a.granted[c])
    && a.next <= b.next
  }

  lemma {:induction false} WriteOnlineOnlyWrites(s: Server, text: string, n: nat)
    requires n <= |s.slots|
    ensures SameButOut(WriteOnline(s, text, n), s)
  {
    if n > 0 {
      WriteOnlineOnlyWrites(s, text, n - 1);
    }
  }

  lemma BroadcastOnlyWrites(s: Server, sender: string, text: string)
    ensures SameButOut(Broadcast(s, sender, text), s)
  {
    WriteOnlineOnlyWrites(s, Printed([("type", JStr("message")), ("from", JStr(sender))] + [("text", JStr(text))]), |s.slots|);
  }

  lemma AuthorizedOnlyWrites(s: Server, i: nat, command: string, env: Env)
    requires i < |s.slots|
    ensures SameButOut(Authorized(s, i, command, env), s)
  {
    hide Printed, MessageWords, FindOnline, Broadcast;
    BroadcastOnlyWrites(s, s.slots[i].nick, command);
  }

  /** What a granted login does to everything but the streams. */
  lemma GrantEffect(s: Server, i: nat, nick: string, token: string, level: nat)
    requires i < |s.slots| && s.slots[i].ssl.Some?
    ensures SameButOut(Grant(s, i, nick, token, level), Authorize(s, i, nick, token, level))
  {
    var s1 := Authorize(s, i, nick, token, level);
    BroadcastOnlyWrites(WriteSlot(s1, i, Line(LoginPairs(nick, s.slots[i].session_id))), "System",
      "User " + nick + " joined the secure network");
  }

  lemma {:induction false} SweepEffect(s: Server, now: int, n: nat)
    requires n <= |s.slots|
    ensures var r := Sweep(s, now, n);
      r.users == s.users && r.granted == s.granted && r.next == s.next && r.out == s.out
  {
    if n > 0 {
      SweepEffect(s, now, n - 1);
    }
  }

  lemma UnauthorizedGrows(s: Server, i: nat, command: string, env: Env)
    requires Inv(s) && i < |s.slots| && Live(s.slots[i]) && !s.slots[i].authorized
    ensures GoodSlot(s, s.slots[i])
    ensures Grows(s, Unauthorized(s, i, command, env))
  {
    hide Line, Broadcast, LoginWords, ValidNick, TokenUsed, GoodStreams, GoodAccounts, DescriptorsMatch;
    assert GoodSlot(s, s.slots[i]);
    if !("/register" <= command) && "/login" <= command {
      var (nick, token) := LoginWords(command);
      if Accepts(s.users, nick, token) {
        GrantEffect(s, i, nick, token, s.users[Lower(nick)].security_level);
      }
    }
  }

  lemma InputGrows(s: Server, i: nat, raw: string, env: Env)
    requires Inv(s) && i < |s.slots|
    ensures Grows(s, Input(s, i, raw, env))
  {
    hide Inv, CommandOf, Line, Authorized, Unauthorized, RateLimit.Admit;
    var slot := s.slots[i];
    if slot.fd >= 0 && slot.ssl.Some? && raw != "" {
      TouchKeeps(s, i, Touched(slot, env.now));
      var s1 := s.(slots := s.slots[i := Touched(slot, env.now)]);
      var command := CommandOf(raw);
      if RateLimit.Admit(slot.limit, env.now).1 && command != "" {
        if slot.authorized {
          AuthorizedOnlyWrites(s1, i, command, env);
        } else {
          UnauthorizedGrows(s1, i, command, env);
        }
      }
    }
  }

  lemma StepGrows(s: System, a: Action)
    requires Good(s)
    ensures Grows(s.server, Next(s, a).server)
  {
    hide Inv, GoodClient, Input, Sweep, Broadcast, LineEvent, Line, FirstFree;
    match a
    case Turn(i, raw, env) =>
      if i < |s.server.slots| {
        InputGrows(s.server, i, raw, env);
      }
    case End(i) =>
      if i < |s.server.slots| {
        BroadcastOnlyWrites(s.server, "System", "User " + s.server.slots[i].nick + " disconnected");
      }
    case Timeouts(now) => SweepEffect(s.server, now, |s.server.slots|);
    case _ =>
  }

  // ---------------------------------------------------------------------------------------------
  // Every step keeps everything
  // ---------------------------------------------------------------------------------------------

  lemma ClientsStay(s: System, server: Server)
    requires Good(s) && Inv(server) && Grows(s.server, server)
    ensures Good(s.(server := server))
  {
    forall k | k in s.clients
      ensures GoodClient(server, s.clients[k])
    {
      assert GoodClient(s.server, s.clients[k]);
    }
  }

  /** Taking the first line leaves an honest stream. */
  lemma TakenLineKeeps(s: Server, c: Conn, n: nat)
    requires Inv(s) && c < s.next && n == FirstNewline(Sent(s, c)) < |Sent(s, c)|
    ensures Inv(s.(out := s.out[c := Sent(s, c)[n + 1..]]))
    ensures var e := LineEvent(Sent(s, c)[..n]); e.LoginOk? ==> c in s.granted && s.granted[c] == e.nick
  {
    hide Honest, StreamState;
    var text, s1 := Sent(s, c), s.(out := s.out[c := Sent(s, c)[n + 1..]]);
    assert GoodStream(s, c, text);
    HonestFirstLine(text, Allowed(s, c));
    forall d | d in s1.out
      ensures GoodStream(s1, d, s1.out[d])
    {
      if d != c {
        assert GoodStream(s, d, s.out[d]);
      }
    }
    SameButOutKeeps(s1, s);
  }

  lemma ReadLineKeeps(s: System, k: nat)
    requires Good(s)
    ensures Good(Next(s, ReadLine(k)))
  {
    hide Inv, LineEvent;
    var client := ClientOf(s, k);
    if client.conn.Some? {
      var c := client.conn.value;
      var text := Sent(s.server, c);
      var n := FirstNewline(text);
      if n < |text| {
        assert GoodClient(s.server, client);
        var s1 := Next(s, ReadLine(k));
        TakenLineKeeps(s.server, c, n);
        forall j | j in s1.clients
          ensures GoodClient(s1.server, s1.clients[j])
        {
          if j != k {
            assert GoodClient(s.server, s.clients[j]);
          }
        }
      }
    }
  }

  lemma ConnectKeeps(s: System, k: nat, fd: int, handshake: bool, now: int)
    requires Good(s)
    ensures Good(Next(s, Connect(k, fd, handshake, now)))
  {
    hide Inv;
    if fd >= 0 && fd !in s.server.open && ClientOf(s, k).conn.None? {
      AcceptKeeps(s.server, fd, handshake, now);
      var server := Accept(s.server, fd, handshake, now);
      ClientsStay(s, server);
    }
  }

  lemma StepKeepsGood(s: System, a: Action)
    requires Good(s) && ValidAction(a)
    ensures Good(Next(s, a))
  {
    hide Good, Next;
    match a
    case Connect(k, fd, handshake, now) => ConnectKeeps(s, k, fd, handshake, now);
    case Welcome(i, session) => WelcomeKeepsGood(s, i, session);
    case Turn(i, raw, env) => TurnKeepsGood(s, i, raw, env);
    case End(i) => EndKeepsGood(s, i);
    case Drop(i) => DropKeepsGood(s, i);
    case Timeouts(now) => TimeoutsKeepGood(s, now);
    case ReadLine(k) => ReadLineKeeps(s, k);
    case Leave(k) => LeaveKeepsGood(s, k);
    case Gone(k) => GoneKeepsGood(s, k);
  }

  lemma WelcomeKeepsGood(s: System, i: nat, session: nat)
    requires Good(s)
    ensures Good(Next(s, Welcome(i, session)))
  {
    StepGrows(s, Welcome(i, session));
    hide Good, Inv, Greet, Grows;
    ServerIsGood(s);
    if i < |s.server.slots| {
      GreetKeeps(s.server, i, session);
      ClientsStay(s, Greet(s.server, i, session));
    }
  }

  lemma TurnKeepsGood(s: System, i: nat, raw: string, env: Env)
    requires Good(s) && ValidEnv(env)
    ensures Good(Next(s, Turn(i, raw, env)))
  {
    StepGrows(s, Turn(i, raw, env));
    hide Good, Inv, Input, Grows;
    ServerIsGood(s);
    if i < |s.server.slots| {
      InputKeeps(s.server, i, raw, env);
      ClientsStay(s, Input(s.server, i, raw, env));
    }
  }

  lemma EndKeepsGood(s: System, i: nat)
    requires Good(s)
    ensures Good(Next(s, End(i)))
  {
    StepGrows(s, End(i));
    hide Good, Inv, Exit, Grows;
    ServerIsGood(s);
    if i < |s.server.slots| {
      ExitKeeps(s.server, i);
      ClientsStay(s, Exit(s.server, i));
    }
  }

  lemma DropKeepsGood(s: System, i: nat)
    requires Good(s)
    ensures Good(Next(s, Drop(i)))
  {
    StepGrows(s, Drop(i));
    hide Good, Inv, Disconnect, Grows;
    ServerIsGood(s);
    if i < |s.server.slots| {
      DisconnectKeeps(s.server, i);
      ClientsStay(s, Disconnect(s.server, i));
    }
  }

  lemma TimeoutsKeepGood(s: System, now: int)
    requires Good(s)
    ensures Good(Next(s, Timeouts(now)))
  {
    StepGrows(s, Timeouts(now));
    hide Good, Inv, Sweep, Grows;
    ServerIsGood(s);
    SweepKeeps(s.server, now, |s.server.slots|);
    ClientsStay(s, Sweep(s.server, now, |s.server.slots|));
  }

  lemma LeaveKeepsGood(s: System, k: nat)
    requires Good(s)
    ensures Good(Next(s, Leave(k)))
  {
    hide Good;
    ClientKeeps(s, k, ClientOf(s, k).(logged_in := false, nick := ""));
  }

  lemma GoneKeepsGood(s: System, k: nat)
    requires Good(s)
    ensures Good(Next(s, Gone(k)))
  {
    hide Good;
    ClientKeeps(s, k, NEW_CLIENT);
  }

  lemma ServerIsGood(s: System)
    requires Good(s)
    ensures Inv(s.server)
  {}

  /** A client that is no longer logged in, on its connection or on none. */
  lemma ClientKeeps(s: System, k: nat, client: Client)
    requires Good(s) && !client.logged_in && (client.conn == ClientOf(s, k).conn || client.conn.None?)
    ensures Good(s.(clients := s.clients[k := client]))
  {
    hide Inv;
    assert k in s.clients ==> GoodClient(s.server, s.clients[k]);
  }

  lemma {:induction false} RunIsGood(actions: seq<Action>)
    requires ValidActions(actions)
    ensures Good(Run(actions))
  {
    if actions == [] {
      InitialInv();
    } else {
      RunIsGood(actions[..|actions| - 1]);
      StepKeepsGood(Run(actions[..|actions| - 1]), actions[|actions| - 1]);
    }
  }

  lemma {:induction false} RunGrows(actions: seq<Action>, n: nat)
    requires ValidActions(actions) && n <= |actions|
    ensures Grows(Run(actions[..n]).server, Run(actions).server)
    decreases |actions|
  {
    if n == |actions| {
      assert actions[..n] == actions;
    } else {
      var rest := actions[..|actions| - 1];
      assert rest[..n] == actions[..n];
      RunGrows(rest, n);
      RunIsGood(rest);
      StepGrows(Run(rest), actions[|actions| - 1]);
    }
  }
}
