/**
 When a client is logged in: exactly when it has read a confirmation and has not left since, and no confirmation
 is ever lost on the way.
 */
module ChatClients {
  import opened Common
  import opened JsonLines
  import opened LineStream
  import opened ChatServer
  import opened ChatInvariants
  import opened ChatRuns
  import opened ChatTheorems
  import opened ChatLines
  import opened ChatSenders
  import opened ChatClientState
  import ChatAnswers
  import ChatLogins
  import RateLimit

  // ---------------------------------------------------------------------------------------------
  // A confirmation that was read
  // ---------------------------------------------------------------------------------------------

  /** At step `m` the client read a login confirmation for `n`, and later it neither left nor lost its connection. */
  ghost predicate HasReadConfirmation(actions: seq<Action>, k: nat, m: nat, n: string) {
    && m < |actions| && actions[m] == ReadLine(k) && HeardNext(Run(actions[..m]), k) == Some(LoginOk(n))
    && forall j :: m < j < |actions| ==> actions[j] != Leave(k) && actions[j] != Gone(k)
  }

  ghost predicate IsConfirmed(actions: seq<Action>, k: nat, n: string) {
    exists m: nat :: HasReadConfirmation(actions, k, m, n)
  }

  lemma ConfirmedStep(actions: seq<Action>, k: nat, n: string)
    requires actions != []
    ensures var rest, a := actions[..|actions| - 1], actions[|actions| - 1];
      IsConfirmed(actions, k, n) <==>
        || (a == ReadLine(k) && HeardNext(Run(rest), k) == Some(LoginOk(n)))
        || (a != Leave(k) && a != Gone(k) && IsConfirmed(rest, k, n))
  {
    hide Run, HeardNext;
    var rest, a := actions[..|actions| - 1], actions[|actions| - 1];
    if a == ReadLine(k) && HeardNext(Run(rest), k) == Some(LoginOk(n)) {
      assert HasReadConfirmation(actions, k, |rest|, n);
    }
    if a != Leave(k) && a != Gone(k) && IsConfirmed(rest, k, n) {
      var m: nat :| HasReadConfirmation(rest, k, m, n);
      assert rest[..m] == actions[..m];
      assert HasReadConfirmation(actions, k, m, n);
    }
    if IsConfirmed(actions, k, n) {
      var m: nat :| HasReadConfirmation(actions, k, m, n);
      if m < |rest| {
        assert rest[..m] == actions[..m];
        assert HasReadConfirmation(rest, k, m, n);
      } else {
        assert actions[..m] == rest;
      }
    }
  }

  /** A client with a connection whose login was granted as `n` can only ever be logged in as `n`. */
  lemma ReadConfirmsGranted(s: System, k: nat, n: string)
    requires Good(s) && HeardNext(s, k) == Some(LoginOk(n))
    ensures var c := ClientOf(s, k).conn; c.Some? && c.value in s.server.granted && s.server.granted[c.value] == n
    ensures ClientOf(Next(s, ReadLine(k)), k) == Client(ClientOf(s, k).conn, true, n)
  {
    hide Inv, LineEvent;
    var c := ClientOf(s, k).conn.value;
    assert GoodClient(s.server, ClientOf(s, k));
    TakenLineKeeps(s.server, c, FirstNewline(Sent(s.server, c)));
  }

  /** What a step does to what a client knows of its login. */
  lemma ClientStep(s: System, a: Action, k: nat)
    ensures var client, r := ClientOf(s, k), ClientOf(Next(s, a), k);
      && (a == Leave(k) || a == Gone(k) ==> !r.logged_in && r.nick == "")
      && (a == ReadLine(k) && HeardNext(s, k).Some? && HeardNext(s, k).value.LoginOk? ==>
            r == Client(client.conn, true, HeardNext(s, k).value.nick))
      && (a != Leave(k) && a != Gone(k)
            && !(a == ReadLine(k) && HeardNext(s, k).Some? && HeardNext(s, k).value.LoginOk?) ==>
            r.logged_in == client.logged_in && r.nick == client.nick)
      && (a == Gone(k) ==> r.conn.None?)
      && (a != Gone(k) && !(a.Connect? && a.client == k) ==> r.conn == client.conn)
      && (client.conn.Some? && a != Gone(k) ==> r.conn == client.conn)
  {
    hide Input, Exit, Sweep, Greet, Disconnect, Accept, LineEvent;
  }

  /**
   In every run a client is logged in as `n` if and only if it has read a login confirmation for `n` and has since
   neither left nor lost its connection.
   */
  lemma {:induction false} LoggedInIff(actions: seq<Action>, k: nat, n: string)
    requires ValidActions(actions)
    ensures ClientOf(Run(actions), k).logged_in && ClientOf(Run(actions), k).nick == n <==> IsConfirmed(actions, k, n)
  {
    hide Next, IsConfirmed, HeardNext, Good;
    if actions == [] {
      NothingConfirmed(k, n);
    } else {
      var rest, a := actions[..|actions| - 1], actions[|actions| - 1];
      LoggedInIff(rest, k, n);
      ConfirmedStep(actions, k, n);
      ClientStep(Run(rest), a, k);
      RunIsGood(rest);
      if a == ReadLine(k) && HeardNext(Run(rest), k).Some? && HeardNext(Run(rest), k).value.LoginOk? {
        NickIsSettled(rest, k, HeardNext(Run(rest), k).value.nick, n);
      }
    }
  }

  lemma NothingConfirmed(k: nat, n: string)
    ensures !IsConfirmed([], k, n) && !ClientOf(Run([]), k).logged_in
  {}

  /** Another confirmation on the same connection is for the same nick. */
  lemma NickIsSettled(actions: seq<Action>, k: nat, n: string, n': string)
    requires Good(Run(actions)) && HeardNext(Run(actions), k) == Some(LoginOk(n))
    requires ClientOf(Run(actions), k).logged_in && ClientOf(Run(actions), k).nick == n' <==> IsConfirmed(actions, k, n')
    ensures IsConfirmed(actions, k, n') ==> n == n'
  {
    hide Run, Next, IsConfirmed, Inv;
    var s := Run(actions);
    ReadConfirmsGranted(s, k, n);
    assert GoodClient(s.server, ClientOf(s, k));
  }

  // ---------------------------------------------------------------------------------------------
  // Every step only adds to the streams, and announces its grants
  // ---------------------------------------------------------------------------------------------

  ghost predicate Extends(s: Server, r: Server) {
    forall c :: Sent(s, c) <= Sent(r, c)
  }

  lemma WriteSlotExtends(s: Server, i: nat, text: string)
    requires i < |s.slots|
    ensures Extends(s, WriteSlot(s, i, text))
  {}

  lemma BroadcastExtends(s: Server, sender: string, text: string)
    ensures Extends(s, Broadcast(s, sender, text))
  {
    hide Printed;
    forall c
      ensures Sent(s, c) <= Sent(Broadcast(s, sender, text), c)
    {
      ChatLogins.WriteOnlineExtends(s,
        Printed([("type", JStr("message")), ("from", JStr(sender))] + [("text", JStr(text))]), |s.slots|, c);
    }
  }

  lemma AuthorizedExtends(s: Server, i: nat, command: string, env: Env)
    requires i < |s.slots|
    ensures Extends(s, Authorized(s, i, command, env))
  {
    hide Printed, MessageWords, Broadcast, FindOnline;
    BroadcastExtends(s, s.slots[i].nick, command);
  }

  lemma GrantExtends(s: Server, i: nat, nick: string, token: string, level: nat)
    requires i < |s.slots| && s.slots[i].ssl.Some?
    ensures Extends(s, Grant(s, i, nick, token, level))
  {
    hide Line, Broadcast;
    var s1 := Authorize(s, i, nick, token, level);
    var s2 := WriteSlot(s1, i, Line(LoginPairs(nick, s.slots[i].session_id)));
    BroadcastExtends(s2, "System", "User " + nick + " joined the secure network");
    WriteSlotExtends(s1, i, Line(LoginPairs(nick, s.slots[i].session_id)));
  }

  lemma UnauthorizedExtends(s: Server, i: nat, command: string, env: Env)
    requires i < |s.slots| && s.slots[i].ssl.Some?
    ensures Extends(s, Unauthorized(s, i, command, env))
  {
    hide Line, LoginWords, ValidNick, TokenUsed, RegisteredPairs, Grant;
    if !("/register" <= command) && "/login" <= command {
      var (nick, token) := LoginWords(command);
      if Accepts(s.users, nick, token) {
        GrantExtends(s, i, nick, token, s.users[Lower(nick)].security_level);
      }
    }
  }

  lemma InputExtends(s: Server, i: nat, raw: string, env: Env)
    requires i < |s.slots|
    ensures Extends(s, Input(s, i, raw, env))
  {
    hide Authorized, Unauthorized, Line, CommandOf, RateLimit.Admit, Extends;
    var slot := s.slots[i];
    if slot.fd >= 0 && slot.ssl.Some? && raw != "" {
      var s1, command := AfterTouch(s, i, env.now), CommandOf(raw);
      SameOutExtends(s, s1);
      WriteSlotExtends(s1, i, Line(ErrorPairs("Rate limit exceeded")));
      if slot.authorized {
        AuthorizedExtends(s1, i, command, env);
      } else {
        UnauthorizedExtends(s1, i, command, env);
      }
      SameStreams(s, s1);
    } else {
      SameOutExtends(s, s);
    }
  }

  lemma SameOutExtends(s: Server, r: Server)
    requires r.out == s.out
    ensures Extends(s, r)
  {}

  lemma SameStreams(s: Server, s1: Server)
    requires s1.out == s.out
    ensures forall r :: Extends(s1, r) ==> Extends(s, r)
  {
    forall r | Extends(s1, r)
      ensures Extends(s, r)
    {
      forall c
        ensures Sent(s, c) <= Sent(r, c)
      {
        assert Sent(s1, c) <= Sent(r, c);
      }
    }
  }

  /** A new grant stands as a confirmation in the stream of its connection. */
  ghost predicate Announces(s: Server, r: Server) {
    forall c :: c in r.granted && c !in s.granted ==> LoginOk(r.granted[c]) in Events(Sent(r, c))
  }

  lemma InputAnnounces(s: Server, i: nat, raw: string, env: Env)
    requires Inv(s) && i < |s.slots|
    ensures Announces(s, Input(s, i, raw, env))
  {
    hide Inv, LoginTurn, LoginNick, Input, Events;
    InputGrants(s, i, raw, env);
    if s.slots[i].ssl.Some? && LoginTurn(s, Turn(i, raw, env), s.slots[i].ssl.value) {
      LoginTurnAnnounces(s, i, raw, env);
    }
  }

  lemma LoginTurnAnnounces(s: Server, i: nat, raw: string, env: Env)
    requires Inv(s) && i < |s.slots| && s.slots[i].ssl.Some? && LoginTurn(s, Turn(i, raw, env), s.slots[i].ssl.value)
    ensures LoginOk(LoginNick(raw)) in Events(Sent(Input(s, i, raw, env), s.slots[i].ssl.value))
  {
    hide Inv, Events, CommandOf, LoginWords, Grant, RateLimit.Admit, Honest, StreamState, ValidNick, Lower;
    var c, s1 := s.slots[i].ssl.value, AfterTouch(s, i, env.now);
    var (nick, token) := LoginWords(CommandOf(raw));
    var level := s.users[Lower(nick)].security_level;
    assert GoodSlot(s, s.slots[i]) && GoodStreams(s) by { InvParts(s, i); }
    SentIsGood(s, c);
    LoginIsTyped(CommandOf(raw));
    assert Input(s, i, raw, env) == Grant(s1, i, nick, token, level);
    ChatAnswers.AcceptedIsValid(s, nick, token);
    ChatLogins.GrantIsSeen(s1, i, c, nick, token, level);
  }

  lemma LoginIsTyped(command: string)
    requires "/login" <= command
    ensures command != "" && !("/register" <= command)
  {
    assert command[1] == 'l';
  }

  // ---------------------------------------------------------------------------------------------
  // No confirmation is lost
  // ---------------------------------------------------------------------------------------------

  /** A client on whose connection a login was granted is logged in, or the confirmation waits in its stream. */
  ghost predicate Informed(s: System, k: nat) {
    var client := ClientOf(s, k);
    client.conn.Some? && client.conn.value in s.server.granted ==>
      || client.logged_in
      || LoginOk(s.server.granted[client.conn.value]) in Events(Sent(s.server, client.conn.value))
  }

  /** No two clients have the same connection. */
  ghost predicate OwnConnections(s: System) {
    forall j, k :: j in s.clients && k in s.clients && j != k && s.clients[j].conn.Some? ==> s.clients[j].conn != s.clients[k].conn
  }

  lemma EventsStay(before: string, after: string, e: Event)
    requires before <= after && e in Events(before)
    ensures e in Events(after)
  {
    hide Events, Unfinished;
    assert after == before + after[|before|..];
    EventsConcat(before, after[|before|..]);
  }

  /** A step of the server alone. */
  lemma ServerStepInforms(s: System, r: Server, k: nat)
    requires Informed(s, k) && Extends(s.server, r) && Announces(s.server, r)
    requires forall c :: c in s.server.granted ==> c in r.granted && r.granted[c] == s.server.granted[c]
    ensures Informed(s.(server := r), k)
  {
    hide Events;
    var client := ClientOf(s, k);
    if client.conn.Some? && client.conn.value in s.server.granted && !client.logged_in {
      var c := client.conn.value;
      EventsStay(Sent(s.server, c), Sent(r, c), LoginOk(s.server.granted[c]));
    }
  }

  lemma SameGrantsAnnounce(s: Server, r: Server)
    requires r.granted == s.granted
    ensures Announces(s, r)
  {}

  lemma TurnInforms(s: System, i: nat, raw: string, env: Env, k: nat)
    requires Good(s) && Informed(s, k)
    ensures Informed(Next(s, Turn(i, raw, env)), k)
  {
    StepGrows(s, Turn(i, raw, env));
    hide Informed, Inv, Input, Extends, Announces;
    if i < |s.server.slots| {
      InputExtends(s.server, i, raw, env);
      InputAnnounces(s.server, i, raw, env);
      ServerStepInforms(s, Input(s.server, i, raw, env), k);
    }
  }

  lemma EndInforms(s: System, i: nat, k: nat)
    requires Informed(s, k)
    ensures Informed(Next(s, End(i)), k)
  {
    hide Informed, Broadcast, Extends, Announces;
    if i < |s.server.slots| {
      var text := "User " + s.server.slots[i].nick + " disconnected";
      var r := Exit(s.server, i);
      BroadcastOnlyWrites(s.server, "System", text);
      BroadcastExtends(s.server, "System", text);
      SameOutExtends(s.server, s.server);
      var s1 := if s.server.slots[i].authorized then Broadcast(s.server, "System", text) else s.server;
      SameOutExtends(s1, r);
      ExtendsFurther(s.server, s1, r);
      SameGrantsAnnounce(s.server, r);
      ServerStepInforms(s, r, k);
    }
  }

  lemma ExtendsFurther(s: Server, s1: Server, r: Server)
    requires Extends(s, s1) && Extends(s1, r)
    ensures Extends(s, r)
  {
    forall c
      ensures Sent(s, c) <= Sent(r, c)
    {
      assert Sent(s, c) <= Sent(s1, c) <= Sent(r, c);
    }
  }

  lemma WelcomeInforms(s: System, i: nat, session: nat, k: nat)
    requires Informed(s, k)
    ensures Informed(Next(s, Welcome(i, session)), k)
  {
    hide Informed, Line, Extends, Announces;
    if i < |s.server.slots| {
      var s1 := s.server.(slots := s.server.slots[i := Greeted(s.server.slots[i], session)]);
      var r := Greet(s.server, i, session);
      SameOutExtends(s.server, s.server);
      SameOutExtends(s.server, s1);
      WriteSlotExtends(s1, i, Line(WELCOME));
      ExtendsFurther(s.server, s1, WriteSlot(s1, i, Line(WELCOME)));
      SameGrantsAnnounce(s.server, r);
      ServerStepInforms(s, r, k);
    }
  }

  /** A step that changes neither streams nor grants. */
  lemma SameStreamsInform(s: System, r: Server, k: nat)
    requires Informed(s, k) && r.out == s.server.out && r.granted == s.server.granted
    ensures Informed(s.(server := r), k)
  {}

  lemma ReadInforms(s: System, j: nat, k: nat)
    requires Good(s) && OwnConnections(s) && Informed(s, k)
    ensures Informed(Next(s, ReadLine(j)), k)
  {
    hide Inv, LineEvent, Events;
    var client := ClientOf(s, j);
    if client.conn.Some? && HeardNext(s, j).Some? {
      var c := client.conn.value;
      var text := Sent(s.server, c);
      var n := FirstNewline(text);
      EventsStep(text, n);
      assert j != k ==> ClientOf(s, k).conn != Some(c);
    }
  }

  lemma ConnectInforms(s: System, j: nat, fd: int, handshake: bool, now: int, k: nat)
    requires Good(s) && Informed(s, k)
    ensures Informed(Next(s, Connect(j, fd, handshake, now)), k)
  {
    hide Events, FirstFree;
    assert s.server.next !in s.server.granted;
  }

  lemma GoneInforms(s: System, j: nat, k: nat)
    requires Informed(s, k)
    ensures Informed(Next(s, Gone(j)), k)
  {
    hide Events;
  }

  lemma LeaveInforms(s: System, j: nat, k: nat)
    requires Informed(s, k) && j != k
    ensures Informed(Next(s, Leave(j)), k)
  {
    hide Events;
  }

  lemma StepInforms(s: System, a: Action, k: nat)
    requires Good(s) && OwnConnections(s) && Informed(s, k) && a != Leave(k)
    ensures Informed(Next(s, a), k)
  {
    match a
    case Connect(j, fd, handshake, now) => ConnectInforms(s, j, fd, handshake, now, k);
    case Welcome(i, session) => WelcomeInforms(s, i, session, k);
    case Turn(i, raw, env) => TurnInforms(s, i, raw, env, k);
    case End(i) => EndInforms(s, i, k);
    case Drop(i) => DropInforms(s, i, k);
    case Timeouts(now) => TimeoutsInform(s, now, k);
    case ReadLine(j) => ReadInforms(s, j, k);
    case Leave(j) => LeaveInforms(s, j, k);
    case Gone(j) => GoneInforms(s, j, k);
  }

  lemma DropInforms(s: System, i: nat, k: nat)
    requires Informed(s, k)
    ensures Informed(Next(s, Drop(i)), k)
  {
    hide Informed;
    if i < |s.server.slots| {
      SameStreamsInform(s, Disconnect(s.server, i), k);
    }
  }

  lemma TimeoutsInform(s: System, now: int, k: nat)
    requires Informed(s, k)
    ensures Informed(Next(s, Timeouts(now)), k)
  {
    hide Informed, Sweep;
    SweepEffect(s.server, now, |s.server.slots|);
    SameStreamsInform(s, Sweep(s.server, now, |s.server.slots|), k);
  }

  lemma StepOwns(s: System, a: Action)
    requires Good(s) && OwnConnections(s)
    ensures OwnConnections(Next(s, a))
  {
    hide Inv, Input, Exit, Sweep, Greet, Disconnect, FirstFree, LineEvent;
    forall k | k in s.clients
      ensures s.clients[k].conn.Some? ==> s.clients[k].conn.value < s.server.next
    {
      assert GoodClient(s.server, s.clients[k]);
    }
  }

  lemma {:induction false} ConnectionsAreOwn(actions: seq<Action>)
    requires ValidActions(actions)
    ensures OwnConnections(Run(actions))
  {
    hide Next;
    if actions != [] {
      var rest := actions[..|actions| - 1];
      RunIsGood(rest);
      ConnectionsAreOwn(rest);
      StepOwns(Run(rest), actions[|actions| - 1]);
    }
  }

  /**
   No confirmation is lost: in every run a client that never left, on whose connection a login was granted, is logged
   in under the granted nick, or the confirmation for that nick still waits in its stream.
   */
  lemma {:induction false} ConfirmationIsNotLost(actions: seq<Action>, k: nat)
    requires ValidActions(actions) && Leave(k) !in actions
    ensures Informed(Run(actions), k)
    ensures var client, s := ClientOf(Run(actions), k), Run(actions).server;
      client.logged_in ==> client.conn.Some? && client.conn.value in s.granted && client.nick == s.granted[client.conn.value]
  {
    hide Next, Informed, Inv;
    RunIsGood(actions);
    assert GoodClient(Run(actions).server, ClientOf(Run(actions), k));
    if actions == [] {
      NobodyIsInformed(k);
    } else {
      var rest, a := actions[..|actions| - 1], actions[|actions| - 1];
      assert a in actions && forall b :: b in rest ==> b in actions;
      RunIsGood(rest);
      ConnectionsAreOwn(rest);
      ConfirmationIsNotLost(rest, k);
      StepInforms(Run(rest), a, k);
    }
  }

  lemma NobodyIsInformed(k: nat)
    ensures Informed(Run([]), k)
  {}

  // ---------------------------------------------------------------------------------------------
  // Reading everything
  // ---------------------------------------------------------------------------------------------

  function Reads(k: nat, n: nat): (r: seq<Action>)
    ensures |r| == n
  {
    seq(n, i => ReadLine(k))
  }

  lemma {:induction false} ReadsAreSteps(actions: seq<Action>, k: nat, n: nat)
    ensures Run(actions + Reads(k, n)) == ReadAll(Run(actions), k, n)
    decreases n
  {
    hide Next, ReadAll;
    if n == 0 {
      assert actions + Reads(k, 0) == actions;
      NoReads(Run(actions), k);
    } else {
      var more := actions + [ReadLine(k)];
      assert more[..|actions|] == actions;
      assert actions + Reads(k, n) == more + Reads(k, n - 1);
      ReadsAreSteps(more, k, n - 1);
      FirstRead(Run(actions), k, n);
    }
  }

  lemma NoReads(s: System, k: nat)
    ensures ReadAll(s, k, 0) == s
  {}

  lemma FirstRead(s: System, k: nat, n: nat)
    requires n > 0
    ensures ReadAll(s, k, n) == ReadAll(Next(s, ReadLine(k)), k, n - 1)
  {}

  /**
   After any run in which it never left, a client that reads every whole line of its stream is logged in if and only
   if a login was granted on its connection, and then under the granted nick.
   */
  lemma ReadingLogsIn(actions: seq<Action>, k: nat, c: Conn)
    requires ValidActions(actions) && Leave(k) !in actions && ClientOf(Run(actions), k).conn == Some(c)
    ensures var s := Run(actions).server;
      var client := ClientOf(Run(actions + Reads(k, |Events(Sent(s, c))|)), k);
      && (client.logged_in <==> c in s.granted)
      && (client.logged_in ==> client.nick == s.granted[c])
  {
    hide Next, Informed, Inv, Events, Unfinished, HeardAll, ReadAll;
    var n := |Events(Sent(Run(actions).server, c))|;
    var all := actions + Reads(k, n);
    forall j | 0 <= j < |all|
      ensures ValidAction(all[j]) && all[j] != Leave(k)
    {
      assert j < |actions| ==> all[j] in actions;
      assert j >= |actions| ==> all[j] == ReadLine(k);
    }
    ReadsAreSteps(actions, k, n);
    ReadyReadIsSteps(Run(actions), k, c);
    ReadsKeepGrants(Run(actions), k, n);
    ConfirmationIsNotLost(all, k);
    HeardKeepsConnection(ClientOf(Run(actions), k), Events(Sent(Run(actions).server, c)));
    NothingWaits(Sent(Run(actions).server, c));
    AllRead(Run(all), k, c);
  }

  lemma {:induction false} ReadsKeepGrants(s: System, k: nat, n: nat)
    ensures ReadAll(s, k, n).server.granted == s.server.granted
    decreases n
  {
    hide LineEvent;
    if n > 0 {
      ReadsKeepGrants(Next(s, ReadLine(k)), k, n - 1);
    }
  }

  lemma {:induction false} HeardKeepsConnection(client: Client, events: seq<Event>)
    ensures HeardAll(client, events).conn == client.conn
    decreases |events|
  {
    if events != [] {
      HeardKeepsConnection(Heard(client, events[0]), events[1..]);
    }
  }

  lemma NothingWaits(text: string)
    ensures Events(Unfinished(text)) == []
  {
    hide Unfinished;
  }

  lemma AllRead(s: System, k: nat, c: Conn)
    requires Informed(s, k) && ClientOf(s, k).conn == Some(c) && Events(Sent(s.server, c)) == []
    ensures c in s.server.granted ==> ClientOf(s, k).logged_in
  {}
}
