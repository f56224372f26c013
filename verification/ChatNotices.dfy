/**
 What a granted login and the end of a handler do besides: the whole state of the slot, and the notice that every
 online client gets.
 */
module ChatNotices {
  import opened Common
  import opened CText
  import opened JsonLines
  import opened LineStream
  import opened ChatServer
  import opened ChatInvariants
  import opened ChatRuns
  import opened ChatTheorems
  import opened ChatLines
  import opened ChatMessages
  import ChatAnswers
  import RateLimit

  // ---------------------------------------------------------------------------------------------
  // A notice
  // ---------------------------------------------------------------------------------------------

  ghost predicate OnlineOn(slots: seq<Slot>, c: Conn) {
    exists k :: 0 <= k < |slots| && IsOnline(slots[k]) && slots[k].ssl == Some(c)
  }

  /** A short broadcast is one more event of each online client at the start of a line, and nothing for the others. */
  lemma ShortBroadcastSeen(s: Server, from: string, text: string, c: Conn)
    requires Inv(s) && Plain(from) && Plain(text) && |from| + |text| <= BROADCAST_ROOM
    requires StreamState(Start, Sent(s, c)) == Start
    ensures Events(Sent(Broadcast(s, from, text), c)) == Events(Sent(s, c)) +
      if OnlineOn(s.slots, c) then [Message(from, text)] else []
  {
    hide Inv, Line, Events, StreamState, Plain, EventOf, Put, MessagePairs, Broadcast, PlainPairs;
    BroadcastReachesOnce(s, from, text, c);
    assert GoodStreams(s) by { StreamsAreGood(s); }
    SentIsGood(s, c);
    MessageIsRead(from, text);
    MessageLineLength(from, text);
    LineSeen(Sent(s, c), MessagePairs(from, text));
    assert MessagePairs(from, text) == [("type", JStr("message")), ("from", JStr(from))] + [("text", JStr(text))] by { MessagePairsAre(from, text); }
    assert Events(Sent(s, c)) + [] == Events(Sent(s, c));
    assert Sent(s, c) + "" == Sent(s, c);
  }

  lemma MessagePairsAre(from: string, text: string)
    ensures MessagePairs(from, text) == [("type", JStr("message")), ("from", JStr(from))] + [("text", JStr(text))]
  {}

  lemma StreamsAreGood(s: Server)
    requires Inv(s)
    ensures GoodStreams(s)
  {}

  function Joined(nick: string): string {
    "User " + nick + " joined the secure network"
  }

  function Disconnected(nick: string): string {
    "User " + nick + " disconnected"
  }

  lemma NoticeIsPlain(nick: string)
    requires ValidNick(nick)
    ensures Plain("System") && Plain(Joined(nick)) && Plain(Disconnected(nick))
    ensures |"System"| + |Joined(nick)| <= BROADCAST_ROOM && |"System"| + |Disconnected(nick)| <= BROADCAST_ROOM
  {
    ValidIsPlain(nick);
    PlainParts();
    PlainConcat("User ", nick, " joined the secure network");
    PlainConcat("User ", nick, " disconnected");
  }

  lemma PlainParts()
    ensures Plain("System") && Plain("User ") && Plain(" joined the secure network") && Plain(" disconnected")
  {}

  lemma PlainConcat(a: string, b: string, c: string)
    requires Plain(a) && Plain(b) && Plain(c)
    ensures Plain(a + b + c)
  {}

  // ---------------------------------------------------------------------------------------------
  // Leaving
  // ---------------------------------------------------------------------------------------------

  /**
   The end of a handler of an authorised slot is told to every online client, the leaving one among them, and seen by
   those at the start of a line; nobody else's stream changes, and none if the slot was not authorised.
   */
  lemma LeavingIsSeen(s: Server, i: nat, c: Conn)
    requires Inv(s) && i < |s.slots| && StreamState(Start, Sent(s, c)) == Start
    ensures Events(Sent(Exit(s, i), c)) == Events(Sent(s, c)) +
      if s.slots[i].authorized && OnlineOn(s.slots, c) then [Message("System", "User " + s.slots[i].nick + " disconnected")] else []
    ensures !s.slots[i].authorized || !OnlineOn(s.slots, c) ==> Sent(Exit(s, i), c) == Sent(s, c)
  {
    hide Inv, Broadcast, Events, StreamState, Plain, ValidNick;
    var slot := s.slots[i];
    if slot.authorized {
      assert GoodSlot(s, slot) by { SlotIsGood(s, i); }
      NoticeIsPlain(slot.nick);
      ShortBroadcastSeen(s, "System", Disconnected(slot.nick), c);
      BroadcastReachesOnce(s, "System", Disconnected(slot.nick), c);
    }
    assert Sent(s, c) + "" == Sent(s, c);
  }

  // ---------------------------------------------------------------------------------------------
  // Joining
  // ---------------------------------------------------------------------------------------------

  /** The slot of a granted login: everything it holds afterwards. */
  ghost predicate SlotAuthorized(s: Server, r: Server, i: nat, nick: string, token: string, now: int) {
    && i < |s.slots| && Lower(nick) in s.users
    && r.slots == s.slots[i := s.slots[i].(nick := nick, token := token, authorized := true,
         security_level := s.users[Lower(nick)].security_level,
         last_activity := now, limit := RateLimit.Admit(s.slots[i].limit, now).0)]
    && r.users == s.users && r.open == s.open && r.next == s.next
  }

  /** What a login that is granted does to slots, accounts and descriptors. */
  lemma LoginAuthorizes(s: Server, i: nat, c: Conn, raw: string, env: Env)
    requires Inv(s) && i < |s.slots| && LoginTurn(s, Turn(i, raw, env), c)
    ensures var (nick, token) := LoginWords(CommandOf(raw));
      SlotAuthorized(s, Input(s, i, raw, env), i, nick, token, env.now)
  {
    hide Inv, CommandOf, LoginWords, Grant, RateLimit.Admit, Line, Broadcast;
    var (nick, token) := LoginWords(CommandOf(raw));
    GrantTurn(s, i, c, raw, env);
    GrantEffect(AfterTouch(s, i, env.now), i, nick, token, s.users[Lower(nick)].security_level);
  }

  lemma GrantTurn(s: Server, i: nat, c: Conn, raw: string, env: Env)
    requires i < |s.slots| && LoginTurn(s, Turn(i, raw, env), c)
    ensures var (nick, token) := LoginWords(CommandOf(raw));
      Input(s, i, raw, env) == Grant(AfterTouch(s, i, env.now), i, nick, token, s.users[Lower(nick)].security_level)
  {
    hide CommandOf, LoginWords, Grant, RateLimit.Admit, Input;
    var s1 := AfterTouch(s, i, env.now);
    ChatAnswers.AskingTurn(s, i, c, raw, env);
    ChatAnswers.LoginGoes(s1, i, CommandOf(raw), env);
  }

  /**
   A granted login is seen by its own client as the confirmation and then the notice, and by every other online client
   at the start of a line as the notice; nobody else's stream changes.
   */
  lemma JoiningIsSeen(s: Server, i: nat, c: Conn, raw: string, env: Env, d: Conn)
    requires Inv(s) && ValidEnv(env) && i < |s.slots| && LoginTurn(s, Turn(i, raw, env), c)
    requires StreamState(Start, Sent(s, d)) == Start
    ensures var nick, r := LoginNick(raw), Input(s, i, raw, env);
      var notice := Message("System", "User " + nick + " joined the secure network");
      Events(Sent(r, d)) == Events(Sent(s, d)) +
        if d == c then [LoginOk(nick), notice] else if OnlineOn(s.slots, d) then [notice] else []
  {
    hide Inv, CommandOf, LoginWords, Grant, RateLimit.Admit, Line, Broadcast, Events, StreamState, ValidNick, Plain, LoginPairs, Lower;
    var (nick, token) := LoginWords(CommandOf(raw));
    var s1, level := AfterTouch(s, i, env.now), s.users[Lower(nick)].security_level;
    GrantTurn(s, i, c, raw, env);
    TouchKeeps(s, i, Touched(s.slots[i], env.now));
    ChatAnswers.AcceptedIsValid(s, nick, token);
    AuthorizedState(s1, i, c, nick, token, level, d);
    var s2 := WriteSlot(Authorize(s1, i, nick, token, level), i, Line(LoginPairs(nick, s1.slots[i].session_id)));
    NoticeIsPlain(nick);
    ShortBroadcastSeen(s2, "System", Joined(nick), d);
    assert OnlineOn(s2.slots, d) <==> d == c || OnlineOn(s.slots, d) by { NowOnline(s, s2, i, c, d); }
    assert Grant(s1, i, nick, token, level) == Broadcast(s2, "System", Joined(nick)) by { GrantIs(s1, i, nick, token, level); }
  }

  lemma GrantIs(s: Server, i: nat, nick: string, token: string, level: nat)
    requires i < |s.slots| && s.slots[i].ssl.Some?
    ensures LoginPairs(nick, s.slots[i].session_id) != []
    ensures Grant(s, i, nick, token, level)
      == Broadcast(WriteSlot(Authorize(s, i, nick, token, level), i, Line(LoginPairs(nick, s.slots[i].session_id))), "System", Joined(nick))
  {
    hide Broadcast, Line;
  }

  lemma NowOnline(s: Server, r: Server, i: nat, c: Conn, d: Conn)
    requires i < |s.slots| == |r.slots| && IsOnline(r.slots[i]) && r.slots[i].ssl == Some(c) && s.slots[i].ssl == Some(c)
    requires forall k :: 0 <= k < |s.slots| && k != i ==> r.slots[k] == s.slots[k]
    ensures OnlineOn(r.slots, d) <==> d == c || OnlineOn(s.slots, d)
  {
    if OnlineOn(s.slots, d) {
      var k :| 0 <= k < |s.slots| && IsOnline(s.slots[k]) && s.slots[k].ssl == Some(d);
      assert k != i ==> IsOnline(r.slots[k]) && r.slots[k].ssl == Some(d);
    }
    if OnlineOn(r.slots, d) {
      var k :| 0 <= k < |r.slots| && IsOnline(r.slots[k]) && r.slots[k].ssl == Some(d);
      assert k != i ==> IsOnline(s.slots[k]) && s.slots[k].ssl == Some(d);
    }
  }

  /** Slot and stream just before the notice. */
  lemma AuthorizedState(s: Server, i: nat, c: Conn, nick: string, token: string, level: nat, d: Conn)
    requires Inv(s) && i < |s.slots| && Live(s.slots[i]) && !s.slots[i].authorized && s.slots[i].ssl == Some(c)
    requires ValidNick(nick) && Lower(nick) in s.users && StreamState(Start, Sent(s, d)) == Start
    ensures LoginPairs(nick, s.slots[i].session_id) != []
    ensures var r := WriteSlot(Authorize(s, i, nick, token, level), i, Line(LoginPairs(nick, s.slots[i].session_id)));
      && Inv(r) && StreamState(Start, Sent(r, d)) == Start
      && Events(Sent(r, d)) == Events(Sent(s, d)) + if d == c then [LoginOk(nick)] else []
  {
    hide Inv, Line, Events, StreamState, Plain, EventOf, Put, PlainPairs, ValidNick;
    var pairs := LoginPairs(nick, s.slots[i].session_id);
    ValidIsPlain(nick);
    LoginPairsRead(nick, s.slots[i].session_id);
    assert GoodStreams(s) by { StreamsAreGood(s); }
    SentIsGood(s, d);
    LineSeen(Sent(s, d), pairs);
    NoBackslashNoEscape(Start, Sent(s, d));
    StreamConcat(Start, Sent(s, d), Line(pairs));
    LineFrom(StreamState(Start, Sent(s, d)), pairs);
    AuthorizeKeeps(s, i, nick, token, level);
    ConfirmationKeeps(Authorize(s, i, nick, token, level), i, nick);
    assert Events(Sent(s, d)) + [] == Events(Sent(s, d));
  }
}
