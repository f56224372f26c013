/**
 From a line an authorised client sends to the events other clients see: private messages, broadcasts and the
 list of online users.
 */
module ChatMessages {
  import opened Common
  import opened CText
  import opened JsonLines
  import opened LineStream
  import opened ChatServer
  import opened ChatInvariants
  import opened ChatRuns
  import opened ChatLines
  import RateLimit

  // ---------------------------------------------------------------------------------------------
  // Private messages
  // ---------------------------------------------------------------------------------------------

  /** `sendPrivateMessage`. */
  function PrivateCommand(to: string, text: string): string {
    "/msg " + to + " " + text
  }

  ghost predicate Printable(text: string) {
    forall c :: c in text ==> ' ' <= c <= '~'
  }

  /** What is left of a text when it is delivered. */
  function Delivered(text: string): string {
    Cut(SkipSpaces(Sanitized(text)), 2047)
  }

  /** The text is delivered as sanitised and cut exactly when the sanitised text does not begin with a space. */
  lemma DeliveredIsCutIff(text: string)
    ensures Delivered(text) == Cut(Sanitized(text), 2047)
      <==> (Sanitized(text) == "" || !IsSpace(Sanitized(text)[0]))
  {
    var clean := Sanitized(text);
    SkipSpacesOf(clean);
    if clean != "" && IsSpace(clean[0]) && SkipSpaces(clean) != "" {
      assert Cut(clean, 2047)[0] == clean[0];
      assert Delivered(text)[0] == SkipSpaces(clean)[0];
    }
  }

  /** A text that begins with no space, of which the space after an unsafe character is lost all the same. */
  lemma LeadingSpaceIsLost()
    ensures var text := "< hi";
      Printable(text) && !IsSpace(text[0]) && Delivered(text) == "hi" && Cut(Sanitized(text), 2047) == " hi"
  {
    var text := "< hi";
    assert text[1..] == " hi" && " hi"[1..] == "hi" && "hi"[1..] == "i" && "i"[1..] == "";
    assert Sanitized("i") == "i" && Sanitized("hi") == "hi" && Sanitized(" hi") == " hi";
  }

  lemma DeliveredIsPlain(text: string)
    requires Printable(text)
    ensures Plain(Delivered(text)) && |Delivered(text)| <= 2047
  {
    SanitizedIsSafe(text);
    SkipSpacesOf(Sanitized(text));
    forall c | c in Delivered(text)
      ensures c != '"' && c != '\\' && c >= ' '
    {
      assert c in SkipSpaces(Sanitized(text));
      assert c in Sanitized(text);
    }
  }

  lemma PrivateLineIsRead(to: string, text: string)
    requires ValidNick(to) && Printable(text)
    ensures CommandOf(PrivateCommand(to, text) + "\n") == PrivateCommand(to, Sanitized(text))
    ensures "/msg" <= PrivateCommand(to, Sanitized(text))
    ensures MessageWords(PrivateCommand(to, Sanitized(text))[4..]) == (to, Delivered(text))
  {
    hide CommandOf, MessageWords, Sanitized, Delivered;
    PrivateLineIsText(to, text);
    CommandOfLine(PrivateCommand(to, text));
    SanitizedOfConcat("/msg " + to + " ", text);
    PrivateHeadIsSafe(to);
    PrivateArguments(to, Sanitized(text));
    PrivateWords(to, text);
  }

  lemma PrivateHeadIsSafe(to: string)
    requires ValidNick(to)
    ensures Sanitized("/msg " + to + " ") == "/msg " + to + " "
  {
    NickIsSafe(to);
    SafeConcat("/msg ", to);
    SafeConcat("/msg " + to, " ");
    SafeTextStays("/msg " + to + " ");
  }

  lemma PrivateLineIsText(to: string, text: string)
    requires ValidNick(to) && Printable(text)
    ensures '\n' !in PrivateCommand(to, text) && NUL !in PrivateCommand(to, text)
  {
    NickIsSafe(to);
  }

  lemma PrivateArguments(to: string, text: string)
    ensures "/msg" <= PrivateCommand(to, text)
    ensures PrivateCommand(to, text)[4..] == " " + (to + (" " + text))
  {
    assert "/msg " == "/msg" + " ";
    assert PrivateCommand(to, text) == "/msg" + (" " + (to + (" " + text)));
  }

  lemma PrivateWords(to: string, text: string)
    requires ValidNick(to) && Printable(text)
    ensures MessageWords(" " + (to + (" " + Sanitized(text)))) == (to, Delivered(text))
  {
    var clean := Sanitized(text);
    NickIsSafe(to);
    assert to[0] in to;
    SkipOneSpace(to + (" " + clean));
    ScanWordWhole(to, " " + clean, 31);
    assert (to + (" " + clean))[|to|..] == " " + clean;
    assert (" " + clean)[1..] == clean;
    SanitizedIsSafe(text);
    SkipSpacesOf(clean);
    ScanLineCuts(SkipSpaces(clean), 2047);
  }

  function PrivatePairs(from: string, to: string, text: string): seq<Pair> {
    PrivateHeads(from, to) + [("text", JStr(text))]
  }

  lemma PrivateLineFits(from: string, to: string, text: string)
    requires |from| <= 31 && |to| <= 31 && |text| <= 2047
    ensures Printed(PrivatePairs(from, to, text)) == Line(PrivatePairs(from, to, text))
  {
    var heads := PrivateHeads(from, to);
    TextLineSplits(heads, "text", text);
    HeadsOfThree(heads[0], heads[1], heads[2]);
    assert heads == [heads[0], heads[1], heads[2]];
  }

  lemma HeadsOfThree(a: Pair, b: Pair, c: Pair)
    ensures |Heads([a, b, c])| == |PairText(a)| + |PairText(b)| + |PairText(c)| + 3
  {
    assert [a, b, c][1..] == [b, c] && [b, c][1..] == [c] && [c][1..] == [];
    assert Heads([c]) == PairText(c) + "," + "";
    assert Heads([b, c]) == PairText(b) + "," + Heads([c]);
  }

  lemma PrivateArePlain(from: string, to: string, text: string)
    requires Plain(from) && Plain(to) && Plain(text)
    ensures PlainPairs(PrivatePairs(from, to, text))
  {}

  lemma PrivateIsRead(from: string, to: string, text: string)
    requires Plain(from) && Plain(to) && Plain(text)
    ensures Typed(PrivatePairs(from, to, text)) && PlainPairs(PrivatePairs(from, to, text))
    ensures EventOf(Put(map[], PrivatePairs(from, to, text))) == Private(from, to, text)
  {
    PrivateArePlain(from, to, text);
    hide Plain;
    var pairs := PrivatePairs(from, to, text);
    PutAt(map[], pairs, 0);
    PutAt(map[], pairs, 1);
    PutAt(map[], pairs, 2);
    PutAt(map[], pairs, 3);
  }

  lemma FindOnlineTouched(slots: seq<Slot>, i: nat, now: int, to: string)
    requires i < |slots|
    ensures FindOnline(slots[i := Touched(slots[i], now)], to) == FindOnline(slots, to)
  {
    var slots1 := slots[i := Touched(slots[i], now)];
    assert forall k :: 0 <= k < |slots| ==>
      (IsOnline(slots[k]) && slots[k].nick == to <==> IsOnline(slots1[k]) && slots1[k].nick == to);
  }

  lemma PrivateTurn(s: Server, i: nat, to: string, text: string, env: Env)
    requires i < |s.slots| && Live(s.slots[i]) && s.slots[i].ssl.Some? && s.slots[i].authorized
    requires RateLimit.Admit(s.slots[i].limit, env.now).1
    requires ValidNick(to) && Printable(text)
    ensures Input(s, i, PrivateCommand(to, text) + "\n", env) ==
      if Delivered(text) == "" then AfterTouch(s, i, env.now)
      else SendPrivate(AfterTouch(s, i, env.now), s.slots[i].nick, to, Delivered(text))
  {
    hide PrivateCommand, CommandOf, MessageWords, Delivered, SendPrivate, SendEncrypted, Broadcast, Printed;
    PrivateLineIsRead(to, text);
    var command := PrivateCommand(to, Sanitized(text));
    assert command != "/online" by { assert command[1] == 'm'; }
    assert to != "" && PrivateCommand(to, text) + "\n" != "";
  }

  /**
   A private message to an online user is written whole, to the first slot of that nick and to nobody else; the
   client there sees sender, target and text unless its stream had been left in the middle of a line.
   */
  lemma PrivateMessageArrives(s: Server, i: nat, j: nat, c: Conn, to: string, text: string, env: Env)
    requires Inv(s) && i < |s.slots| && Live(s.slots[i]) && s.slots[i].authorized
    requires RateLimit.Admit(s.slots[i].limit, env.now).1
    requires ValidNick(to) && Printable(text) && Delivered(text) != ""
    requires FindOnline(s.slots, to) == Some(j) && s.slots[j].ssl == Some(c)
    ensures var from := s.slots[i].nick;
      Arrives(s, Input(s, i, PrivateCommand(to, text) + "\n", env), i, env.now, c, Private(from, to, Delivered(text)))
  {
    hide PrivateCommand, Delivered, Line, Printed, Events, StreamState, Honest, PrivatePairs, Input;
    assert GoodSlot(s, s.slots[i]);
    var from, body := s.slots[i].nick, Delivered(text);
    PrivateTurn(s, i, to, text, env);
    FindOnlineTouched(s.slots, i, env.now, to);
    ValidIsPlain(from);
    ValidIsPlain(to);
    DeliveredIsPlain(text);
    PrivateLineFits(from, to, body);
    PrivateIsRead(from, to, body);
    SentIsGood(s, c);
    WrittenArrives(s, AfterTouch(s, i, env.now), i, env.now, c, PrivatePairs(from, to, body));
    assert PrivatePairs(from, to, body) == PrivateHeads(from, to) + [("text", JStr(body))] by { PrivatePairsAre(from, to, body); }
    assert AfterTouch(s, i, env.now).slots[j].ssl == Some(c);
  }

  lemma PrivatePairsAre(from: string, to: string, text: string)
    ensures PrivatePairs(from, to, text) == PrivateHeads(from, to) + [("text", JStr(text))]
  {}

  /** Nothing is written when the user is not online or nothing is left of the text. */
  lemma PrivateMessageDropped(s: Server, i: nat, to: string, text: string, env: Env)
    requires i < |s.slots| && Live(s.slots[i]) && s.slots[i].ssl.Some? && s.slots[i].authorized
    requires RateLimit.Admit(s.slots[i].limit, env.now).1
    requires ValidNick(to) && Printable(text)
    requires Delivered(text) == "" || FindOnline(s.slots, to).None?
    ensures Input(s, i, PrivateCommand(to, text) + "\n", env).out == s.out
  {
    hide PrivateCommand, Delivered, Printed, Input;
    PrivateTurn(s, i, to, text, env);
    FindOnlineTouched(s.slots, i, env.now, to);
  }

  // ---------------------------------------------------------------------------------------------
  // The list of online users
  // ---------------------------------------------------------------------------------------------

  lemma {:induction false} ElementsLength(elems: seq<string>)
    requires forall e :: e in elems ==> |e| <= MAX_NICK_LENGTH
    ensures |Elements(elems)| <= 34 * |elems|
    ensures elems != [] ==> |Elements(elems)| < 34 * |elems|
    decreases |elems|
  {
    if |elems| > 1 {
      ElementsLength(elems[1..]);
    }
  }

  lemma {:induction false} OnlineNicksAreValid(slots: seq<Slot>)
    requires forall k :: 0 <= k < |slots| && slots[k].authorized ==> ValidNick(slots[k].nick)
    ensures forall e :: e in OnlineNicks(slots) ==> ValidNick(e)
  {
    if slots != [] {
      OnlineNicksAreValid(slots[..|slots| - 1]);
    }
  }

  /** With at most 240 users online the list is never cut. */
  lemma OnlineListFits(slots: seq<Slot>)
    requires forall e :: e in OnlineNicks(slots) ==> |e| <= MAX_NICK_LENGTH
    requires |OnlineNicks(slots)| <= 240
    ensures |Line(OnlinePairs(slots))| <= 8188 && Printed(OnlinePairs(slots)) == Line(OnlinePairs(slots))
  {
    var pairs := OnlinePairs(slots);
    ElementsLength(OnlineNicks(slots));
    assert pairs[..1] == [pairs[0]] && pairs[..1][1..] == [];
    assert Heads(pairs[..1]) == PairText(pairs[0]) + "," + "";
  }

  lemma OnlineIsRead(slots: seq<Slot>)
    requires forall e :: e in OnlineNicks(slots) ==> Plain(e)
    ensures Typed(OnlinePairs(slots)) && PlainPairs(OnlinePairs(slots))
    ensures EventOf(Put(map[], OnlinePairs(slots))) == Online(OnlineNicks(slots))
  {
    var pairs := OnlinePairs(slots);
    PutAt(map[], pairs, 0);
    PutAt(map[], pairs, 1);
  }

  lemma OnlineCommand()
    ensures CommandOf("/online\n") == "/online"
  {
    assert forall c :: c in "/online" ==> !Unsafe(c);
    assert "/online" + "\n" == "/online\n";
    CommandOfLine("/online");
    SafeTextStays("/online");
  }

  lemma OnlineTurn(s: Server, i: nat, c: Conn, env: Env)
    requires i < |s.slots| && Live(s.slots[i]) && s.slots[i].ssl == Some(c) && s.slots[i].authorized
    requires RateLimit.Admit(s.slots[i].limit, env.now).1
    ensures Input(s, i, "/online\n", env) == Write(AfterTouch(s, i, env.now), c, Printed(OnlinePairs(s.slots)))
  {
    hide CommandOf, Printed, SendPrivate, SendEncrypted, Broadcast, OnlineNicks;
    OnlineCommand();
    OnlineNicksTouched(s.slots, i, env.now);
    assert AfterTouch(s, i, env.now).slots == s.slots[i := Touched(s.slots[i], env.now)];
  }

  lemma {:induction false} OnlineNicksTouched(slots: seq<Slot>, i: nat, now: int)
    requires i < |slots|
    ensures OnlineNicks(slots[i := Touched(slots[i], now)]) == OnlineNicks(slots)
  {
    var n, slots1 := |slots| - 1, slots[i := Touched(slots[i], now)];
    if i == n {
      assert slots1[..n] == slots[..n];
    } else {
      assert slots1[..n] == slots[..n][i := Touched(slots[i], now)];
      OnlineNicksTouched(slots[..n], i, now);
    }
  }

  /** With at most 240 users online the answer to `/online` is their nicks, in the order of the slots. */
  lemma OnlineListArrives(s: Server, i: nat, c: Conn, env: Env)
    requires Inv(s) && i < |s.slots| && Live(s.slots[i]) && s.slots[i].ssl == Some(c) && s.slots[i].authorized
    requires RateLimit.Admit(s.slots[i].limit, env.now).1
    requires |OnlineNicks(s.slots)| <= 240
    ensures Arrives(s, Input(s, i, "/online\n", env), i, env.now, c, Online(OnlineNicks(s.slots)))
  {
    hide Line, Printed, Events, StreamState, Honest, Input, OnlinePairs;
    NicksAreGood(s);
    OnlineTurn(s, i, c, env);
    OnlineListFits(s.slots);
    OnlineIsRead(s.slots);
    SentIsGood(s, c);
    WrittenArrives(s, AfterTouch(s, i, env.now), i, env.now, c, OnlinePairs(s.slots));
  }

  lemma NicksAreGood(s: Server)
    requires Inv(s)
    ensures forall e :: e in OnlineNicks(s.slots) ==> |e| <= MAX_NICK_LENGTH && Plain(e)
  {
    forall k | 0 <= k < |s.slots| && s.slots[k].authorized
      ensures ValidNick(s.slots[k].nick)
    {
      assert GoodSlot(s, s.slots[k]);
    }
    OnlineNicksAreValid(s.slots);
    forall e | e in OnlineNicks(s.slots)
      ensures Plain(e)
    {
      ValidIsPlain(e);
    }
  }

  // ---------------------------------------------------------------------------------------------
  // Broadcasts
  // ---------------------------------------------------------------------------------------------

  /** A broadcast is written once to the connection of each online slot, and to no other connection. */
  lemma {:induction false} WrittenOnce(s: Server, text: string, n: nat, c: Conn)
    requires n <= |s.slots|
    requires forall i, j :: 0 <= i < j < |s.slots| && Live(s.slots[i]) && Live(s.slots[j]) ==> s.slots[i].ssl != s.slots[j].ssl
    ensures Sent(WriteOnline(s, text, n), c) == Sent(s, c) +
      if exists k :: 0 <= k < n && IsOnline(s.slots[k]) && s.slots[k].ssl == Some(c) then text else ""
  {
    if n > 0 {
      WrittenOnce(s, text, n - 1, c);
    }
  }

  lemma BroadcastReachesOnce(s: Server, sender: string, text: string, c: Conn)
    requires Inv(s)
    ensures Sent(Broadcast(s, sender, text), c) == Sent(s, c) +
      if exists k :: 0 <= k < |s.slots| && IsOnline(s.slots[k]) && s.slots[k].ssl == Some(c)
      then Printed([("type", JStr("message")), ("from", JStr(sender))] + [("text", JStr(text))])
      else ""
  {
    hide Honest, StreamState, Printed;
    WrittenOnce(s, Printed([("type", JStr("message")), ("from", JStr(sender))] + [("text", JStr(text))]), |s.slots|, c);
  }

  /** Text that is no command of an authorised client. */
  predicate IsChat(text: string) {
    text != "" && text != "/online" && !("/msg" <= text) && !("/send_enc" <= text)
  }

  function MessagePairs(from: string, text: string): seq<Pair> {
    [("type", JStr("message")), ("from", JStr(from))] + [("text", JStr(text))]
  }

  lemma MessageIsRead(from: string, text: string)
    requires Plain(from) && Plain(text)
    ensures Typed(MessagePairs(from, text)) && PlainPairs(MessagePairs(from, text))
    ensures EventOf(Put(map[], MessagePairs(from, text))) == Message(from, text)
  {
    var pairs := MessagePairs(from, text);
    PutAt(map[], pairs, 0);
    PutAt(map[], pairs, 1);
    PutAt(map[], pairs, 2);
  }

  lemma SanitizedIsPlain(text: string)
    requires Printable(text)
    ensures Plain(Sanitized(text)) && '\n' !in text && NUL !in text
  {
    SanitizedIsSafe(text);
  }

  lemma MessageLineLength(from: string, text: string)
    ensures |Line(MessagePairs(from, text))| == 39 + |from| + |text|
  {
    var heads: seq<Pair> := [("type", JStr("message")), ("from", JStr(from))];
    TextLineSplits(heads, "text", text);
    assert heads[1..] == [heads[1]] && heads[1..][1..] == [];
    assert Heads(heads) == PairText(heads[0]) + "," + Heads(heads[1..]);
    assert Heads(heads[1..]) == PairText(heads[1]) + "," + "";
  }

  /** What a chat text writes to an online client; nobody's slot changes but in the sender's clock and limiter. */
  lemma ChatIsWritten(s: Server, i: nat, k: nat, c: Conn, text: string, env: Env)
    requires Inv(s) && i < |s.slots| && Live(s.slots[i]) && s.slots[i].authorized
    requires RateLimit.Admit(s.slots[i].limit, env.now).1
    requires Printable(text) && IsChat(Sanitized(text))
    requires k < |s.slots| && IsOnline(s.slots[k]) && s.slots[k].ssl == Some(c)
    ensures var r := Input(s, i, text + "\n", env);
      && Inv(r) && r.slots == AfterTouch(s, i, env.now).slots
      && Sent(r, c) == Sent(s, c) + Cut(Line(MessagePairs(s.slots[i].nick, Sanitized(text))), BUFFER_SIZE - 1)
  {
    hide Sanitized, Line, Inv, Printable, IsChat, Input, CommandOf;
    SanitizedIsPlain(text);
    CommandOfLine(text);
    CommandIsWritten(s, i, k, c, text + "\n", env);
  }

  /** The same for any line whose command is no other command, also one with newlines and controls. */
  lemma CommandIsWritten(s: Server, i: nat, k: nat, c: Conn, raw: string, env: Env)
    requires Inv(s) && i < |s.slots| && Live(s.slots[i]) && s.slots[i].authorized
    requires RateLimit.Admit(s.slots[i].limit, env.now).1
    requires raw != "" && IsChat(CommandOf(raw))
    requires k < |s.slots| && IsOnline(s.slots[k]) && s.slots[k].ssl == Some(c)
    ensures var r := Input(s, i, raw, env);
      && Inv(r) && r.slots == AfterTouch(s, i, env.now).slots
      && Sent(r, c) == Sent(s, c) + Cut(Line(MessagePairs(s.slots[i].nick, CommandOf(raw))), BUFFER_SIZE - 1)
  {
    hide Line, MessagePairs, Inv, Broadcast, ValidNick, CommandOf, SendPrivate, SendEncrypted;
    assert GoodSlot(s, s.slots[i]) by { InvParts(s, i); }
    var s1, from, command := AfterTouch(s, i, env.now), s.slots[i].nick, CommandOf(raw);
    assert Input(s, i, raw, env) == Broadcast(s1, from, command);
    TouchKeeps(s, i, Touched(s.slots[i], env.now));
    assert IsOnline(s1.slots[k]) && s1.slots[k].ssl == Some(c);
    BroadcastOnce(s1, from, command, k, c);
    ValidIsPlain(from);
    CommandIsUnquoted(raw);
    BroadcastKeeps(s1, from, command);
  }

  lemma ChatIsRead(s: Server, i: nat, text: string)
    requires Inv(s) && i < |s.slots| && s.slots[i].authorized && Printable(text)
    ensures var pairs := MessagePairs(s.slots[i].nick, Sanitized(text));
      Typed(pairs) && PlainPairs(pairs) && EventOf(Put(map[], pairs)) == Message(s.slots[i].nick, Sanitized(text))
  {
    hide Sanitized, Inv, Printable, MessagePairs;
    assert GoodSlot(s, s.slots[i]) by { InvParts(s, i); }
    ValidIsPlain(s.slots[i].nick);
    SanitizedIsPlain(text);
    MessageIsRead(s.slots[i].nick, Sanitized(text));
  }

  /** Sender and text together that the line of a broadcast has room for. */
  const BROADCAST_ROOM: nat := 8152

  /**
   What is typed is seen by every online client whose stream is at the start of a line, sanitised and under the
   sender's nick, if and only if nick and sanitised text together have at most 8152 characters.
   */
  lemma BroadcastArrives(s: Server, i: nat, k: nat, c: Conn, text: string, env: Env)
    requires Inv(s) && i < |s.slots| && Live(s.slots[i]) && s.slots[i].authorized
    requires RateLimit.Admit(s.slots[i].limit, env.now).1
    requires Printable(text) && IsChat(Sanitized(text))
    requires k < |s.slots| && IsOnline(s.slots[k]) && s.slots[k].ssl == Some(c) && StreamState(Start, Sent(s, c)) == Start
    ensures var from, clean := s.slots[i].nick, Sanitized(text);
      Events(Sent(Input(s, i, text + "\n", env), c)) == Events(Sent(s, c)) +
        if |from| + |clean| <= BROADCAST_ROOM then [Message(from, clean)] else []
  {
    hide Sanitized, Line, Events, StreamState, Honest, MessagePairs, Input, Inv, Printable, IsChat, EventOf, Put, PlainPairs;
    assert GoodSlot(s, s.slots[i]) && GoodStreams(s) by { InvParts(s, i); }
    var from, clean := s.slots[i].nick, Sanitized(text);
    ChatIsWritten(s, i, k, c, text, env);
    ChatIsRead(s, i, text);
    MessageLineLength(from, clean);
    SentIsGood(s, c);
    CutLineIsUnfinished(Sent(s, c), MessagePairs(from, clean), BUFFER_SIZE - 1);
    LineSeen(Sent(s, c), MessagePairs(from, clean));
  }

  lemma BroadcastOnce(s: Server, from: string, text: string, k: nat, c: Conn)
    requires Inv(s) && k < |s.slots| && IsOnline(s.slots[k]) && s.slots[k].ssl == Some(c)
    ensures Sent(Broadcast(s, from, text), c) == Sent(s, c) + Cut(Line(MessagePairs(from, text)), BUFFER_SIZE - 1)
  {
    hide Inv, Broadcast, Line;
    BroadcastReachesOnce(s, from, text, c);
  }

  // ---------------------------------------------------------------------------------------------
  // A broadcast that is too long
  // ---------------------------------------------------------------------------------------------

  /** Slot `i` sends a chat text. */
  ghost predicate Chats(s: Server, i: nat, text: string, env: Env) {
    && i < |s.slots| && Live(s.slots[i]) && s.slots[i].authorized && RateLimit.Admit(s.slots[i].limit, env.now).1
    && Printable(text) && IsChat(Sanitized(text))
  }

  /**
   A broadcast that is too long is seen by no online client, whatever stood before it in its stream.  The next
   broadcast, of anybody, is not seen either: if it is too long as well nothing is reported yet, and if it fits the
   client gets one line that it cannot read, made of what stood before, the cut line and this one; a client whose
   stream was at the start of a line reports nothing for it.
   */
  lemma LongBroadcastSwallows(s: Server, i: nat, text: string, env: Env, j: nat, next: string, env': Env, k: nat, c: Conn)
    returns (s1: Server)
    requires Chats(s, i, text, env) && |s.slots[i].nick| + |Sanitized(text)| > BROADCAST_ROOM
    requires Chats(AfterTouch(s, i, env.now), j, next, env')
    requires Inv(s)
    requires k < |s.slots| && IsOnline(s.slots[k]) && s.slots[k].ssl == Some(c)
    ensures s1 == Input(s, i, text + "\n", env) && j < |s1.slots|
    ensures Events(Sent(s1, c)) == Events(Sent(s, c))
    ensures var r := Input(s1, j, next + "\n", env');
      var line, fits := NextLine(s, i, text, j, next, c), |s.slots[j].nick| + |Sanitized(next)| <= BROADCAST_ROOM;
      && Events(Sent(r, c)) == Events(Sent(s, c)) + (if fits then [Unreadable(line)] else [])
      && (StreamState(Start, Sent(s, c)) == Start ==> Unreadable(line) == NoEvent)
      && (StreamState(Start, Sent(r, c)) == Start <==> fits)
  {
    hide Sanitized, Line, Events, StreamState, Honest, MessagePairs, Input, Inv, Printable, IsChat, EventOf, Put, PlainPairs, Typed;
    hide Body, Unfinished, Unreadable;
    s1 := Input(s, i, text + "\n", env);
    ChatIsWritten(s, i, k, c, text, env);
    ChatIsRead(s, i, text);
    assert IsOnline(s1.slots[k]) && s1.slots[k].ssl == Some(c);
    ChatIsWritten(s1, j, k, c, next, env');
    ChatIsRead(s1, j, next);
    assert GoodStreams(s) by { InvParts(s, i); }
    SentIsGood(s, c);
    var n, first, second := BUFFER_SIZE - 1, MessagePairs(s.slots[i].nick, Sanitized(text)), MessagePairs(s.slots[j].nick, Sanitized(next));
    PairsAreSome(first);
    MessageLineLength(s.slots[i].nick, Sanitized(text));
    MessageLineLength(s.slots[j].nick, Sanitized(next));
    CutLineIsUnfinished(Sent(s, c), first, n);
    CutLineSwallows(Sent(s, c), first, n, second);
    PartHasNoBackslash(first, n);
    CutLineIsUnfinished(Sent(s, c) + Cut(Line(first), n), second, n);
  }

  /** What a client has as one line after a broadcast that was cut and another one. */
  function NextLine(s: Server, i: nat, text: string, j: nat, next: string, c: Conn): string
    requires i < |s.slots| && j < |s.slots|
  {
    Unfinished(Sent(s, c)) + Cut(Line(MessagePairs(s.slots[i].nick, Sanitized(text))), BUFFER_SIZE - 1)
      + Body(MessagePairs(s.slots[j].nick, Sanitized(next)))
  }

  /** A text of 8150 letters: printable, no command, and with its newline short enough to be read whole. */
  function LongText(): (r: string)
    ensures |r| == 8150 && forall c :: c in r ==> c == 'a'
  {
    seq(8150, k => 'a')
  }

  /** Such a text is too long under every nick, and the line that carries it fits the server's read buffer. */
  lemma LongTextIsTooLong(nick: string)
    requires ValidNick(nick)
    ensures Printable(LongText()) && IsChat(Sanitized(LongText())) && |LongText() + "\n"| < BUFFER_SIZE
    ensures |nick| + |Sanitized(LongText())| > BROADCAST_ROOM
  {
    SafeTextStays(LongText());
    assert LongText()[0] in LongText();
  }
}
