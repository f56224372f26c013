/**
 Texts with newlines and control characters: exactly when a broadcast shows up as a text of "System", and exactly
 when an encrypted message is seen.
 */
module ChatControls {
  import opened Common
  import opened CText
  import opened JsonLines
  import opened LineStream
  import opened GenuineStreams
  import opened ChatServer
  import opened ChatInvariants
  import opened ChatRuns
  import opened ChatLines
  import opened ChatMessages
  import opened ChatSenders
  import RateLimit

  // ---------------------------------------------------------------------------------------------
  // Lines without quotes
  // ---------------------------------------------------------------------------------------------

  predicate Opens(line: string) {
    "{" <= SkipSpaces(line)
  }

  lemma {:induction false} OpensOrNot(line: string)
    requires Unquoted(line) && '\n' !in line && !Opens(line)
    ensures Read(Start, line) == Start || Read(Start, line) == Bad
    decreases |line|
  {
    if line != "" {
      assert line[0] in line && forall c :: c in line[1..] ==> c in line;
      if IsSpace(line[0]) {
        OpensOrNot(line[1..]);
      } else {
        assert line[0] != '{' by { assert SkipSpaces(line) == line; }
        BadStaysBad(line[1..]);
      }
    }
  }

  /** A line without quotes is never an object that says anything. */
  lemma SegmentEvent(line: string)
    requires Unquoted(line) && '\n' !in line
    ensures LineEvent(line) == Unreadable(line)
  {
    hide EventOf;
    OutsideText(Start, line, iset{NoEvent});
    StreamOfLine(Start, line);
    EmptyObject();
    if !Opens(line) {
      OpensOrNot(line);
    }
  }

  lemma {:induction false} OpensBeforeQuote(line: string)
    requires '"' !in line
    ensures Opens(line + "\"}") <==> Opens(line)
  {
    if line != "" {
      assert (line + "\"}")[1..] == line[1..] + "\"}" && line[0] in line;
      if IsSpace(line[0]) {
        OpensBeforeQuote(line[1..]);
      }
    } else {
      assert line + "\"}" == "\"}";
    }
  }

  /** The last line of a text, with what follows it in a message line. */
  lemma LastSegmentEvent(line: string)
    requires Unquoted(line) && '\n' !in line
    ensures LineEvent(line + "\"}") == Unreadable(line + "\"}")
  {
    hide EventOf;
    var s := Read(Start, line);
    OutsideText(Start, line, iset{NoEvent});
    StreamOfLine(Start, line);
    ReadConcat(Start, line, "\"}");
    assert "\"}"[1..] == "}" && "}"[1..] == "";
    assert Read(s, "\"}") == Step(Step(s, '"'), '}');
    assert !Read(Start, line + "\"}").Done?;
  }

  /** Some line of the text does not begin like an object. */
  predicate Loose(text: string)
    decreases |text|
  {
    var n := FirstNewline(text);
    !Opens(text[..n]) || (n < |text| && Loose(text[n + 1..]))
  }

  lemma FirstSegment(text: string)
    ensures FirstNewline(text) < |text| ==> FirstNewline(text + "\"}\n") == FirstNewline(text)
    ensures FirstNewline(text) == |text| ==> FirstNewline(text + "\"}\n") == |text| + 2
  {
    var n, all := FirstNewline(text), text + "\"}\n";
    if n < |text| {
      assert all[..n] == text[..n] && all[n] == '\n';
      NewlineAt(all, n);
    } else {
      assert all[..|text| + 2] == text + "\"}" && all[|text| + 2] == '\n';
      NewlineAt(all, |text| + 2);
    }
  }

  /** What a client reports of the rest of a message after its first newline. */
  lemma {:induction false} TailEvents(text: string)
    requires Unquoted(text)
    ensures forall e :: e in Events(text + "\"}\n") ==> e.NoEvent? || (e.Message? && e.from == "System")
    ensures (exists e :: e in Events(text + "\"}\n") && e.Message?) <==> Loose(text)
    decreases |text|
  {
    hide LineEvent, Events, Opens;
    var n, all := FirstNewline(text), text + "\"}\n";
    FirstSegment(text);
    if n < |text| {
      var rest := text[n + 1..];
      assert Unquoted(text[..n]) && Unquoted(rest) by { UnquotedParts(text, n); }
      assert all[..n] == text[..n] && all[n + 1..] == rest + "\"}\n";
      EventsStep(all, n);
      SegmentEvent(text[..n]);
      SegmentKind(text[..n]);
      TailEvents(rest);
    } else {
      assert text[..n] == text && all[..n + 2] == text + "\"}" && all[n + 2 + 1..] == "";
      EventsStep(all, n + 2);
      NoLine("");
      LastSegmentEvent(text);
      OpensBeforeQuote(text);
      SegmentKind(text + "\"}");
    }
  }

  lemma UnquotedParts(text: string, n: nat)
    requires Unquoted(text) && n < |text|
    ensures Unquoted(text[..n]) && Unquoted(text[n + 1..])
  {
    forall k | 0 <= k < |text|
      ensures text[k] != '"' && text[k] != '\\'
    {
      assert text[k] in text;
    }
  }

  lemma SegmentKind(line: string)
    ensures if Opens(line) then Unreadable(line) == NoEvent else Unreadable(line).Message? && Unreadable(line).from == "System"
  {}

  // ---------------------------------------------------------------------------------------------
  // A message with newlines
  // ---------------------------------------------------------------------------------------------

  /** Some line of the text after its first does not begin like an object. */
  predicate Breaks(text: string) {
    FirstNewline(text) < |text| && Loose(text[FirstNewline(text) + 1..])
  }

  function MessageHeads(from: string): seq<Pair> {
    [("type", JStr("message")), ("from", JStr(from))]
  }

  /** The first line of a message with newlines says nothing; the other lines are on their own. */
  lemma BrokenMessage(tail: string, from: string, text: string)
    requires SkipSpaces(tail) == "" && '\n' !in tail && Plain(from) && Unquoted(text) && FirstNewline(text) < |text|
    ensures Events(tail + Line(MessagePairs(from, text)))
      == [NoEvent] + Events(text[FirstNewline(text) + 1..] + "\"}\n")
  {
    hide LineEvent, Events, Line, TextHead, Plain, SkipSpaces;
    var n, head := FirstNewline(text), TextHead(MessageHeads(from), "text");
    var first, rest := tail + head + text[..n], text[n + 1..] + "\"}\n";
    assert PlainPairs(MessageHeads(from)) && Plain("text") by { MessageWordsArePlain(); }
    TextLineSplits(MessageHeads(from), "text", text);
    TextHeadClean(MessageHeads(from), "text");
    assert tail + (head + text + "\"}\n") == tail + head + text + "\"}\n";
    SplitAtNewline(tail + head, text, n, "\"}\n");
    FirstLineOf(first, rest);
    UnquotedParts(text, n);
    FirstLineIsNothing(tail, from, text[..n]);
  }

  lemma SplitAtNewline(before: string, text: string, n: nat, after: string)
    requires n < |text| && text[n] == '\n'
    ensures before + text + after == (before + text[..n]) + "\n" + (text[n + 1..] + after)
  {
    assert text == text[..n] + "\n" + text[n + 1..];
  }

  lemma FirstLineIsNothing(tail: string, from: string, part: string)
    requires SkipSpaces(tail) == "" && '\n' !in tail && Plain(from) && Unquoted(part) && '\n' !in part
    ensures LineEvent(tail + TextHead(MessageHeads(from), "text") + part) == NoEvent
  {
    hide Genuine, TextHead, Plain, SkipSpaces, Read, EventOf;
    var head := TextHead(MessageHeads(from), "text");
    assert PlainPairs(MessageHeads(from)) && Plain("text") by { MessageWordsArePlain(); }
    EmptyIsPlain();
    TextHeadClean(MessageHeads(from), "text");
    TextHeadFrom(Start, MessageHeads(from), "text");
    StreamOfLine(Start, head);
    var f := Put(map[], MessageHeads(from));
    InsideText(f, StringOf("text"), "", part, iset{NoEvent});
    StreamOfLine(InString(f, StringOf("text"), "", NoEscape), part);
    BlanksOnlyIff(tail);
    ReadConcat(Start, tail, head + part);
    ReadConcat(Start, head, part);
    assert tail + head + part == tail + (head + part);
    SkipBlanks(tail, head + part);
    assert (head + part)[0] == '{';
    SkipSpacesOf(head + part);
    NeverOutsideDone(Start, head, part, f);
  }

  lemma EmptyIsPlain()
    ensures Plain("")
  {}

  /** A line with the beginning of a message is no object, complete or empty. */
  lemma NeverOutsideDone(s: State, head: string, part: string, f: Fields)
    requires Read(s, head) == InString(f, StringOf("text"), "", NoEscape) && Unquoted(part) && '\n' !in part
    ensures !Read(Read(s, head), part).Done?
  {
    InStringNeverDone(f, "", part);
  }

  lemma {:induction false} InStringNeverDone(f: Fields, done: string, part: string)
    requires Unquoted(part) && '\n' !in part
    ensures !Read(InString(f, StringOf("text"), done, NoEscape), part).Done?
    decreases |part|
  {
    if part != "" {
      assert part[0] in part && forall c :: c in part[1..] ==> c in part;
      if part[0] >= ' ' {
        InStringNeverDone(f, done + [part[0]], part[1..]);
      } else {
        BadStaysBad(part[1..]);
      }
    }
  }

  /** What was added to a client's events between two states. */
  function Added(s: Server, r: Server, c: Conn): seq<Event> {
    if |Events(Sent(s, c))| <= |Events(Sent(r, c))| then Events(Sent(r, c))[|Events(Sent(s, c))|..] else []
  }

  /** What a client at the start of a line sees of a message that fits, whatever newlines and controls it holds. */
  lemma MessageEvents(before: string, from: string, text: string)
    requires '\\' !in before && StreamState(Start, before) == Start && Plain(from) && from != "System" && Unquoted(text)
    ensures var all, old_ := Events(before + Line(MessagePairs(from, text))), Events(before);
      && |old_| <= |all| && all[..|old_|] == old_
      && ((exists e :: e in all[|old_|..] && e.Message? && e.from == "System") <==> Breaks(text))
      && (Message(from, text) in all[|old_|..] <==> Plain(text))
  {
    hide LineEvent, Events, Line, StreamState, Unfinished, Loose, Plain, Read;
    var tail, line := Unfinished(before), Line(MessagePairs(from, text));
    EventsConcat(before, line);
    AtLineStartIff(before);
    var all, old_ := Events(before + line), Events(before);
    assert all[|old_|..] == Events(tail + line);
    if FirstNewline(text) < |text| {
      var rest := text[FirstNewline(text) + 1..];
      UnquotedParts(text, FirstNewline(text));
      BrokenMessage(tail, from, text);
      TailEvents(rest);
      assert [NoEvent] + Events(rest + "\"}\n") == all[|old_|..];
      BrokenIsNotPlain(text);
    } else {
      WholeMessage(before, from, text);
    }
  }

  lemma BrokenIsNotPlain(text: string)
    requires '\n' in text
    ensures !Plain(text)
  {}

  lemma WholeMessage(before: string, from: string, text: string)
    requires '\\' !in before && StreamState(Start, before) == Start && Plain(from) && Unquoted(text) && '\n' !in text
    ensures Events(Unfinished(before) + Line(MessagePairs(from, text))) == [if Plain(text) then Message(from, text) else NoEvent]
  {
    hide Events, Line, StreamState, Unfinished, Plain;
    if Plain(text) {
      PlainMessage(before, from, text);
    } else {
      AtLineStartIff(before);
      ControlMessage(Unfinished(before), from, text);
    }
  }

  lemma PlainMessage(before: string, from: string, text: string)
    requires '\\' !in before && StreamState(Start, before) == Start && Plain(from) && Plain(text)
    ensures Events(Unfinished(before) + Line(MessagePairs(from, text))) == [Message(from, text)]
  {
    hide Events, Line, StreamState, Unfinished, Plain, EventOf, Put, PlainPairs, MessagePairs, Unreadable;
    var pairs := MessagePairs(from, text);
    MessageIsRead(from, text);
    PairsAreSome(pairs);
    LineSeen(before, pairs);
    EventsConcat(before, Line(pairs));
    SameEnd(Events(before), Events(Unfinished(before) + Line(pairs)), [Message(from, text)]);
  }

  lemma ControlMessage(tail: string, from: string, text: string)
    requires SkipSpaces(tail) == "" && '\n' !in tail && Plain(from) && Unquoted(text) && '\n' !in text && !Plain(text)
    ensures Events(tail + Line(MessagePairs(from, text))) == [NoEvent]
  {
    hide LineEvent, Events, Line, Plain, TextHead, SkipSpaces;
    var head := TextHead(MessageHeads(from), "text");
    assert PlainPairs(MessageHeads(from)) && Plain("text") by { MessageWordsArePlain(); }
    TextLineSplits(MessageHeads(from), "text", text);
    TextHeadClean(MessageHeads(from), "text");
    var body := tail + head + text + "\"}";
    assert tail + (head + text + "\"}\n") == body + "\n" + "";
    FirstLineOf(body, "");
    NoLine("");
    ControlLine(tail, from, text);
  }

  lemma SameEnd(a: seq<Event>, b: seq<Event>, c: seq<Event>)
    requires a + b == a + c
    ensures b == c
  {
    assert (a + b)[|a|..] == b && (a + c)[|a|..] == c;
  }

  lemma ControlLine(tail: string, from: string, text: string)
    requires SkipSpaces(tail) == "" && '\n' !in tail && Plain(from) && Unquoted(text) && '\n' !in text && !Plain(text)
    ensures LineEvent(tail + TextHead(MessageHeads(from), "text") + text + "\"}") == NoEvent
  {
    hide Genuine, TextHead, SkipSpaces, Read, EventOf, Plain;
    var head, f := TextHead(MessageHeads(from), "text"), Put(map[], MessageHeads(from));
    assert PlainPairs(MessageHeads(from)) && Plain("text") by { MessageWordsArePlain(); }
    TextHeadClean(MessageHeads(from), "text");
    TextHeadFrom(Start, MessageHeads(from), "text");
    StreamOfLine(Start, head);
    BlanksOnlyIff(tail);
    ReadConcat(Start, tail, head + text + "\"}");
    ReadConcat(Start, head + text, "\"}");
    ReadConcat(Start, head, text);
    assert tail + head + text + "\"}" == tail + (head + text + "\"}");
    ControlBreaks(f, text);
    BadStaysBad("\"}");
    SkipBlanks(tail, head + text + "\"}");
    assert (head + text + "\"}")[0] == '{';
    SkipSpacesOf(head + text + "\"}");
  }

  /** A control character in a string is an error (section 7 of RFC 8259). */
  lemma ControlBreaks(f: Fields, text: string)
    requires Unquoted(text) && '\n' !in text && !Plain(text)
    ensures Read(InString(f, StringOf("text"), "", NoEscape), text) == Bad
  {
    ControlBreaksFrom(f, "", text);
  }

  lemma {:induction false} ControlBreaksFrom(f: Fields, done: string, text: string)
    requires Unquoted(text) && '\n' !in text && !Plain(text)
    ensures Read(InString(f, StringOf("text"), done, NoEscape), text) == Bad
    decreases |text|
  {
    assert text[0] in text && forall c :: c in text[1..] ==> c in text;
    if text[0] >= ' ' {
      assert !Plain(text[1..]) by {
        var c :| c in text && c < ' ';
        assert text == [text[0]] + text[1..];
      }
      ControlBreaksFrom(f, done + [text[0]], text[1..]);
    } else {
      BadStaysBad(text[1..]);
    }
  }

  /**
   The exact condition, for one broadcast that fits its line: a client at the start of a line reports a text of
   "System" for it if and only if the command holds a newline after which some line does not begin like an object,
   and reports the message itself if and only if the command holds no control character at all.
   */
  lemma SystemTextIff(s: Server, i: nat, k: nat, c: Conn, raw: string, env: Env)
    requires Inv(s) && i < |s.slots| && Live(s.slots[i]) && s.slots[i].authorized
    requires RateLimit.Admit(s.slots[i].limit, env.now).1
    requires raw != "" && IsChat(CommandOf(raw)) && |s.slots[i].nick| + |CommandOf(raw)| <= BROADCAST_ROOM
    requires k < |s.slots| && IsOnline(s.slots[k]) && s.slots[k].ssl == Some(c) && StreamState(Start, Sent(s, c)) == Start
    ensures var added := Added(s, Input(s, i, raw, env), c);
      && ((exists e :: e in added && e.Message? && e.from == "System") <==> Breaks(CommandOf(raw)))
      && (Message(s.slots[i].nick, CommandOf(raw)) in added <==> Plain(CommandOf(raw)))
  {
    hide Line, Events, StreamState, Input, Inv, IsChat, CommandOf, MessagePairs, Breaks, Plain, ValidNick;
    assert GoodSlot(s, s.slots[i]) && GoodStreams(s) by { InvParts(s, i); }
    var from, command := s.slots[i].nick, CommandOf(raw);
    CommandIsWritten(s, i, k, c, raw, env);
    MessageLineLength(from, command);
    SentIsGood(s, c);
    ValidIsPlain(from);
    CommandIsUnquoted(raw);
    assert from != "System" by { SystemIsNoNick(); }
    MessageEvents(Sent(s, c), from, command);
  }

  /** The input: two lines in one record, as in `LinesMerge`. */
  lemma NewlineIsHeardAsSystem()
    ensures CommandOf("a\nhi\n") == "a\nhi" && IsChat("a\nhi") && Breaks("a\nhi")
  {
    hide CommandOf;
    TwoLinesCommand();
    var text := "a\nhi";
    assert text[..1] == "a" && text[1] == '\n' && '\n' !in text[..1];
    NewlineAt(text, 1);
    assert text[2..] == "hi";
    assert FirstNewline("hi") == 2 && "hi"[..2] == "hi" && !Opens("hi");
  }

  lemma TwoLinesCommand()
    ensures CommandOf("a\nhi\n") == "a\nhi"
  {
    var raw, text := "a\nhi\n", "a\nhi";
    CStrOfText(raw);
    SafeTextStays(raw);
    assert raw[..|raw| - 1] == text;
  }

  // ---------------------------------------------------------------------------------------------
  // Encrypted messages
  // ---------------------------------------------------------------------------------------------

  /** `sendEncryptedMessage`. */
  function EncryptedCommand(to: string, text: string): string {
    "/send_enc " + to + " " + text
  }

  function EncryptedPairs(from: string, to: string, data: string): seq<Pair> {
    EncryptedHeads(from, to) + [("data", JStr(data))]
  }

  lemma EncryptedLineIsRead(to: string, text: string)
    requires ValidNick(to) && Printable(text)
    ensures CommandOf(EncryptedCommand(to, text) + "\n") == EncryptedCommand(to, Sanitized(text))
    ensures "/send_enc" <= EncryptedCommand(to, Sanitized(text))
    ensures MessageWords(EncryptedCommand(to, Sanitized(text))[9..]) == (to, Delivered(text))
  {
    hide CommandOf, MessageWords, Sanitized, Delivered;
    EncryptedLineIsText(to, text);
    CommandOfLine(EncryptedCommand(to, text));
    SanitizedOfConcat("/send_enc " + to + " ", text);
    EncryptedHeadIsSafe(to);
    EncryptedArguments(to, Sanitized(text));
    PrivateWords(to, text);
  }

  lemma EncryptedHeadIsSafe(to: string)
    requires ValidNick(to)
    ensures Sanitized("/send_enc " + to + " ") == "/send_enc " + to + " "
  {
    NickIsSafe(to);
    SafeConcat("/send_enc ", to);
    SafeConcat("/send_enc " + to, " ");
    SafeTextStays("/send_enc " + to + " ");
  }

  lemma EncryptedLineIsText(to: string, text: string)
    requires ValidNick(to) && Printable(text)
    ensures '\n' !in EncryptedCommand(to, text) && NUL !in EncryptedCommand(to, text)
  {
    NickIsSafe(to);
  }

  lemma EncryptedArguments(to: string, text: string)
    ensures "/send_enc" <= EncryptedCommand(to, text)
    ensures EncryptedCommand(to, text)[9..] == " " + (to + (" " + text))
  {
    assert "/send_enc " == "/send_enc" + " ";
    assert EncryptedCommand(to, text) == "/send_enc" + (" " + (to + (" " + text)));
  }

  lemma EncryptedTurn(s: Server, i: nat, to: string, text: string, env: Env)
    requires i < |s.slots| && Live(s.slots[i]) && s.slots[i].ssl.Some? && s.slots[i].authorized
    requires RateLimit.Admit(s.slots[i].limit, env.now).1
    requires ValidNick(to) && Printable(text) && Delivered(text) != ""
    ensures Input(s, i, EncryptedCommand(to, text) + "\n", env)
      == SendEncrypted(AfterTouch(s, i, env.now), s.slots[i].nick, to, env.cipher)
  {
    hide EncryptedCommand, CommandOf, MessageWords, Delivered, SendPrivate, SendEncrypted, Broadcast, Printed;
    EncryptedLineIsRead(to, text);
    var command := EncryptedCommand(to, Sanitized(text));
    assert command != "/online" && !("/msg" <= command) by { assert command[1] == 's'; }
    assert to != "" && EncryptedCommand(to, text) + "\n" != "";
  }

  lemma EncryptedLineLength(from: string, to: string, data: string)
    ensures |Line(EncryptedPairs(from, to, data))| == 49 + |from| + |to| + |data|
  {
    var heads := EncryptedHeads(from, to);
    TextLineSplits(heads, "data", data);
    HeadsOfThree(heads[0], heads[1], heads[2]);
    assert heads == [heads[0], heads[1], heads[2]];
  }

  /** Sender, target and data together that an encrypted line has room for. */
  const ENCRYPTED_ROOM: nat := 8142

  /** A line with data is seen exactly from a fresh line, uncut, with plain data. */
  lemma EncryptedSeenIff(before: string, from: string, to: string, data: string)
    requires '\\' !in before && Plain(from) && Plain(to) && Unquoted(data)
    ensures var all := Events(before + Printed(EncryptedPairs(from, to, data)));
      && |Events(before)| <= |all|
      && (Encrypted(from, to, data) in all[|Events(before)|..]
          <==> StreamState(Start, before) == Start && Plain(data) && |from| + |to| + |data| <= ENCRYPTED_ROOM)
  {
    hide Line, Events, StreamState, EventOf, Put, Plain, Genuine;
    var heads, pairs, n := EncryptedHeads(from, to), EncryptedPairs(from, to, data), BUFFER_SIZE - 1;
    var s := StreamState(Start, before);
    EncryptedLineLength(from, to, data);
    NoBackslashNoEscape(Start, before);
    assert PlainPairs(heads) && Plain("data") by { MessageWordsArePlain(); }
    if s == Start && Plain(data) && |Line(pairs)| <= n {
      EncryptedIsRead(from, to, data);
      LineSeen(before, pairs);
    } else {
      TextLineIsGenuine(s, heads, "data", data, n, iset{NoEvent});
      AddedAreGenuine(before, Printed(pairs), iset{NoEvent});
    }
  }

  /**
   The exact condition for an encrypted message to be seen: the target's stream is at the start of a line, the data
   are plain, and the line fits.
   */
  lemma EncryptedArrivesIff(s: Server, i: nat, j: nat, c: Conn, to: string, text: string, data: string, env: Env)
    requires Inv(s) && i < |s.slots| && Live(s.slots[i]) && s.slots[i].authorized
    requires RateLimit.Admit(s.slots[i].limit, env.now).1
    requires ValidNick(to) && Printable(text) && Delivered(text) != ""
    requires FindOnline(s.slots, to) == Some(j) && s.slots[j].ssl == Some(c)
    requires env.cipher == Some(data) && Unquoted(data)
    ensures var from, r := s.slots[i].nick, Input(s, i, EncryptedCommand(to, text) + "\n", env);
      && (Encrypted(from, to, data) in Added(s, r, c)
          <==> StreamState(Start, Sent(s, c)) == Start && Plain(data) && |from| + |to| + |data| <= ENCRYPTED_ROOM)
  {
    hide EncryptedCommand, Delivered, Line, Events, StreamState, Honest, Input, Plain, ValidNick, Inv, Printed;
    assert GoodSlot(s, s.slots[i]) && GoodStreams(s) by { InvParts(s, i); }
    var from, s1 := s.slots[i].nick, AfterTouch(s, i, env.now);
    EncryptedTurn(s, i, to, text, env);
    FindOnlineTouched(s.slots, i, env.now, to);
    ValidIsPlain(from);
    ValidIsPlain(to);
    SentIsGood(s, c);
    assert s1.slots[j].ssl == Some(c);
    assert SendEncrypted(s1, from, to, env.cipher) == Write(s1, c, Printed(EncryptedPairs(from, to, data)));
    EncryptedSeenIff(Sent(s, c), from, to, data);
  }

  /** Nothing is written when the encryption fails, the target is not online, or nothing is left of the text. */
  lemma EncryptedDropped(s: Server, i: nat, to: string, text: string, env: Env)
    requires i < |s.slots| && Live(s.slots[i]) && s.slots[i].ssl.Some? && s.slots[i].authorized
    requires RateLimit.Admit(s.slots[i].limit, env.now).1
    requires ValidNick(to) && Printable(text)
    requires env.cipher.None? || FindOnline(s.slots, to).None? || Delivered(text) == ""
    ensures Input(s, i, EncryptedCommand(to, text) + "\n", env).out == s.out
  {
    hide EncryptedCommand, CommandOf, MessageWords, Delivered, Printed, SendPrivate, Broadcast;
    if Delivered(text) == "" {
      EncryptedLineIsRead(to, text);
      var command := EncryptedCommand(to, Sanitized(text));
      assert command != "/online" && !("/msg" <= command) by { assert command[1] == 's'; }
    } else {
      EncryptedTurn(s, i, to, text, env);
      FindOnlineTouched(s.slots, i, env.now, to);
    }
  }

  /** The encoder of the server ends its output with a newline: what it gives is never plain, and never seen. */
  lemma EncodedIsNeverSeen(before: string, from: string, to: string, data: string)
    requires '\\' !in before && Plain(from) && Plain(to) && Unquoted(data) && data != "" && data[|data| - 1] == '\n'
    ensures var all := Events(before + Printed(EncryptedPairs(from, to, data)));
      |Events(before)| <= |all| && Encrypted(from, to, data) !in all[|Events(before)|..]
  {
    hide Events, Printed, StreamState;
    EncryptedSeenIff(before, from, to, data);
    assert '\n' in data;
    BrokenIsNotPlain(data);
  }
}
