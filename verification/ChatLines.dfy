/**
 What the handler makes of the lines clients send, and what clients see of the lines it writes.
 */
module ChatLines {
  import opened Common
  import opened CText
  import opened JsonLines
  import opened LineStream
  import opened ChatServer
  import opened ChatInvariants
  import opened ChatRuns

  // ---------------------------------------------------------------------------------------------
  // What the handler makes of a line
  // ---------------------------------------------------------------------------------------------

  lemma {:induction false} CStrOfText(text: string)
    requires NUL !in text
    ensures CStr(text) == text
  {
    if text != "" {
      assert text[0] in text;
      CStrOfText(text[1..]);
    }
  }

  /** A typed line becomes its sanitised text. */
  lemma CommandOfLine(words: string)
    requires '\n' !in words && NUL !in words
    ensures CommandOf(words + "\n") == Sanitized(words)
  {
    CStrOfText(words + "\n");
    SanitizedOfConcat(words, "\n");
    SanitizedIsSafe(words);
    assert Sanitized("\n") == "\n" by { assert "\n"[1..] == ""; }
    StripsOne(Sanitized(words));
  }

  lemma StripsOne(text: string)
    requires '\n' !in text
    ensures text != "" ==> (text + "\n")[0] != '\n'
    ensures StripNewline(text + "\n") == text
  {
    assert text != "" ==> text[0] in text;
  }

  lemma SafeTextStays(s: string)
    requires forall c :: c in s ==> !Unsafe(c)
    ensures Sanitized(s) == s
  {
    SanitizedIsIdentityIff(s);
  }

  ghost predicate SafeText(s: string) {
    forall c :: c in s ==> !Unsafe(c) && c != '\n' && c != NUL
  }

  lemma SafeConcat(a: string, b: string)
    requires SafeText(a) && SafeText(b)
    ensures SafeText(a + b)
  {}

  lemma NickIsSafe(nick: string)
    requires forall c :: c in nick ==> NickChar(c)
    ensures forall c :: c in nick ==> !Unsafe(c) && !IsSpace(c) && c != NUL && c != '\n'
  {
    forall c | c in nick
      ensures !Unsafe(c) && !IsSpace(c) && c != NUL && c != '\n'
    {
      assert NickChar(c);
    }
  }

  lemma ValidIsPlain(nick: string)
    requires ValidNick(nick)
    ensures Plain(nick)
  {
    NickIsPlain(nick);
  }

  lemma SkipOneSpace(s: string)
    requires s == "" || !IsSpace(s[0])
    ensures SkipSpaces(" " + s) == s
  {
    assert (" " + s)[1..] == s;
    SkipSpacesOf(s);
  }

  /** The state after an admitted turn of slot `i`, before its command is looked at. */
  function AfterTouch(s: Server, i: nat, now: int): Server
    requires i < |s.slots|
  {
    s.(slots := s.slots[i := Touched(s.slots[i], now)])
  }

  // ---------------------------------------------------------------------------------------------
  // What a client sees of a stream
  // ---------------------------------------------------------------------------------------------

  lemma SentIsGood(s: Server, c: Conn)
    requires GoodStreams(s)
    ensures c !in s.granted ==> StreamState(Start, Sent(s, c)) == Start
    ensures '\\' !in Sent(s, c)
  {
    if c in s.out {
      assert GoodStream(s, c, s.out[c]);
    }
  }

  lemma InvParts(s: Server, i: nat)
    requires Inv(s) && i < |s.slots|
    ensures GoodSlot(s, s.slots[i]) && GoodStreams(s)
  {}

  lemma EventsExtend(before: string, pairs: seq<Pair>, after: string)
    requires '\\' !in before && Typed(pairs) && PlainPairs(pairs) && StreamState(Start, before) == Start
    requires before + Line(pairs) <= after
    ensures |Events(before)| < |Events(after)|
    ensures Events(after)[..|Events(before)|] == Events(before)
    ensures Events(after)[|Events(before)|] == EventOf(Put(map[], pairs))
  {
    hide Line, PlainPairs, EventOf, Put, Events, StreamState, Unfinished, Unreadable;
    var text := before + Line(pairs);
    LineSeen(before, pairs);
    assert after == text + after[|text|..];
    EventsConcat(text, after[|text|..]);
  }

  /**
   Apart from the sender's clock and limiter only the bytes for `c` changed, and there one line was added: it is
   reported as `e` if and only if no unfinished line stood before it.
   */
  ghost predicate Arrives(s: Server, r: Server, i: nat, now: int, c: Conn, e: Event) {
    && i < |s.slots|
    && r == AfterTouch(s, i, now).(out := r.out)
    && r.out == s.out[c := Sent(r, c)]
    && |Events(Sent(r, c))| == |Events(Sent(s, c))| + 1
    && Events(Sent(r, c))[..|Events(Sent(s, c))|] == Events(Sent(s, c))
    && (Events(Sent(r, c))[|Events(Sent(s, c))|] == e <==> StreamState(Start, Sent(s, c)) == Start)
  }

  lemma WrittenArrives(s: Server, s1: Server, i: nat, now: int, c: Conn, pairs: seq<Pair>)
    requires i < |s.slots| && s1 == AfterTouch(s, i, now) && '\\' !in Sent(s, c)
    requires Typed(pairs) && PlainPairs(pairs)
    requires var e := EventOf(Put(map[], pairs)); !e.NoEvent? && !e.Message?
    ensures Arrives(s, Write(s1, c, Line(pairs)), i, now, c, EventOf(Put(map[], pairs)))
  {
    hide PlainPairs, Events, StreamState, EventOf;
    LineSeen(Sent(s, c), pairs);
  }

  // ---------------------------------------------------------------------------------------------
  // Lines that are cut
  // ---------------------------------------------------------------------------------------------

  lemma StartsNoMore(s: State, text: string)
    requires text != "" && text[0] == '{'
    ensures Read(s, text) != Start
  {
    NeverStartsAgain(JsonLines.Step(s, text[0]), text[1..]);
  }

  /**
   A line that does not fit its buffer loses its newline: the client sees nothing of it yet, and by `LineSeen`
   it cannot read the next line.
   */
  lemma CutLineIsUnfinished(before: string, pairs: seq<Pair>, n: nat)
    requires '\\' !in before && Typed(pairs) && PlainPairs(pairs) && 0 < n
    ensures n < |Line(pairs)| ==> Events(before + Cut(Line(pairs), n)) == Events(before)
    ensures StreamState(Start, before + Cut(Line(pairs), n)) == Start <==> |Line(pairs)| <= n
  {
    hide StreamState, Events, Unfinished, Read, Typed, PlainPairs;
    PairsAreSome(pairs);
    var part := Cut(Line(pairs), n);
    var s := StreamState(Start, before);
    NoBackslashNoEscape(Start, before);
    StreamConcat(Start, before, part);
    if |Line(pairs)| <= n {
      LineFrom(s, pairs);
    } else {
      PartOfBody(pairs, n);
      StreamOfLine(s, part);
      StartsNoMore(s, part);
      EventsConcat(before, part);
      NoNewlineNoEvent(Unfinished(before) + part);
    }
  }

  lemma PairsAreSome(pairs: seq<Pair>)
    requires Typed(pairs)
    ensures pairs != []
  {}

  lemma PartOfBody(pairs: seq<Pair>, n: nat)
    requires Typed(pairs) && PlainPairs(pairs) && 0 < n < |Line(pairs)|
    ensures Line(pairs)[..n] <= Body(pairs) && Line(pairs)[0] == '{' && '\n' !in Line(pairs)[..n]
  {
    LineIsBody(pairs);
    BodyClean(pairs);
    assert Line(pairs)[..n] == Body(pairs)[..n];
  }

  lemma NoNewlineNoEvent(text: string)
    requires '\n' !in text
    ensures Events(text) == []
  {}

  lemma PartHasNoBackslash(pairs: seq<Pair>, n: nat)
    requires Typed(pairs) && PlainPairs(pairs)
    ensures '\\' !in Cut(Line(pairs), n)
  {
    BodyClean(pairs);
  }

  lemma {:induction false} UnfinishedConcat(a: string, b: string)
    requires '\n' !in b
    ensures Unfinished(a + b) == Unfinished(a) + b
    decreases |a|
  {
    hide Unfinished;
    var n := FirstNewline(a);
    if n < |a| {
      UnfinishedConcat(a[n + 1..], b);
      assert (a + b)[..n] == a[..n] && (a + b)[n] == '\n' && (a + b)[n + 1..] == a[n + 1..] + b;
      NewlineAt(a + b, n);
      UnfinishedStep(a + b);
      UnfinishedStep(a);
    } else {
      NoLine(a);
      NoLine(a + b);
    }
  }

  lemma {:induction false} SkipBlanks(blanks: string, text: string)
    requires SkipSpaces(blanks) == ""
    ensures SkipSpaces(blanks + text) == SkipSpaces(text)
  {
    if blanks == "" {
      assert blanks + text == text;
    } else {
      assert (blanks + text)[1..] == blanks[1..] + text;
      SkipBlanks(blanks[1..], text);
    }
  }

  /**
   After a cut line the client cannot read the next one, whatever it is and whatever stood before: both, with what
   stood before, make one line.  If nothing stood before, it reports nothing for the two.
   */
  lemma CutLineSwallows(before: string, first: seq<Pair>, n: nat, second: seq<Pair>)
    requires '\\' !in before
    requires Typed(first) && PlainPairs(first) && Typed(second) && PlainPairs(second) && 0 < n < |Line(first)|
    ensures var joined := Unfinished(before) + Cut(Line(first), n) + Body(second);
      && Events(before + Cut(Line(first), n) + Line(second)) == Events(before) + [Unreadable(joined)]
      && (StreamState(Start, before) == Start ==> Unreadable(joined) == NoEvent)
    ensures StreamState(Start, before + Cut(Line(first), n) + Line(second)) == Start
  {
    hide Line, Body, Events, StreamState, PlainPairs, Unfinished, Unreadable;
    var part := Cut(Line(first), n);
    PartOfBody(first, n);
    PartHasNoBackslash(first, n);
    CutLineIsUnfinished(before, first, n);
    UnfinishedConcat(before, part);
    LineSeen(before + part, second);
    NoBackslashNoEscape(Start, before + part);
    StreamConcat(Start, before + part, Line(second));
    LineFrom(StreamState(Start, before + part), second);
    if StreamState(Start, before) == Start {
      AtLineStartIff(before);
      OpensLikeObject(Unfinished(before), part + Body(second));
      assert Unfinished(before) + part + Body(second) == Unfinished(before) + (part + Body(second));
    }
  }

  lemma OpensLikeObject(blanks: string, text: string)
    requires SkipSpaces(blanks) == "" && text != "" && text[0] == '{'
    ensures Unreadable(blanks + text) == NoEvent
  {
    SkipBlanks(blanks, text);
    SkipSpacesOf(text);
  }
}
