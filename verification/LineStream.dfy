/**
 The stream of bytes from the server to a client: how the client cuts it into lines, and why nothing but a
 login answer of the server is ever read as a login confirmation, however messages are cut or broken.
 */
module LineStream {
  import opened Common
  import opened CText
  import opened JsonLines

  // ---------------------------------------------------------------------------------------------
  // Reading a stream
  // ---------------------------------------------------------------------------------------------

  /** A newline ends the line and the reader starts again. */
  function StreamStep(s: State, c: char): State {
    if c == '\n' then Start else Step(s, c)
  }

  function StreamState(s: State, text: string): State
    decreases |text|
  {
    if text == "" then s else StreamState(StreamStep(s, text[0]), text[1..])
  }

  function FirstNewline(text: string): (n: nat)
    ensures n <= |text| && '\n' !in text[..n]
    ensures n < |text| ==> text[n] == '\n'
    ensures n == |text| ==> '\n' !in text
  {
    if text == "" || text[0] == '\n' then 0 else 1 + FirstNewline(text[1..])
  }

  /** `canReadLine` and the reading loop: the events of the complete lines of a stream. */
  function Events(text: string): seq<Event>
    decreases |text|
  {
    var n := FirstNewline(text);
    if n == |text| then [] else [LineEvent(text[..n])] + Events(text[n + 1..])
  }

  lemma {:induction false} StreamConcat(s: State, a: string, b: string)
    ensures StreamState(s, a + b) == StreamState(StreamState(s, a), b)
    decreases |a|
  {
    if a == "" {
      assert a + b == b;
    } else {
      assert (a + b)[1..] == a[1..] + b;
      StreamConcat(StreamStep(s, a[0]), a[1..], b);
    }
  }

  lemma {:induction false} StreamOfLine(s: State, text: string)
    requires '\n' !in text
    ensures StreamState(s, text) == Read(s, text)
    decreases |text|
  {
    if text != "" {
      assert text[0] in text;
      StreamOfLine(Step(s, text[0]), text[1..]);
    }
  }

  // ---------------------------------------------------------------------------------------------
  // Honest streams
  // ---------------------------------------------------------------------------------------------

  predicate Confirms(s: State) {
    s.Done? && EventOf(s.f).LoginOk?
  }

  /** No line of the text, read from a given state on, confirms a login for a nick outside `ok`. */
  predicate Honest(s: State, text: string, ok: set<string>)
    decreases |text|
  {
    text == "" ||
    ((text[0] == '\n' && Confirms(s) ==> EventOf(s.f).nick in ok) && Honest(StreamStep(s, text[0]), text[1..], ok))
  }

  lemma {:induction false} HonestConcat(s: State, a: string, b: string, ok: set<string>)
    ensures Honest(s, a + b, ok) <==> Honest(s, a, ok) && Honest(StreamState(s, a), b, ok)
    decreases |a|
  {
    if a == "" {
      assert a + b == b;
    } else {
      assert (a + b)[1..] == a[1..] + b;
      HonestConcat(StreamStep(s, a[0]), a[1..], b, ok);
    }
  }

  lemma {:induction false} HonestMonotone(s: State, text: string, ok: set<string>, ok': set<string>)
    requires Honest(s, text, ok) && ok <= ok'
    ensures Honest(s, text, ok')
    decreases |text|
  {
    if text != "" {
      HonestMonotone(StreamStep(s, text[0]), text[1..], ok, ok');
    }
  }

  lemma {:induction false} HonestLine(s: State, text: string, ok: set<string>)
    requires '\n' !in text
    ensures Honest(s, text, ok)
    decreases |text|
  {
    if text != "" {
      assert text[0] in text;
      HonestLine(Step(s, text[0]), text[1..], ok);
    }
  }

  /** The first line of an honest stream confirms no other login, and the rest of the stream is honest. */
  lemma HonestFirstLine(text: string, ok: set<string>)
    requires Honest(Start, text, ok) && FirstNewline(text) < |text|
    ensures var n := FirstNewline(text);
      && (LineEvent(text[..n]).LoginOk? ==> LineEvent(text[..n]).nick in ok)
      && Honest(Start, text[n + 1..], ok)
      && StreamState(Start, text) == StreamState(Start, text[n + 1..])
  {
    var n := FirstNewline(text);
    assert text == text[..n] + text[n..];
    HonestConcat(Start, text[..n], text[n..], ok);
    StreamConcat(Start, text[..n], text[n..]);
    StreamOfLine(Start, text[..n]);
    assert text[n..][1..] == text[n + 1..];
  }

  // ---------------------------------------------------------------------------------------------
  // Streams without backslashes
  // ---------------------------------------------------------------------------------------------

  predicate NoPending(s: State) {
    s.InString? ==> s.esc == NoEscape
  }

  lemma {:induction false} NoBackslashNoEscape(s: State, text: string)
    requires NoPending(s) && '\\' !in text
    ensures NoPending(StreamState(s, text))
    decreases |text|
  {
    if text != "" {
      assert text[0] in text;
      assert NoPending(StreamStep(s, text[0]));
      NoBackslashNoEscape(StreamStep(s, text[0]), text[1..]);
    }
  }

  /** How every server line begins. */
  const OPENING: string := "{\"t"

  /** An unfinished line swallows the line written next: its opening cannot go on from anywhere. */
  lemma OpeningKillsUnfinished(s: State)
    requires NoPending(s) && s != Start
    ensures StreamState(s, OPENING) == Bad
  {
    var a := Step(s, '{');
    assert OPENING[1..] == "\"t" && OPENING[1..][1..] == "t" && OPENING[1..][1..][1..] == "";
    assert a == Bad || (a.InString? && a.esc == NoEscape);
    assert Step(Step(a, '"'), 't') == Bad;
  }

  lemma {:induction false} BadLine(text: string)
    requires '\n' !in text
    ensures StreamState(Bad, text) == Bad
  {
    StreamOfLine(Bad, text);
    BadStaysBad(text);
  }

  // ---------------------------------------------------------------------------------------------
  // Complete lines
  // ---------------------------------------------------------------------------------------------

  ghost predicate Typed(pairs: seq<Pair>) {
    pairs != [] && pairs[0].0 == "type" && pairs[0].1.JStr?
  }

  lemma TypedOpens(pairs: seq<Pair>)
    requires Typed(pairs)
    ensures OPENING <= Body(pairs) && OPENING <= Line(pairs)
  {
    var heads := pairs[..|pairs| - 1];
    assert PairText(pairs[0])[0] == '"' && PairText(pairs[0])[1] == "type"[0];
    if |pairs| > 1 {
      assert heads[0] == pairs[0];
      assert Heads(heads)[0] == '"' && Heads(heads)[1] == 't';
    }
    assert Body(pairs)[0] == '{' && Body(pairs)[1] == '"' && Body(pairs)[2] == 't';
    LineIsBody(pairs);
  }

  lemma PlainHasNoNewline(s: string)
    requires Plain(s)
    ensures '\n' !in s && '\\' !in s
  {}

  lemma {:induction false} ElementsClean(elems: seq<string>)
    requires forall e :: e in elems ==> Plain(e)
    ensures '\n' !in Elements(elems) && '\\' !in Elements(elems)
    decreases |elems|
  {
    if elems != [] {
      PlainHasNoNewline(elems[0]);
      if |elems| > 1 {
        ElementsClean(elems[1..]);
      }
    }
  }

  lemma PairClean(p: Pair)
    requires PlainPair(p)
    ensures '\n' !in PairText(p) && '\\' !in PairText(p)
  {
    PlainHasNoNewline(p.0);
    match p.1
    case JStr(s) => PlainHasNoNewline(s);
    case JNum(digits) =>
      forall c | c in digits
        ensures c != '\n' && c != '\\'
      {
        assert IsDigit(c);
      }
    case JArr(elems) => ElementsClean(elems);
  }

  lemma {:induction false} HeadsClean(pairs: seq<Pair>)
    requires PlainPairs(pairs)
    ensures '\n' !in Heads(pairs) && '\\' !in Heads(pairs)
    decreases |pairs|
  {
    if pairs != [] {
      PairClean(pairs[0]);
      HeadsClean(pairs[1..]);
    }
  }

  lemma BodyClean(pairs: seq<Pair>)
    requires pairs != [] && PlainPairs(pairs)
    ensures '\n' !in Body(pairs) && '\\' !in Body(pairs)
    ensures '\\' !in Line(pairs)
  {
    HeadsClean(pairs[..|pairs| - 1]);
    PairClean(pairs[|pairs| - 1]);
    LineIsBody(pairs);
  }

  /** From a fresh line a complete line is read as its pairs; from an unfinished one it is lost. */
  lemma LineFrom(s: State, pairs: seq<Pair>)
    requires NoPending(s) && Typed(pairs) && PlainPairs(pairs)
    ensures StreamState(s, Body(pairs)) == if s == Start then Done(Put(map[], pairs)) else Bad
    ensures StreamState(s, Line(pairs)) == Start
  {
    var body := Body(pairs);
    BodyClean(pairs);
    LineIsBody(pairs);
    StreamConcat(s, body, "\n");
    if s == Start {
      LineRoundTrip(pairs);
      StreamOfLine(Start, body);
    } else {
      TypedOpens(pairs);
      assert body == OPENING + body[3..];
      StreamConcat(s, OPENING, body[3..]);
      OpeningKillsUnfinished(s);
      assert '\n' !in body[3..];
      BadLine(body[3..]);
    }
    assert "\n"[1..] == "";
  }

  lemma LineIsHonest(s: State, pairs: seq<Pair>, ok: set<string>)
    requires NoPending(s) && Typed(pairs) && PlainPairs(pairs)
    requires EventOf(Put(map[], pairs)).LoginOk? ==> EventOf(Put(map[], pairs)).nick in ok
    ensures Honest(s, Line(pairs), ok)
  {
    LineFrom(s, pairs);
    BodyClean(pairs);
    LineIsBody(pairs);
    HonestLine(s, Body(pairs), ok);
    HonestConcat(s, Body(pairs), "\n", ok);
    assert "\n"[1..] == "";
  }

  // ---------------------------------------------------------------------------------------------
  // Lines with free text, possibly cut
  // ---------------------------------------------------------------------------------------------

  /** Where the reader can be inside free text that holds no quote, whatever newlines and controls it has. */
  predicate Carries(s: State, f: Fields, key: string) {
    s == Bad || s == Start || s == FirstKey(map[]) || s == Done(map[]) ||
    (s.InString? && s.f == f && s.role == StringOf(key) && s.esc == NoEscape)
  }

  lemma CarriesStep(s: State, f: Fields, key: string, c: char)
    requires Carries(s, f, key) && c != '"' && c != '\\'
    ensures Carries(StreamStep(s, c), f, key) && !Confirms(s)
  {}

  lemma {:induction false} CarriesText(s: State, f: Fields, key: string, text: string, ok: set<string>)
    requires Carries(s, f, key) && Unquoted(text)
    ensures Carries(StreamState(s, text), f, key) && Honest(s, text, ok)
    decreases |text|
  {
    if text != "" {
      assert text[0] in text && forall c :: c in text[1..] ==> c in text;
      CarriesStep(s, f, key, text[0]);
      CarriesText(StreamStep(s, text[0]), f, key, text[1..], ok);
    }
  }

  /** The end of a line with free text. */
  lemma TextEnds(s: State, f: Fields, key: string, ok: set<string>)
    requires Carries(s, f, key) && key != "type" && Str(f, "type") != "login"
    ensures Honest(s, "\"}\n", ok)
  {
    var a := Step(s, '"');
    var b := Step(a, '}');
    assert "\"}\n"[1..] == "}\n" && "\"}\n"[1..][1..] == "\n" && "\"}\n"[1..][1..][1..] == "";
    assert !Confirms(b);
  }

  /** The line up to the free text. */
  function TextHead(heads: seq<Pair>, key: string): string {
    "{" + Heads(heads) + Quoted(key) + ":\""
  }

  lemma TextLineSplits(heads: seq<Pair>, key: string, text: string)
    ensures Line(heads + [(key, JStr(text))]) == TextHead(heads, key) + text + "\"}\n"
  {
    var pairs := heads + [(key, JStr(text))];
    assert pairs[..|pairs| - 1] == heads;
    assert PairText((key, JStr(text))) == Quoted(key) + ":\"" + text + "\"";
  }

  lemma TextHeadFrom(s: State, heads: seq<Pair>, key: string)
    requires NoPending(s) && Typed(heads) && PlainPairs(heads) && Plain(key)
    ensures '\n' !in TextHead(heads, key) && '\\' !in TextHead(heads, key) && OPENING <= TextHead(heads, key)
    ensures StreamState(s, TextHead(heads, key))
      == if s == Start then InString(Put(map[], heads), StringOf(key), "", NoEscape) else Bad
  {
    hide StreamState, Put, PlainPairs, TextHead, Plain;
    var h := TextHead(heads, key);
    TextHeadClean(heads, key);
    if s == Start {
      StreamOfLine(Start, h);
      ReadTextHead(heads, key);
    } else {
      assert h == OPENING + h[3..];
      StreamConcat(s, OPENING, h[3..]);
      OpeningKillsUnfinished(s);
      assert '\n' !in h[3..];
      BadLine(h[3..]);
    }
  }

  lemma TextHeadClean(heads: seq<Pair>, key: string)
    requires Typed(heads) && PlainPairs(heads) && Plain(key)
    ensures '\n' !in TextHead(heads, key) && '\\' !in TextHead(heads, key) && OPENING <= TextHead(heads, key)
  {
    var h := TextHead(heads, key);
    HeadsClean(heads);
    PlainHasNoNewline(key);
    TypedOpens(heads + [(key, JStr(""))]);
    TextLineSplits(heads, key, "");
    assert |h| >= 3 && h == Line(heads + [(key, JStr(""))])[..|h|];
  }

  lemma ReadTextHead(heads: seq<Pair>, key: string)
    requires heads != [] && PlainPairs(heads) && Plain(key)
    ensures Read(Start, TextHead(heads, key)) == InString(Put(map[], heads), StringOf(key), "", NoEscape)
  {
    hide Read, Heads, Put, Plain, PlainPairs;
    var open := NextKey(Put(map[], heads));
    ReadOpening(heads);
    assert TextHead(heads, key) == ("{" + Heads(heads)) + (Quoted(key) + ":\"");
    ReadConcat(Start, "{" + Heads(heads), Quoted(key) + ":\"");
    ReadConcat(open, Quoted(key), ":\"");
    ReadQuoted(open, Put(map[], heads), Key, key);
    assert ":\"" == ":" + "\"";
    ReadConcat(Colon(Put(map[], heads), key), ":", "\"");
    ReadOne(Colon(Put(map[], heads), key), ':');
    ReadOne(Value(Put(map[], heads), key), '"');
  }

  /** However it is cut, a line with free text that is no login answer confirms no login. */
  lemma TextLineIsHonest(s: State, heads: seq<Pair>, key: string, text: string, n: nat, ok: set<string>)
    requires NoPending(s) && Typed(heads) && PlainPairs(heads) && Plain(key) && Unquoted(text)
    requires key != "type" && Str(Put(map[], heads), "type") != "login"
    ensures Honest(s, Cut(Line(heads + [(key, JStr(text))]), n), ok)
    ensures '\\' !in Cut(Line(heads + [(key, JStr(text))]), n)
  {
    hide Honest, StreamState, Put, Typed, PlainPairs, TextHead, Line;
    var head, f := TextHead(heads, key), Put(map[], heads);
    var line := Line(heads + [(key, JStr(text))]);
    TextLineSplits(heads, key, text);
    TextHeadFrom(s, heads, key);
    var s1 := StreamState(s, head);
    CarriesText(s1, f, key, text, ok);
    TextEnds(StreamState(s1, text), f, key, ok);
    HonestLine(s, head, ok);
    HonestConcat(s, head, text, ok);
    StreamConcat(s, head, text);
    HonestConcat(s, head + text, "\"}\n", ok);
    assert line == Cut(line, n) + line[|Cut(line, n)|..];
    HonestConcat(s, Cut(line, n), line[|Cut(line, n)|..], ok);
    assert '\\' !in line;
  }

  lemma CutIsHonest(s: State, line: string, n: nat, ok: set<string>)
    requires Honest(s, line, ok)
    ensures Honest(s, Cut(line, n), ok)
  {
    assert line == Cut(line, n) + line[|Cut(line, n)|..];
    HonestConcat(s, Cut(line, n), line[|Cut(line, n)|..], ok);
  }

  // ---------------------------------------------------------------------------------------------
  // What the client sees of a complete line
  // ---------------------------------------------------------------------------------------------

  /** What a stream ends with: the part after the last newline. */
  function Unfinished(text: string): (r: string)
    ensures '\n' !in r && |r| <= |text|
    decreases |text|
  {
    var n := FirstNewline(text);
    if n == |text| then text else Unfinished(text[n + 1..])
  }

  /** A line that ends at `n`, and the rest. */
  lemma EventsStep(text: string, n: nat)
    requires n < |text| && text[n] == '\n' && '\n' !in text[..n]
    ensures Events(text) == [LineEvent(text[..n])] + Events(text[n + 1..])
  {
    hide LineEvent, FirstNewline;
    NewlineAt(text, n);
  }

  lemma FirstLineOf(first: string, rest: string)
    requires '\n' !in first
    ensures Events(first + "\n" + rest) == [LineEvent(first)] + Events(rest)
  {
    hide LineEvent, Events;
    var all := first + "\n" + rest;
    assert all[..|first|] == first && all[|first|] == '\n' && all[|first| + 1..] == rest;
    EventsStep(all, |first|);
  }

  /** The events of a stream to which more is written. */
  lemma {:induction false} EventsConcat(a: string, b: string)
    ensures Events(a + b) == Events(a) + Events(Unfinished(a) + b)
    decreases |a|
  {
    hide LineEvent, Events, Unfinished;
    var n := FirstNewline(a);
    if n < |a| {
      EventsConcat(a[n + 1..], b);
      EventsConcatStep(a, b, n);
    } else {
      NoLine(a);
      assert [] + Events(a + b) == Events(a + b);
    }
  }

  lemma EventsConcatStep(a: string, b: string, n: nat)
    requires n == FirstNewline(a) < |a|
    ensures Events(a + b) == [LineEvent(a[..n])] + Events(a[n + 1..] + b)
    ensures Events(a) == [LineEvent(a[..n])] + Events(a[n + 1..])
    ensures Unfinished(a) == Unfinished(a[n + 1..])
  {
    hide LineEvent, Events, Unfinished;
    assert (a + b)[..n] == a[..n] && (a + b)[n] == '\n' && (a + b)[n + 1..] == a[n + 1..] + b;
    EventsStep(a + b, n);
    EventsStep(a, n);
    UnfinishedStep(a);
  }

  /** Without a newline there is no event yet. */
  lemma NoLine(text: string)
    requires FirstNewline(text) == |text|
    ensures Events(text) == [] && Unfinished(text) == text
  {
    hide LineEvent, FirstNewline;
  }

  lemma UnfinishedStep(text: string)
    requires FirstNewline(text) < |text|
    ensures Unfinished(text) == Unfinished(text[FirstNewline(text) + 1..])
  {
    hide FirstNewline;
  }

  lemma {:induction false} NewlineAt(text: string, n: nat)
    requires n < |text| && text[n] == '\n' && '\n' !in text[..n]
    ensures FirstNewline(text) == n
  {
    if n > 0 {
      assert text[0] == text[..n][0];
      assert text[1..][..n - 1] == text[..n][1..];
      NewlineAt(text[1..], n - 1);
    }
  }

  lemma {:induction false} StreamOfUnfinished(text: string)
    ensures StreamState(Start, text) == Read(Start, Unfinished(text))
    decreases |text|
  {
    var n := FirstNewline(text);
    if n == |text| {
      StreamOfLine(Start, text);
    } else {
      assert text == text[..n] + text[n..];
      StreamConcat(Start, text[..n], text[n..]);
      assert text[n..][1..] == text[n + 1..];
      StreamOfUnfinished(text[n + 1..]);
    }
  }

  lemma {:induction false} NeverStartsAgain(s: State, text: string)
    requires s != Start
    ensures Read(s, text) != Start
    decreases |text|
  {
    if text != "" {
      NeverStartsAgain(Step(s, text[0]), text[1..]);
    }
  }

  lemma {:induction false} BlanksOnlyIff(text: string)
    ensures Read(Start, text) == Start <==> SkipSpaces(text) == ""
    decreases |text|
  {
    if text != "" {
      if IsSpace(text[0]) {
        BlanksOnlyIff(text[1..]);
      } else {
        NeverStartsAgain(Step(Start, text[0]), text[1..]);
      }
    }
  }

  /** No unfinished line stands at the end of a stream if and only if only blanks follow its last newline. */
  lemma AtLineStartIff(text: string)
    ensures StreamState(Start, text) == Start <==> SkipSpaces(Unfinished(text)) == ""
  {
    hide Read, StreamState, Unfinished, SkipSpaces;
    StreamOfUnfinished(text);
    BlanksOnlyIff(Unfinished(text));
  }

  /** What the client makes of a line it cannot read: nothing if it begins like an object, else a text of "System". */
  function Unreadable(line: string): Event {
    if "{" <= SkipSpaces(line) then NoEvent else Message("System", Trimmed(line))
  }

  /**
   What becomes of a line: it is read as its pairs if and only if no unfinished line stands before it; otherwise
   the two are one line that cannot be read.
   */
  lemma LineSeen(before: string, pairs: seq<Pair>)
    requires '\\' !in before && Typed(pairs) && PlainPairs(pairs)
    ensures Events(before + Line(pairs)) == Events(before) +
      [if StreamState(Start, before) == Start then EventOf(Put(map[], pairs)) else Unreadable(Unfinished(before) + Body(pairs))]
  {
    hide Line, Events, StreamState, LineEvent, EventOf, Put, Unreadable, PlainPairs, Unfinished;
    var tail, body := Unfinished(before), Body(pairs);
    EventsConcat(before, Line(pairs));
    LineIsBody(pairs);
    BodyClean(pairs);
    assert tail + Line(pairs) == (tail + body) + "\n" + "";
    FirstLineOf(tail + body, "");
    NoLine("");
    JoinedLine(before, pairs);
  }

  lemma JoinedLine(before: string, pairs: seq<Pair>)
    requires '\\' !in before && Typed(pairs) && PlainPairs(pairs)
    ensures LineEvent(Unfinished(before) + Body(pairs)) ==
      if StreamState(Start, before) == Start then EventOf(Put(map[], pairs)) else Unreadable(Unfinished(before) + Body(pairs))
  {
    hide StreamState, EventOf, Put, PlainPairs, Read, Unfinished, Trimmed, SkipSpaces;
    BodyClean(pairs);
    StreamOfUnfinished(before);
    NoBackslashNoEscape(Start, before);
    LineFrom(StreamState(Start, before), pairs);
    StreamOfLine(StreamState(Start, before), Body(pairs));
    ReadConcat(Start, Unfinished(before), Body(pairs));
  }
}
