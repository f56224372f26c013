/**
 What the lines of a stream can report: only events that the server wrote as lines of their own, whatever texts
 with newlines and controls stand in between, and texts of "System" for lines that do not begin like an object.
 */
module GenuineStreams {
  import opened Common
  import opened CText
  import opened JsonLines
  import opened LineStream

  /** Every line of the text that is an object, read from a given state on, reports one of the given events. */
  ghost predicate Genuine(s: State, text: string, ok: iset<Event>)
    decreases |text|
  {
    text == "" ||
    ((text[0] == '\n' && s.Done? ==> EventOf(s.f) in ok) && Genuine(StreamStep(s, text[0]), text[1..], ok))
  }

  lemma {:induction false} GenuineConcat(s: State, a: string, b: string, ok: iset<Event>)
    ensures Genuine(s, a + b, ok) <==> Genuine(s, a, ok) && Genuine(StreamState(s, a), b, ok)
    decreases |a|
  {
    if a == "" {
      assert a + b == b;
    } else {
      assert (a + b)[1..] == a[1..] + b;
      GenuineConcat(StreamStep(s, a[0]), a[1..], b, ok);
    }
  }

  lemma {:induction false} GenuineMonotone(s: State, text: string, ok: iset<Event>, ok': iset<Event>)
    requires Genuine(s, text, ok) && ok <= ok'
    ensures Genuine(s, text, ok')
    decreases |text|
  {
    if text != "" {
      GenuineMonotone(StreamStep(s, text[0]), text[1..], ok, ok');
    }
  }

  lemma {:induction false} GenuineLine(s: State, text: string, ok: iset<Event>)
    requires '\n' !in text
    ensures Genuine(s, text, ok)
    decreases |text|
  {
    if text != "" {
      assert text[0] in text;
      GenuineLine(Step(s, text[0]), text[1..], ok);
    }
  }

  lemma GenuineCut(s: State, text: string, n: nat, ok: iset<Event>)
    requires Genuine(s, text, ok)
    ensures Genuine(s, Cut(text, n), ok)
  {
    assert text == Cut(text, n) + text[|Cut(text, n)|..];
    GenuineConcat(s, Cut(text, n), text[|Cut(text, n)|..], ok);
  }

  // ---------------------------------------------------------------------------------------------
  // Lines
  // ---------------------------------------------------------------------------------------------

  lemma LineIsGenuine(s: State, pairs: seq<Pair>, ok: iset<Event>)
    requires NoPending(s) && Typed(pairs) && PlainPairs(pairs) && EventOf(Put(map[], pairs)) in ok
    ensures Genuine(s, Line(pairs), ok)
  {
    LineFrom(s, pairs);
    BodyClean(pairs);
    LineIsBody(pairs);
    GenuineLine(s, Body(pairs), ok);
    GenuineConcat(s, Body(pairs), "\n", ok);
    assert "\n"[1..] == "";
  }

  /** Where the reader can be in a text without quotes that did not begin in a string. */
  predicate Outside(s: State) {
    s == Bad || s == Start || s == FirstKey(map[]) || s == Done(map[])
  }

  lemma EmptyObject()
    ensures EventOf(map[]) == NoEvent
  {}

  lemma {:induction false} OutsideText(s: State, text: string, ok: iset<Event>)
    requires Outside(s) && Unquoted(text) && NoEvent in ok
    ensures Outside(StreamState(s, text)) && Genuine(s, text, ok)
    decreases |text|
  {
    if text != "" {
      assert text[0] in text && forall c :: c in text[1..] ==> c in text;
      EmptyObject();
      OutsideText(StreamStep(s, text[0]), text[1..], ok);
    }
  }

  /** After a text without quotes the reader is still in its string, and has the whole text, only if it is plain. */
  lemma {:induction false} InsideText(f: Fields, role: Role, done: string, text: string, ok: iset<Event>)
    requires Unquoted(text) && Plain(done) && NoEvent in ok
    ensures var s, r := InString(f, role, done, NoEscape), StreamState(InString(f, role, done, NoEscape), text);
      && Genuine(s, text, ok)
      && (Outside(r) || (r == InString(f, role, done + text, NoEscape) && Plain(done + text)))
    decreases |text|
  {
    if text == "" {
      assert done + text == done;
    } else {
      var s := InString(f, role, done, NoEscape);
      assert text[0] in text && forall c :: c in text[1..] ==> c in text;
      if text[0] >= ' ' {
        InsideText(f, role, done + [text[0]], text[1..], ok);
        assert done + [text[0]] + text[1..] == done + text;
      } else {
        OutsideText(StreamStep(s, text[0]), text[1..], ok);
      }
    }
  }

  /** The end of a line with free text, after a text that ended outside its string. */
  lemma OutsideEnds(s: State, ok: iset<Event>)
    requires Outside(s)
    ensures Genuine(s, "\"}\n", ok)
  {
    var a := Step(s, '"');
    var b := Step(a, '}');
    assert "\"}\n"[1..] == "}\n" && "\"}\n"[1..][1..] == "\n" && "\"}\n"[1..][1..][1..] == "";
    assert !b.Done?;
  }

  lemma InsideEnds(f: Fields, key: string, text: string, ok: iset<Event>)
    requires EventOf(f[key := JStr(text)]) in ok
    ensures Genuine(InString(f, StringOf(key), text, NoEscape), "\"}\n", ok)
  {
    var s := InString(f, StringOf(key), text, NoEscape);
    var a := Step(s, '"');
    var b := Step(a, '}');
    assert "\"}\n"[1..] == "}\n" && "\"}\n"[1..][1..] == "\n" && "\"}\n"[1..][1..][1..] == "";
    assert b == Done(f[key := JStr(text)]);
  }

  /** A line with free text reports its event only from a fresh line, uncut, and when its text is plain. */
  lemma TextLineIsGenuine(s: State, heads: seq<Pair>, key: string, text: string, n: nat, ok: iset<Event>)
    requires NoPending(s) && Typed(heads) && PlainPairs(heads) && Plain(key) && Unquoted(text) && NoEvent in ok
    requires var pairs := heads + [(key, JStr(text))];
      s == Start && Plain(text) && |Line(pairs)| <= n ==> EventOf(Put(map[], pairs)) in ok
    ensures Genuine(s, Cut(Line(heads + [(key, JStr(text))]), n), ok)
  {
    hide Genuine, StreamState, Put, Typed, PlainPairs, TextHead, Line, Plain, EventOf;
    var head, f, line := TextHead(heads, key), Put(map[], heads), Line(heads + [(key, JStr(text))]);
    TextLineSplits(heads, key, text);
    TextHeadFrom(s, heads, key);
    GenuineLine(s, head, ok);
    var s1 := StreamState(s, head);
    PutAppend(map[], heads, (key, JStr(text)));
    TextIsGenuine(s1, f, key, text, ok);
    GenuineConcat(s, head, text, ok);
    StreamConcat(s, head, text);
    var s2 := StreamState(s, head + text);
    if s2.InString? && |line| > n {
      GenuineLine(s2, "\"}", ok);
      GenuineConcat(s, head + text, "\"}", ok);
      assert Cut(line, n) == Cut(head + text + "\"}", n) by { CutBefore(head + text, n); }
      GenuineCut(s, head + text + "\"}", n, ok);
    } else {
      TextEndsGenuine(s2, f, key, text, ok);
      GenuineConcat(s, head + text, "\"}\n", ok);
      GenuineCut(s, line, n, ok);
    }
  }

  lemma CutBefore(text: string, n: nat)
    requires |text + "\"}\n"| > n
    ensures Cut(text + "\"}\n", n) == Cut(text + "\"}", n)
  {}

  lemma TextIsGenuine(s: State, f: Fields, key: string, text: string, ok: iset<Event>)
    requires (s == InString(f, StringOf(key), "", NoEscape) || s == Bad) && Unquoted(text) && NoEvent in ok
    ensures Genuine(s, text, ok)
    ensures var r := StreamState(s, text);
      Outside(r) || (s.InString? && r == InString(f, StringOf(key), text, NoEscape) && Plain(text))
  {
    hide Genuine, StreamState;
    if s == Bad {
      OutsideText(s, text, ok);
    } else {
      InsideText(f, StringOf(key), "", text, ok);
      assert "" + text == text;
    }
  }

  lemma TextEndsGenuine(s: State, f: Fields, key: string, text: string, ok: iset<Event>)
    requires Outside(s) || (s == InString(f, StringOf(key), text, NoEscape) && EventOf(f[key := JStr(text)]) in ok)
    ensures Genuine(s, "\"}\n", ok)
  {
    hide Genuine;
    if Outside(s) {
      OutsideEnds(s, ok);
    } else {
      InsideEnds(f, key, text, ok);
    }
  }

  // ---------------------------------------------------------------------------------------------
  // What is reported
  // ---------------------------------------------------------------------------------------------

  /** An event that a stream can report: one of its own, nothing, or a text of "System" for a line that is no object. */
  predicate Reportable(e: Event, line: string) {
    e.NoEvent? || (e == Message("System", Trimmed(line)) && !("{" <= SkipSpaces(line)))
  }

  /** The first line of a genuine stream, and the rest. */
  lemma GenuineFirstLine(text: string, ok: iset<Event>)
    requires Genuine(Start, text, ok) && FirstNewline(text) < |text|
    ensures var n := FirstNewline(text);
      && (LineEvent(text[..n]) in ok || Reportable(LineEvent(text[..n]), text[..n]))
      && Genuine(Start, text[n + 1..], ok)
  {
    var n := FirstNewline(text);
    assert text == text[..n] + text[n..];
    GenuineConcat(Start, text[..n], text[n..], ok);
    StreamOfLine(Start, text[..n]);
    assert text[n..][1..] == text[n + 1..];
  }

  /** Of all lines that one or more texts complete in a stream, none reports anything else. */
  lemma {:induction false} EventsAreGenuine(text: string, ok: iset<Event>)
    requires Genuine(Start, text, ok) && NoEvent in ok
    ensures forall e :: e in Events(text) ==> e in ok || (e.Message? && e.from == "System")
    decreases |text|
  {
    hide Genuine, Events, LineEvent;
    var n := FirstNewline(text);
    if n < |text| {
      GenuineFirstLine(text, ok);
      EventsAreGenuine(text[n + 1..], ok);
      EventsStep(text, n);
    } else {
      NoLine(text);
    }
  }

  lemma AddedAreGenuine(before: string, text: string, ok: iset<Event>)
    requires Genuine(StreamState(Start, before), text, ok) && NoEvent in ok
    ensures |Events(before)| <= |Events(before + text)|
    ensures forall e :: e in Events(before + text)[|Events(before)|..] ==> e in ok || (e.Message? && e.from == "System")
  {
    hide Genuine, Events, StreamState, Unfinished;
    var tail := Unfinished(before);
    EventsConcat(before, text);
    StreamOfUnfinished(before);
    StreamOfLine(Start, tail);
    GenuineLine(Start, tail, ok);
    GenuineConcat(Start, tail, text, ok);
    EventsAreGenuine(tail + text, ok);
    assert Events(before + text)[|Events(before)|..] == Events(tail + text);
  }

  // ---------------------------------------------------------------------------------------------
  // Streams in which every line begins like an object
  // ---------------------------------------------------------------------------------------------

  predicate Braced(text: string)
    decreases |text|
  {
    var n := FirstNewline(text);
    (text == "" || text[0] == '{') && (n < |text| ==> Braced(text[n + 1..]))
  }

  lemma {:induction false} BracedConcat(a: string, b: string)
    requires Braced(a) && Braced(b)
    ensures Braced(a + b)
    decreases |a|
  {
    var n, m := FirstNewline(a), FirstNewline(b);
    if a == "" {
      assert a + b == b;
    } else if n < |a| {
      assert (a + b)[..n] == a[..n] && (a + b)[n] == '\n' && (a + b)[n + 1..] == a[n + 1..] + b;
      NewlineAt(a + b, n);
      BracedConcat(a[n + 1..], b);
    } else if m < |b| {
      assert (a + b)[..n + m] == a + b[..m] && (a + b)[n + m] == '\n' && (a + b)[n + m + 1..] == b[m + 1..];
      NewlineAt(a + b, n + m);
    } else {
      assert '\n' !in a + b;
    }
  }

  /** A line, whole or cut, that holds no other newline. */
  lemma BracedLine(line: string, n: nat)
    requires line != "" && line[0] == '{' && forall k :: 0 <= k < |line| - 1 ==> line[k] != '\n'
    ensures Braced(Cut(line, n))
  {
    var part := Cut(line, n);
    var m := FirstNewline(part);
    assert m < |part| ==> m == |part| - 1 && part[m + 1..] == "";
  }

  /** Such a stream reports nothing but its own events. */
  lemma BracedFirstLine(text: string, ok: iset<Event>)
    requires Genuine(Start, text, ok) && Braced(text) && FirstNewline(text) < |text|
    ensures var n := FirstNewline(text);
      (LineEvent(text[..n]) in ok || LineEvent(text[..n]) == NoEvent) && Braced(text[n + 1..])
  {
    var n := FirstNewline(text);
    GenuineFirstLine(text, ok);
    assert text[..n][0] == '{' by { assert text[0] != '\n'; }
    SkipSpacesOf(text[..n]);
  }
}
