/**
 The lines the server writes, the reader the client runs on them, and the lemmas that connect the two.

 The reader is the automaton of RFC 8259 for objects whose values are strings (section 7), whole numbers and
 arrays of strings; any other value is rejected.  It works character by character, so that it can be
 followed through any concatenation of server writes.
 */
module JsonLines {
  import opened Common
  import opened CText

  datatype JVal = JStr(s: string) | JNum(digits: string) | JArr(elems: seq<string>)

  type Fields = map<string, JVal>

  type Pair = (string, JVal)

  // ---------------------------------------------------------------------------------------------
  // The reader
  // ---------------------------------------------------------------------------------------------

  /** What a string is read for. */
  datatype Role = Key | StringOf(key: string) | ElementOf(key: string, elems: seq<string>)

  datatype Escape = NoEscape | Slash | Unicode(digits: nat, value: nat)

  datatype State =
    | Start
    | FirstKey(f: Fields)
    | NextKey(f: Fields)
    | InString(f: Fields, role: Role, acc: string, esc: Escape)
    | Colon(f: Fields, key: string)
    | Value(f: Fields, key: string)
    | InNumber(f: Fields, key: string, acc: string)
    | FirstElement(f: Fields, key: string)
    | NextElement(f: Fields, key: string, elems: seq<string>)
    | ElementEnd(f: Fields, key: string, elems: seq<string>)
    | ValueEnd(f: Fields)
    | Done(f: Fields)
    | Bad

  predicate IsBlank(c: char) {
    c == ' ' || c == '\t' || c == '\n' || c == '\r'
  }

  /** The character of a two-character escape. */
  function Unescaped(c: char): char {
    match c
    case 'b' => 8 as char
    case 'f' => 12 as char
    case 'n' => '\n'
    case 'r' => '\r'
    case 't' => '\t'
    case _ => c
  }

  predicate IsEscapable(c: char) {
    c == '"' || c == '\\' || c == '/' || c == 'b' || c == 'f' || c == 'n' || c == 'r' || c == 't'
  }

  function EndString(f: Fields, role: Role, acc: string): State {
    match role
    case Key => Colon(f, acc)
    case StringOf(key) => ValueEnd(f[key := JStr(acc)])
    case ElementOf(key, elems) => ElementEnd(f, key, elems + [acc])
  }

  function StepString(f: Fields, role: Role, acc: string, esc: Escape, c: char): State {
    match esc
    case NoEscape =>
      if c == '"' then EndString(f, role, acc)
      else if c == '\\' then InString(f, role, acc, Slash)
      else if c < ' ' then Bad
      else InString(f, role, acc + [c], NoEscape)
    case Slash =>
      if c == 'u' then InString(f, role, acc, Unicode(0, 0))
      else if IsEscapable(c) then InString(f, role, acc + [Unescaped(c)], NoEscape)
      else Bad
    case Unicode(digits, value) =>
      var h := HexValue(c);
      if h < 0 then Bad
      else if digits < 3 then InString(f, role, acc, Unicode(digits + 1, value * 16 + h))
      else
        var code := value * 16 + h;
        if code < 0xD800 then InString(f, role, acc + [code as char], NoEscape) else Bad
  }

  function StepNumber(f: Fields, key: string, acc: string, c: char): State {
    if IsDigit(c) then InNumber(f, key, acc + [c])
    else if acc == "-" then Bad
    else if c == ',' then NextKey(f[key := JNum(acc)])
    else if c == '}' then Done(f[key := JNum(acc)])
    else if IsBlank(c) then ValueEnd(f[key := JNum(acc)])
    else Bad
  }

  /** The outermost blanks are those that `trimmed` removes. */
  function Step(s: State, c: char): State {
    match s
    case Start => if IsSpace(c) then Start else if c == '{' then FirstKey(map[]) else Bad
    case FirstKey(f) =>
      if IsBlank(c) then s
      else if c == '"' then InString(f, Key, "", NoEscape)
      else if c == '}' then Done(f)
      else Bad
    case NextKey(f) => if IsBlank(c) then s else if c == '"' then InString(f, Key, "", NoEscape) else Bad
    case InString(f, role, acc, esc) => StepString(f, role, acc, esc, c)
    case Colon(f, key) => if IsBlank(c) then s else if c == ':' then Value(f, key) else Bad
    case Value(f, key) =>
      if IsBlank(c) then s
      else if c == '"' then InString(f, StringOf(key), "", NoEscape)
      else if c == '[' then FirstElement(f, key)
      else if IsDigit(c) || c == '-' then InNumber(f, key, [c])
      else Bad
    case InNumber(f, key, acc) => StepNumber(f, key, acc, c)
    case FirstElement(f, key) =>
      if IsBlank(c) then s
      else if c == '"' then InString(f, ElementOf(key, []), "", NoEscape)
      else if c == ']' then ValueEnd(f[key := JArr([])])
      else Bad
    case NextElement(f, key, elems) =>
      if IsBlank(c) then s else if c == '"' then InString(f, ElementOf(key, elems), "", NoEscape) else Bad
    case ElementEnd(f, key, elems) =>
      if IsBlank(c) then s
      else if c == ',' then NextElement(f, key, elems)
      else if c == ']' then ValueEnd(f[key := JArr(elems)])
      else Bad
    case ValueEnd(f) => if IsBlank(c) then s else if c == ',' then NextKey(f) else if c == '}' then Done(f) else Bad
    case Done(f) => if IsSpace(c) then s else Bad
    case Bad => Bad
  }

  function Read(s: State, text: string): State
    decreases |text|
  {
    if text == "" then s else Read(Step(s, text[0]), text[1..])
  }

  lemma {:induction false} ReadConcat(s: State, a: string, b: string)
    ensures Read(s, a + b) == Read(Read(s, a), b)
    decreases |a|
  {
    if a == "" {
      assert a + b == b;
    } else {
      assert (a + b)[1..] == a[1..] + b;
      ReadConcat(Step(s, a[0]), a[1..], b);
    }
  }

  lemma {:induction false} BadStaysBad(text: string)
    ensures Read(Bad, text) == Bad
  {
    if text != "" {
      BadStaysBad(text[1..]);
    }
  }

  // ---------------------------------------------------------------------------------------------
  // The client's events
  // ---------------------------------------------------------------------------------------------

  datatype Event =
    | RegisterOk(nick: string, token: string)
    | RegisterFailed(message: string)
    | LoginOk(nick: string)
    | LoginFailed(message: string)
    | Message(from: string, text: string)
    | Private(from: string, to: string, text: string)
    | Encrypted(from: string, to: string, data: string)
    | Online(users: seq<string>)
    | Help(commands: seq<string>)
    | P2PInitiated(target: string, success: bool)
    | NoEvent

  /** `obj.value(key).toString()` and `obj.value(key).toArray()`. */
  function Str(f: Fields, key: string): string {
    if key in f && f[key].JStr? then f[key].s else ""
  }

  function Arr(f: Fields, key: string): seq<string> {
    if key in f && f[key].JArr? then f[key].elems else []
  }

  function EventOf(f: Fields): Event {
    var t := Str(f, "type");
    var success := Str(f, "status") == "success";
    if t == "register" then
      if success then RegisterOk(Str(f, "nick"), Str(f, "token")) else RegisterFailed(Str(f, "message"))
    else if t == "login" then
      if success then LoginOk(Str(f, "nick")) else LoginFailed(Str(f, "message"))
    else if t == "message" then Message(Str(f, "from"), Str(f, "text"))
    else if t == "private" then Private(Str(f, "from"), Str(f, "to"), Str(f, "text"))
    else if t == "encrypted" then Encrypted(Str(f, "from"), Str(f, "to"), Str(f, "data"))
    else if t == "online" then Online(Arr(f, "users"))
    else if t == "help" then Help(Arr(f, "commands"))
    else if t == "p2p_initiated" then P2PInitiated(Str(f, "target"), success)
    else NoEvent
  }

  /** `trimmed`. */
  function Trimmed(s: string): string {
    TrimEnd(SkipSpaces(s))
  }

  function TrimEnd(s: string): string {
    if s != "" && IsSpace(s[|s| - 1]) then TrimEnd(s[..|s| - 1]) else s
  }

  /** One turn of the client's reading loop on a line without its newline. */
  function LineEvent(line: string): Event {
    match Read(Start, line)
    case Done(f) => EventOf(f)
    case _ => if "{" <= SkipSpaces(line) then NoEvent else Message("System", Trimmed(line))
  }

  // ---------------------------------------------------------------------------------------------
  // The lines
  // ---------------------------------------------------------------------------------------------

  /** Text that needs no escape in a JSON string. */
  predicate Plain(s: string) {
    forall c :: c in s ==> c != '"' && c != '\\' && c >= ' '
  }

  /** Text without quotes and backslashes; it may hold control characters. */
  predicate Unquoted(s: string) {
    forall c :: c in s ==> c != '"' && c != '\\'
  }

  function Quoted(s: string): string {
    "\"" + s + "\""
  }

  function Elements(elems: seq<string>): string {
    if elems == [] then ""
    else if |elems| == 1 then Quoted(elems[0])
    else Quoted(elems[0]) + "," + Elements(elems[1..])
  }

  function ValueText(v: JVal): string {
    match v
    case JStr(s) => Quoted(s)
    case JNum(digits) => digits
    case JArr(elems) => "[" + Elements(elems) + "]"
  }

  function PairText(p: Pair): string {
    Quoted(p.0) + ":" + ValueText(p.1)
  }

  /** Pairs that others follow. */
  function Heads(pairs: seq<Pair>): string {
    if pairs == [] then "" else PairText(pairs[0]) + "," + Heads(pairs[1..])
  }

  /** The line with the given pairs, as the server's format strings print it. */
  function Line(pairs: seq<Pair>): string
    requires pairs != []
  {
    "{" + Heads(pairs[..|pairs| - 1]) + PairText(pairs[|pairs| - 1]) + "}\n"
  }

  ghost predicate PlainPair(p: Pair) {
    Plain(p.0) &&
    match p.1
    case JStr(s) => Plain(s)
    case JNum(digits) => digits != "" && forall c :: c in digits ==> IsDigit(c)
    case JArr(elems) => forall e :: e in elems ==> Plain(e)
  }

  ghost predicate PlainPairs(pairs: seq<Pair>) {
    forall k :: 0 <= k < |pairs| ==> PlainPair(pairs[k])
  }

  /** Later pairs replace earlier ones of the same key. */
  function Put(f: Fields, pairs: seq<Pair>): Fields
    decreases |pairs|
  {
    if pairs == [] then f else Put(f[pairs[0].0 := pairs[0].1], pairs[1..])
  }

  // ---------------------------------------------------------------------------------------------
  // Reading back what was printed
  // ---------------------------------------------------------------------------------------------

  lemma {:induction false} ReadPlain(f: Fields, role: Role, acc: string, text: string)
    requires Plain(text)
    ensures Read(InString(f, role, acc, NoEscape), text) == InString(f, role, acc + text, NoEscape)
    decreases |text|
  {
    if text == "" {
      assert acc + text == acc;
    } else {
      assert text[0] in text && forall c :: c in text[1..] ==> c in text;
      ReadPlain(f, role, acc + [text[0]], text[1..]);
      assert acc + [text[0]] + text[1..] == acc + text;
    }
  }

  lemma ReadOne(s: State, c: char)
    ensures Read(s, [c]) == Step(s, c)
  {
    assert [c][1..] == "";
  }

  /** A quoted string, read where a string may start. */
  lemma ReadQuoted(s: State, f: Fields, role: Role, text: string)
    requires Plain(text) && Step(s, '"') == InString(f, role, "", NoEscape)
    ensures Read(s, Quoted(text)) == EndString(f, role, text)
  {
    hide Read;
    ReadConcat(s, "\"" + text, "\"");
    ReadConcat(s, "\"", text);
    ReadOne(s, '"');
    ReadPlain(f, role, "", text);
    assert "" + text == text;
    ReadOne(InString(f, role, text, NoEscape), '"');
  }

  lemma {:induction false} ReadElements(f: Fields, key: string, before: seq<string>, elems: seq<string>)
    requires elems != [] && forall e :: e in elems ==> Plain(e)
    ensures Read(NextElement(f, key, before), Elements(elems)) == ElementEnd(f, key, before + elems)
    decreases |elems|
  {
    hide Read, Plain;
    var s, e, rest := NextElement(f, key, before), elems[0], elems[1..];
    ReadQuoted(s, f, ElementOf(key, before), e);
    if rest == [] {
      assert elems == [e];
    } else {
      ReadConcat(s, Quoted(e) + ",", Elements(rest));
      ReadConcat(s, Quoted(e), ",");
      ReadOne(ElementEnd(f, key, before + [e]), ',');
      ReadElements(f, key, before + [e], rest);
      assert before + [e] + rest == before + elems;
    }
  }

  lemma ReadArray(f: Fields, key: string, elems: seq<string>)
    requires forall e :: e in elems ==> Plain(e)
    ensures Read(Value(f, key), "[" + Elements(elems) + "]") == ValueEnd(f[key := JArr(elems)])
  {
    hide Read, Elements, Plain;
    var s, text := Value(f, key), Elements(elems);
    ReadConcat(s, "[" + text, "]");
    ReadConcat(s, "[", text);
    ReadOne(s, '[');
    if elems == [] {
      NoElements(elems);
      assert text + "]" == "]";
      ReadConcat(FirstElement(f, key), text, "]");
      ReadOne(FirstElement(f, key), ']');
    } else {
      ReadElements(f, key, [], elems);
      ElementsOpen(elems);
      assert [] + elems == elems;
      SameFirstStep(FirstElement(f, key), NextElement(f, key, []), text);
      ReadOne(ElementEnd(f, key, elems), ']');
    }
  }

  lemma NoElements(elems: seq<string>)
    requires elems == []
    ensures Elements(elems) == ""
  {}

  lemma ElementsOpen(elems: seq<string>)
    requires elems != []
    ensures Elements(elems) != "" && Elements(elems)[0] == '"'
  {}

  lemma SameFirstStep(a: State, b: State, text: string)
    requires text != "" && Step(a, text[0]) == Step(b, text[0])
    ensures Read(a, text) == Read(b, text)
  {}

  lemma {:induction false} ReadDigits(f: Fields, key: string, acc: string, digits: string)
    requires forall c :: c in digits ==> IsDigit(c)
    ensures Read(InNumber(f, key, acc), digits) == InNumber(f, key, acc + digits)
    decreases |digits|
  {
    if digits == "" {
      assert acc + digits == acc;
    } else {
      assert digits[0] in digits;
      ReadDigits(f, key, acc + [digits[0]], digits[1..]);
      assert acc + [digits[0]] + digits[1..] == acc + digits;
    }
  }

  /** After a value the reader is where a comma or the end of the object is expected. */
  lemma ReadValue(f: Fields, key: string, v: JVal, c: char)
    requires PlainPair((key, v)) && (c == ',' || c == '}')
    ensures Read(Value(f, key), ValueText(v) + [c]) == Step(ValueEnd(f[key := v]), c)
  {
    hide Read, Elements, Plain;
    var s := Value(f, key);
    ReadConcat(s, ValueText(v), [c]);
    match v
    case JStr(t) =>
      ReadQuoted(s, f, StringOf(key), t);
      ReadOne(ValueEnd(f[key := v]), c);
    case JNum(digits) => ReadNumber(f, key, digits, c);
    case JArr(elems) =>
      ReadArray(f, key, elems);
      ReadOne(ValueEnd(f[key := v]), c);
  }

  lemma ReadNumber(f: Fields, key: string, digits: string, c: char)
    requires digits != "" && (forall d :: d in digits ==> IsDigit(d)) && (c == ',' || c == '}')
    ensures Read(Value(f, key), digits + [c]) == Step(ValueEnd(f[key := JNum(digits)]), c)
  {
    hide Read;
    var first, rest := digits[0], digits[1..];
    assert first in digits && digits == [first] + rest;
    ReadConcat(Value(f, key), digits, [c]);
    ReadConcat(Value(f, key), [first], rest);
    ReadOne(Value(f, key), first);
    ReadDigits(f, key, [first], rest);
    assert digits != "-" by { assert IsDigit(digits[0]); }
    ReadOne(InNumber(f, key, digits), c);
  }

  lemma ReadPair(s: State, f: Fields, p: Pair, c: char)
    requires s == FirstKey(f) || s == NextKey(f)
    requires PlainPair(p) && (c == ',' || c == '}')
    ensures Read(s, PairText(p) + [c]) == Step(ValueEnd(f[p.0 := p.1]), c)
  {
    hide Read, ValueText, Plain;
    assert PairText(p) + [c] == Quoted(p.0) + ":" + (ValueText(p.1) + [c]);
    ReadConcat(s, Quoted(p.0) + ":", ValueText(p.1) + [c]);
    ReadConcat(s, Quoted(p.0), ":");
    ReadQuoted(s, f, Key, p.0);
    ReadOne(Colon(f, p.0), ':');
    ReadValue(f, p.0, p.1, c);
  }

  /** Where the reader is after the heads: before the last pair. */
  lemma {:induction false} ReadHeads(s: State, f: Fields, pairs: seq<Pair>)
    requires s == FirstKey(f) || s == NextKey(f)
    requires PlainPairs(pairs)
    ensures Read(s, Heads(pairs)) == if pairs == [] then s else NextKey(Put(f, pairs))
    decreases |pairs|
  {
    hide PairText, PlainPair;
    if pairs == [] {
      assert Heads(pairs) == "";
    } else {
      hide Read;
      ReadPair(s, f, pairs[0], ',');
      ReadConcat(s, PairText(pairs[0]) + ",", Heads(pairs[1..]));
      ReadHeads(NextKey(f[pairs[0].0 := pairs[0].1]), f[pairs[0].0 := pairs[0].1], pairs[1..]);
    }
  }

  lemma PutNothing(f: Fields)
    ensures Put(f, []) == f
  {}

  lemma {:induction false} PutAppend(f: Fields, pairs: seq<Pair>, p: Pair)
    ensures Put(f, pairs + [p]) == Put(f, pairs)[p.0 := p.1]
    decreases |pairs|
  {
    if pairs != [] {
      assert (pairs + [p])[1..] == pairs[1..] + [p];
      PutAppend(f[pairs[0].0 := pairs[0].1], pairs[1..], p);
    } else {
      assert pairs + [p] == [p] && [p][1..] == [];
    }
  }

  lemma {:induction false} PutKeepsOther(f: Fields, pairs: seq<Pair>, key: string)
    requires key in f && forall k :: 0 <= k < |pairs| ==> pairs[k].0 != key
    ensures key in Put(f, pairs) && Put(f, pairs)[key] == f[key]
    decreases |pairs|
  {
    if pairs != [] {
      PutKeepsOther(f[pairs[0].0 := pairs[0].1], pairs[1..], key);
    }
  }

  /** A pair whose key does not come again is found under its key. */
  lemma {:induction false} PutAt(f: Fields, pairs: seq<Pair>, k: nat)
    requires k < |pairs| && forall j :: k < j < |pairs| ==> pairs[j].0 != pairs[k].0
    ensures pairs[k].0 in Put(f, pairs) && Put(f, pairs)[pairs[k].0] == pairs[k].1
    decreases |pairs|
  {
    var g := f[pairs[0].0 := pairs[0].1];
    if k == 0 {
      PutKeepsOther(g, pairs[1..], pairs[0].0);
    } else {
      PutAt(g, pairs[1..], k - 1);
    }
  }

  /** A line without its newline. */
  function Body(pairs: seq<Pair>): string
    requires pairs != []
  {
    "{" + Heads(pairs[..|pairs| - 1]) + PairText(pairs[|pairs| - 1]) + "}"
  }

  lemma LineIsBody(pairs: seq<Pair>)
    requires pairs != []
    ensures Line(pairs) == Body(pairs) + "\n"
  {
    assert "}\n" == "}" + "\n";
  }

  lemma ReadOpening(pairs: seq<Pair>)
    requires PlainPairs(pairs)
    ensures Read(Start, "{" + Heads(pairs))
      == if pairs == [] then FirstKey(map[]) else NextKey(Put(map[], pairs))
  {
    hide Read, Heads, PlainPair;
    ReadConcat(Start, "{", Heads(pairs));
    ReadOne(Start, '{');
    ReadHeads(FirstKey(map[]), map[], pairs);
  }

  /** The client reads exactly the pairs the server printed. */
  lemma LineRoundTrip(pairs: seq<Pair>)
    requires pairs != [] && PlainPairs(pairs)
    ensures Read(Start, Body(pairs)) == Done(Put(map[], pairs))
  {
    hide Read, Heads, PairText, Put, PlainPair;
    var heads, last := pairs[..|pairs| - 1], pairs[|pairs| - 1];
    assert Body(pairs) == ("{" + Heads(heads)) + (PairText(last) + "}");
    PutNothing(map[]);
    ReadConcat(Start, "{" + Heads(heads), PairText(last) + "}");
    ReadOpening(heads);
    ReadPair(Read(Start, "{" + Heads(heads)), Put(map[], heads), last, '}');
    PutAppend(map[], heads, last);
    assert heads + [last] == pairs;
  }
}
