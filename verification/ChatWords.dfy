/**
 The tables and scanners the chat rests on, by their literals and by what they leave: characters, nicks, words,
 numbers, escapes.
 */
module ChatWords {
  import opened Common
  import opened CText
  import opened JsonLines
  import opened LineStream
  import opened ChatServer
  import opened ChatLines
  import Base64Codec
  import XorCodec

  // ---------------------------------------------------------------------------------------------
  // Characters
  // ---------------------------------------------------------------------------------------------

  /** The characters that `sanitize_input` drops. */
  lemma UnsafeAre(c: char)
    ensures Unsafe(c) <==> c in "<>\"'\\;&|"
  {
    var s := "<>\"'\\;&|";
    assert s[0] == '<' && s[1] == '>' && s[2] == '"' && s[3] == '\'' && s[4] == '\\' && s[5] == ';' && s[6] == '&' && s[7] == '|';
  }

  lemma LettersAre(c: char)
    ensures 'a' <= c <= 'z' <==> c in Base64Codec.LOWER
    ensures 'A' <= c <= 'Z' <==> c in Base64Codec.UPPER
  {
    forall k: nat | k < 26
      ensures |Base64Codec.LOWER| == 26 && Base64Codec.LOWER[k] as int == 97 + k
      ensures |Base64Codec.UPPER| == 26 && Base64Codec.UPPER[k] as int == 65 + k
    {
      Base64Codec.LowerCase(k);
      Base64Codec.UpperCase(k);
    }
    Base64Codec.LowerCase(0);
    Base64Codec.UpperCase(0);
    hide *;
    if 'a' <= c <= 'z' {
      assert Base64Codec.LOWER[c as int - 97] == c;
    }
    if 'A' <= c <= 'Z' {
      assert Base64Codec.UPPER[c as int - 65] == c;
    }
  }

  /** Letters, digits, underscore, hyphen and dot. */
  lemma NickCharsAre(c: char)
    ensures NickChar(c) <==> c in Base64Codec.LOWER || c in Base64Codec.UPPER || c in "0123456789" || c in "_-."
  {
    LettersAre(c);
    DigitsAre(c);
    var s := "_-.";
    assert s[0] == '_' && s[1] == '-' && s[2] == '.';
  }

  lemma DigitsAre(c: char)
    ensures '0' <= c <= '9' <==> c in "0123456789"
  {
    var s := "0123456789";
    assert s[0] == '0' && s[1] == '1' && s[2] == '2' && s[3] == '3' && s[4] == '4';
    assert s[5] == '5' && s[6] == '6' && s[7] == '7' && s[8] == '8' && s[9] == '9';
  }

  /** Lower case maps each letter of the upper-case alphabet to the one at its place in the other, and nothing else. */
  lemma LowerCaseIs(k: nat, c: char)
    requires k < 26
    ensures |Base64Codec.UPPER| == |Base64Codec.LOWER| == 26
    ensures LowerChar(Base64Codec.UPPER[k]) == Base64Codec.LOWER[k]
    ensures c !in Base64Codec.UPPER ==> LowerChar(c) == c
  {
    Base64Codec.LowerCase(k);
    Base64Codec.UpperCase(k);
    LettersAre(c);
  }

  /** A valid nick has 3 to 31 of those characters and is none of the six reserved words in any case of letters. */
  lemma ValidNickIff(nick: string)
    ensures ValidNick(nick) <==>
      (&& 3 <= |nick| <= 31
       && (forall c :: c in nick ==> c in Base64Codec.LOWER || c in Base64Codec.UPPER || c in "0123456789" || c in "_-.")
       && Lower(nick) != "admin" && Lower(nick) != "root" && Lower(nick) != "system"
       && Lower(nick) != "server" && Lower(nick) != "null" && Lower(nick) != "undefined")
  {
    hide NickChar, Lower;
    forall c
      ensures NickChar(c) <==> c in Base64Codec.LOWER || c in Base64Codec.UPPER || c in "0123456789" || c in "_-."
    {
      NickCharsAre(c);
    }
    ReservedAre(Lower(nick));
  }

  lemma ReservedAre(w: string)
    ensures w !in FORBIDDEN <==>
      w != "admin" && w != "root" && w != "system" && w != "server" && w != "null" && w != "undefined"
  {
    assert FORBIDDEN == ["admin", "root", "system", "server", "null", "undefined"];
  }

  // ---------------------------------------------------------------------------------------------
  // Scanners
  // ---------------------------------------------------------------------------------------------

  lemma SpacesAre(c: char)
    ensures IsSpace(c) <==> c == ' ' || c == '\t' || c == '\n' || c == 11 as char || c == 12 as char || c == '\r'
  {}

  ghost predicate AllSpaces(s: string) {
    forall k :: 0 <= k < |s| ==> IsSpace(s[k])
  }

  /** Skipping blanks leaves the text after its first blanks: all of these, and no more. */
  lemma {:induction false} SkipSpacesLeaves(s: string) returns (n: nat)
    ensures n <= |s| && SkipSpaces(s) == s[n..] && AllSpaces(s[..n])
    ensures n < |s| ==> !IsSpace(s[n])
  {
    hide IsSpace;
    n := 0;
    if s != "" && IsSpace(s[0]) {
      n := SkipSpacesLeaves(s[1..]);
      assert s[1..][n..] == s[n + 1..];
      assert forall k :: 0 < k < n + 1 ==> s[k] == s[1..][..n][k - 1];
      n := n + 1;
    }
  }

  /** A word is cut only by its width, a blank or the end. */
  lemma {:induction false} ScanWordStops(s: string, max: nat)
    ensures var w := ScanWord(s, max);
      && w <= s && |w| <= max && (forall c :: c in w ==> !IsSpace(c))
      && (|w| == max || |w| == |s| || IsSpace(s[|w|]))
  {
    if max > 0 && s != "" && !IsSpace(s[0]) {
      ScanWordStops(s[1..], max - 1);
    }
  }

  /** A line is cut only by its width, a newline or the end. */
  lemma {:induction false} ScanLineStops(s: string, max: nat)
    ensures var w := ScanLine(s, max);
      && w <= s && |w| <= max && '\n' !in w
      && (|w| == max || |w| == |s| || s[|w|] == '\n')
  {
    if max > 0 && s != "" && s[0] != '\n' {
      ScanLineStops(s[1..], max - 1);
    }
  }

  lemma {:induction false} TrimEndLeaves(s: string)
    ensures |TrimEnd(s)| <= |s| && TrimEnd(s) == s[..|TrimEnd(s)|]
    ensures forall k :: |TrimEnd(s)| <= k < |s| ==> IsSpace(s[k])
    ensures TrimEnd(s) == "" || !IsSpace(TrimEnd(s)[|TrimEnd(s)| - 1])
  {
    if s != "" && IsSpace(s[|s| - 1]) {
      TrimEndLeaves(s[..|s| - 1]);
    }
  }

  /** Trimming removes blanks at both ends, all of them, and nothing else. */
  lemma TrimmedLeaves(s: string) returns (front: string, back: string)
    ensures s == front + Trimmed(s) + back && AllSpaces(front) && AllSpaces(back)
    ensures Trimmed(s) != "" ==> !IsSpace(Trimmed(s)[0]) && !IsSpace(Trimmed(s)[|Trimmed(s)| - 1])
  {
    hide IsSpace, SkipSpaces, TrimEnd;
    var n := SkipSpacesLeaves(s);
    TrimEndLeaves(s[n..]);
    front, back := s[..n], s[n..][|Trimmed(s)|..];
    assert s == s[..n] + s[n..] && s[n..] == Trimmed(s) + back;
  }

  /** A command that begins with a newline, or holds nothing safe, is no command; what follows a NUL is not looked at. */
  lemma CommandOfRaw(raw: string, junk: string)
    ensures CommandOf(raw + [NUL] + junk) == CommandOf(raw)
    ensures CommandOf("") == "" && CommandOf("\n" + raw) == ""
  {
    CStrEnds(raw, junk);
    assert CStr("") == "";
    assert ("\n" + raw)[0] == '\n' && !Unsafe('\n');
    assert CStr("\n" + raw)[0] == '\n';
  }

  lemma {:induction false} CStrEnds(raw: string, junk: string)
    ensures CStr(raw + [NUL] + junk) == CStr(raw)
  {
    var all := raw + [NUL] + junk;
    if raw != "" && raw[0] != NUL {
      assert all[1..] == raw[1..] + [NUL] + junk;
      CStrEnds(raw[1..], junk);
    }
  }

  // ---------------------------------------------------------------------------------------------
  // Lists and numbers
  // ---------------------------------------------------------------------------------------------

  /** The list of online nicks follows the slots: part by part, and each online slot gives its own. */
  lemma {:induction false} OnlineNicksOfConcat(a: seq<Slot>, b: seq<Slot>)
    ensures OnlineNicks(a + b) == OnlineNicks(a) + OnlineNicks(b)
    ensures |b| == 1 ==> OnlineNicks(b) == if b[0].fd >= 0 && b[0].authorized then [b[0].nick] else []
    decreases |b|
  {
    if b == [] {
      assert a + b == a && OnlineNicks(a) + [] == OnlineNicks(a);
    } else {
      var n := |b| - 1;
      assert (a + b)[..|a| + n] == a + b[..n] && (a + b)[|a| + n] == b[n];
      OnlineNicksOfConcat(a, b[..n]);
      assert OnlineNicks([]) == [];
    }
  }

  function ValueOf(digits: string): nat
    requires forall c :: c in digits ==> IsDigit(c)
  {
    if digits == "" then 0
    else
      assert digits[|digits| - 1] in digits && IsDigit(digits[|digits| - 1]);
      10 * ValueOf(digits[..|digits| - 1]) + (digits[|digits| - 1] as int - '0' as int)
  }

  /** A number is printed with its own decimal digits, without leading zeros. */
  lemma {:induction false} DecimalValue(n: nat)
    ensures (forall c :: c in Decimal(n) ==> IsDigit(c)) && ValueOf(Decimal(n)) == n
    ensures Decimal(n) != "" && (Decimal(n)[0] == '0' ==> n == 0)
  {
    if n >= 10 {
      DecimalValue(n / 10);
      assert Decimal(n)[..|Decimal(n)| - 1] == Decimal(n / 10);
    } else {
      assert Decimal(n)[..0] == "";
    }
  }

  /** The digits of `%02x`, in both programs. */
  lemma HexDigitsAre(n: nat, b: bv8)
    ensures n < 16 ==> HexDigit(n) == "0123456789abcdef"[n]
    ensures b < 10 ==> XorCodec.HexDigit(b) == 0x30 + b
    ensures 10 <= b < 16 ==> XorCodec.HexDigit(b) == 0x61 + (b - 10)
  {}

  // ---------------------------------------------------------------------------------------------
  // Escapes and events
  // ---------------------------------------------------------------------------------------------

  /** The escapes of section 7 of RFC 8259: the character each stands for; any other is an error. */
  lemma EscapeIs(f: Fields, role: Role, acc: string, c: char)
    requires c != 'u'
    ensures var r := Read(InString(f, role, acc, NoEscape), ['\\', c]);
      && (c == '"' || c == '\\' || c == '/' ==> r == InString(f, role, acc + [c], NoEscape))
      && (c == 'n' ==> r == InString(f, role, acc + "\n", NoEscape))
      && (c == 'r' ==> r == InString(f, role, acc + "\r", NoEscape))
      && (c == 't' ==> r == InString(f, role, acc + "\t", NoEscape))
      && (c == 'b' ==> r == InString(f, role, acc + [8 as char], NoEscape))
      && (c == 'f' ==> r == InString(f, role, acc + [12 as char], NoEscape))
      && (c !in "\"\\/nrtbf" ==> r == Bad)
  {
    hide Read;
    TwoSteps(InString(f, role, acc, NoEscape), '\\', c);
    EscapableAre(c);
  }

  lemma EscapableAre(c: char)
    ensures IsEscapable(c) <==> c in "\"\\/nrtbf"
  {
    var s := "\"\\/nrtbf";
    assert s[0] == '"' && s[1] == '\\' && s[2] == '/' && s[3] == 'n' && s[4] == 'r' && s[5] == 't' && s[6] == 'b' && s[7] == 'f';
  }

  lemma TwoSteps(s: State, a: char, b: char)
    ensures Read(s, [a, b]) == JsonLines.Step(JsonLines.Step(s, a), b)
  {
    hide Read;
    assert [a, b] == [a] + [b];
    ReadConcat(s, [a], [b]);
    ReadOne(s, a);
    ReadOne(JsonLines.Step(s, a), b);
  }

  /** A started peer connection is reported with its target, and whether it succeeded. */
  lemma StartedPeerIsRead(target: string, status: string)
    requires Plain(target) && Plain(status)
    ensures var pairs: seq<Pair> := [("type", JStr("p2p_initiated")), ("target", JStr(target)), ("status", JStr(status))];
      LineEvent(Body(pairs)) == P2PInitiated(target, status == "success")
  {
    hide Read;
    var pairs: seq<Pair> := [("type", JStr("p2p_initiated")), ("target", JStr(target)), ("status", JStr(status))];
    StartedWordsArePlain();
    assert PlainPairs(pairs);
    LineRoundTrip(pairs);
    PutAt(map[], pairs, 0);
    PutAt(map[], pairs, 1);
    PutAt(map[], pairs, 2);
  }

  lemma StartedWordsArePlain()
    ensures Plain("type") && Plain("p2p_initiated") && Plain("target") && Plain("status")
  {}
}
