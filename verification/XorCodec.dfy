/**
 The XOR half of the obfuscator's string encryption: each character is XORed with the key and printed
 as a two-digit hex escape; the emitted C decoder scans the escapes and XORs them back in place.

 Everything is a byte, as a bit vector.  The scan is written for the text of the escapes, and on that text the two
 halves are inverse (`RoundTrip`).  In the emitted program the escapes stand in a string literal, so that the compiler
 reads them first; `LiteralRoundTripIff` says exactly when the string is restored there.
 */
module XorCodec {
  const BACKSLASH: bv8 := 0x5C
  const LETTER_X: bv8 := 0x78

  // ---------------------------------------------------------------------------------------------
  // Hexadecimal digits and strtol
  // ---------------------------------------------------------------------------------------------

  /** A digit of the `%02x` conversion. */
  function HexDigit(n: bv8): bv8 {
    if n < 10 then n + 0x30 else n + 0x57
  }

  predicate IsHexDigit(c: bv8) {
    0x30 <= c <= 0x39 || 0x41 <= c <= 0x46 || 0x61 <= c <= 0x66
  }

  function HexValue(c: bv8): bv8 {
    if c <= 0x39 then c - 0x30 else if c <= 0x46 then c - 0x37 else c - 0x57
  }

  predicate IsSpace(c: bv8) {
    c == 0x20 || 0x09 <= c <= 0x0D
  }

  /** `(char)strtol(hex, NULL, 16)` for the two-character string `a b`: white space and a sign may come first. */
  function Strtol16(a: bv8, b: bv8): bv8 {
    if IsHexDigit(a) then
      if IsHexDigit(b) then (HexValue(a) << 4) + HexValue(b) else HexValue(a)
    else if (IsSpace(a) || a == 0x2B) && IsHexDigit(b) then HexValue(b)
    else if a == 0x2D && IsHexDigit(b) then 0 - HexValue(b)
    else 0
  }

  lemma HexRoundTrip(x: bv8)
    ensures Strtol16(HexDigit(x >> 4), HexDigit(x & 0xF)) == x
    ensures HexDigit(x >> 4) != 0 && HexDigit(x & 0xF) != 0
  {}

  /** Digits of both cases, a single digit, blanks and signs, and no number at all. */
  lemma StrtolExamples()
    ensures Strtol16('4' as bv8, 'a' as bv8) == 0x4A && Strtol16('F' as bv8, 'f' as bv8) == 0xFF
    ensures Strtol16('7' as bv8, 'g' as bv8) == 7 && Strtol16(' ' as bv8, '7' as bv8) == 7
    ensures Strtol16('+' as bv8, '7' as bv8) == 7 && Strtol16('-' as bv8, '7' as bv8) == 0xF9
    ensures Strtol16('g' as bv8, '7' as bv8) == 0 && Strtol16('-' as bv8, '-' as bv8) == 0
  {}

  // ---------------------------------------------------------------------------------------------
  // The encoder
  // ---------------------------------------------------------------------------------------------

  function XorAll(s: seq<bv8>, key: bv8): (r: seq<bv8>)
    ensures |r| == |s|
  {
    if s == [] then [] else [s[0] ^ key] + XorAll(s[1..], key)
  }

  lemma {:induction false} XorAllAt(s: seq<bv8>, key: bv8, k: nat)
    requires k < |s|
    ensures XorAll(s, key)[k] == s[k] ^ key
  {
    if k > 0 {
      XorAllAt(s[1..], key, k - 1);
    }
  }

  lemma {:induction false} XorTwice(s: seq<bv8>, key: bv8)
    ensures XorAll(XorAll(s, key), key) == s
  {
    if s != [] {
      XorTwice(s[1..], key);
      assert (s[0] ^ key) ^ key == s[0];
      assert XorAll(s, key)[1..] == XorAll(s[1..], key);
    }
  }

  function Escape(x: bv8): seq<bv8> {
    [BACKSLASH, LETTER_X, HexDigit(x >> 4), HexDigit(x & 0xF)]
  }

  function Escapes(s: seq<bv8>): (r: seq<bv8>)
    ensures |r| == 4 * |s|
  {
    if s == [] then [] else Escape(s[0]) + Escapes(s[1..])
  }

  /** The text the obfuscator puts between the quotes of `__decrypt_xor("...", key)`. */
  function Encrypt(s: seq<bv8>, key: bv8): seq<bv8> {
    Escapes(XorAll(s, key))
  }

  // ---------------------------------------------------------------------------------------------
  // What the decoder computes
  // ---------------------------------------------------------------------------------------------

  predicate AtEscape(text: seq<bv8>) {
    |text| >= 2 && text[0] == BACKSLASH && text[1] == LETTER_X
  }

  /** A C string in which two characters follow every escape mark; the decoder reads past the end of any other. */
  predicate WellFormed(text: seq<bv8>)
    decreases |text|
  {
    if text == [] then true
    else if AtEscape(text) then |text| >= 4 && text[2] != 0 && text[3] != 0 && WellFormed(text[4..])
    else text[0] != 0 && WellFormed(text[1..])
  }

  function Unescape(text: seq<bv8>): (r: seq<bv8>)
    requires WellFormed(text)
    ensures |r| <= |text|
    decreases |text|
  {
    if text == [] then []
    else if AtEscape(text) then [Strtol16(text[2], text[3])] + Unescape(text[4..])
    else [text[0]] + Unescape(text[1..])
  }

  function Decrypt(text: seq<bv8>, key: bv8): seq<bv8>
    requires WellFormed(text)
  {
    XorAll(Unescape(text), key)
  }

  // ---------------------------------------------------------------------------------------------
  // The round trip
  // ---------------------------------------------------------------------------------------------

  lemma UnescapeEscape(b: bv8, rest: seq<bv8>)
    requires WellFormed(rest)
    ensures WellFormed(Escape(b) + rest) && Unescape(Escape(b) + rest) == [b] + Unescape(rest)
  {
    var text := Escape(b) + rest;
    HexRoundTrip(b);
    assert text[4..] == rest;
  }

  lemma {:induction false} UnescapeEscapes(s: seq<bv8>)
    ensures WellFormed(Escapes(s)) && Unescape(Escapes(s)) == s
  {
    if s != [] {
      UnescapeEscapes(s[1..]);
      UnescapeEscape(s[0], Escapes(s[1..]));
    }
  }

  /** XOR, print, scan the printed text, XOR: the original bytes, for every byte string and every key. */
  lemma RoundTrip(s: seq<bv8>, key: bv8)
    ensures WellFormed(Encrypt(s, key))
    ensures Decrypt(Encrypt(s, key), key) == s
  {
    UnescapeEscapes(XorAll(s, key));
    XorTwice(s, key);
  }

  // ---------------------------------------------------------------------------------------------
  // The emitted decoder
  // ---------------------------------------------------------------------------------------------

  lemma UnescapeStep(text: seq<bv8>, at: nat)
    requires at < |text| && WellFormed(text[at..])
    ensures AtEscape(text[at..]) ==> at + 4 <= |text| && WellFormed(text[at + 4..])
    ensures AtEscape(text[at..]) ==>
      Unescape(text[at..]) == [Strtol16(text[at + 2], text[at + 3])] + Unescape(text[at + 4..])
    ensures !AtEscape(text[at..]) ==> WellFormed(text[at + 1..])
    ensures !AtEscape(text[at..]) ==> Unescape(text[at..]) == [text[at]] + Unescape(text[at + 1..])
  {
    assert at + 4 <= |text| ==> text[at..][4..] == text[at + 4..];
    assert text[at..][1..] == text[at + 1..];
  }

  /** First loop of `__decrypt_xor`: the scan. */
  method Scan(encrypted: seq<bv8>, result: array<bv8>) returns (i: nat)
    requires WellFormed(encrypted)
    requires |Unescape(encrypted)| < result.Length
    modifies result
    ensures i == |Unescape(encrypted)| && result[..i] == Unescape(encrypted)
    ensures forall k :: i <= k < result.Length ==> result[k] == old(result[k])
  {
    var ptr := 0;
    i := 0;
    ghost var all := Unescape(encrypted);
    assert encrypted[0..] == encrypted;
    while ptr < |encrypted|
      invariant 0 <= ptr <= |encrypted| && i <= |all|
      invariant WellFormed(encrypted[ptr..])
      invariant all[i..] == Unescape(encrypted[ptr..])
      invariant forall k :: 0 <= k < i ==> result[k] == all[k]
      invariant forall k :: i <= k < result.Length ==> result[k] == old(result[k])
      decreases |encrypted| - ptr
    {
      UnescapeStep(encrypted, ptr);
      assert all[i] == all[i..][0] && all[i + 1..] == all[i..][1..];
      hide WellFormed, Unescape, Strtol16;
      if encrypted[ptr] == BACKSLASH && ptr + 1 < |encrypted| && encrypted[ptr + 1] == LETTER_X {
        result[i] := Strtol16(encrypted[ptr + 2], encrypted[ptr + 3]);
        ptr := ptr + 4;
      } else {
        result[i] := encrypted[ptr];
        ptr := ptr + 1;
      }
      i := i + 1;
    }
  }

  /**
   The emitted `__decrypt_xor`.  As in the Base64 decoder, the byte written as terminator is a
   multi-character constant of the emitted text and is a parameter here.
   */
  method DecryptXor(encrypted: seq<bv8>, key: bv8, result: array<bv8>, terminator: bv8) returns (i: nat)
    requires WellFormed(encrypted)
    requires |Unescape(encrypted)| < result.Length
    modifies result
    ensures i == |Unescape(encrypted)| && result[..i] == Decrypt(encrypted, key)
    ensures result[i] == terminator
    ensures forall k :: i < k < result.Length ==> result[k] == old(result[k])
  {
    i := Scan(encrypted, result);
    ghost var scanned := result[..i];
    result[i] := terminator;
    assert result[..i] == scanned;
    for j := 0 to i
      invariant forall k :: 0 <= k < j ==> result[k] == scanned[k] ^ key
      invariant forall k :: j <= k < i ==> result[k] == scanned[k]
      invariant result[i] == terminator
      invariant forall k :: i < k < result.Length ==> result[k] == old(result[k])
    {
      result[j] := result[j] ^ key;
    }
    forall k | 0 <= k < i
      ensures result[k] == Decrypt(encrypted, key)[k]
    {
      XorAllAt(scanned, key, k);
    }
  }

  const BUFFER: nat := 1024

  // ---------------------------------------------------------------------------------------------
  // The escapes as the literal they are printed in
  // ---------------------------------------------------------------------------------------------

  /** Length and value of the hexadecimal digits at the front of a text. */
  function HexRun(text: seq<bv8>): (n: nat)
    ensures n <= |text|
  {
    if text == [] || !IsHexDigit(text[0]) then 0 else 1 + HexRun(text[1..])
  }

  function HexRunValue(text: seq<bv8>, n: nat): bv8
    requires n <= HexRun(text)
  {
    if n == 0 then 0 else (HexRunValue(text, n - 1) << 4) + HexValue(text[n - 1])
  }

  /** The bytes a C string literal stands for: a hexadecimal escape takes all the digits that follow it. */
  function Literal(text: seq<bv8>): seq<bv8>
    decreases |text|
  {
    if text == [] then []
    else if AtEscape(text) then
      [HexRunValue(text[2..], HexRun(text[2..]))] + Literal(text[2 + HexRun(text[2..])..])
    else [text[0]] + Literal(text[1..])
  }

  /** Two digits that end the text, or that a backslash follows. */
  lemma TwoDigits(x: bv8, rest: seq<bv8>)
    requires rest == [] || rest[0] == BACKSLASH
    ensures var digits := [HexDigit(x >> 4), HexDigit(x & 0xF)];
      HexRun(digits + rest) == 2 && HexRunValue(digits + rest, 2) == x
  {
    var a, b := HexDigit(x >> 4), HexDigit(x & 0xF);
    var text := [a, b] + rest;
    DigitValues(x);
    assert text[1..] == [b] + rest && text[1..][1..] == rest;
    assert HexRun(rest) == 0 && HexRun(text[1..]) == 1;
    assert HexRunValue(text, 0) == 0 && HexRunValue(text, 1) == HexValue(a);
  }

  lemma DigitValues(x: bv8)
    ensures IsHexDigit(HexDigit(x >> 4)) && IsHexDigit(HexDigit(x & 0xF))
    ensures (0 << 4) + HexValue(HexDigit(x >> 4)) == HexValue(HexDigit(x >> 4))
    ensures (HexValue(HexDigit(x >> 4)) << 4) + HexValue(HexDigit(x & 0xF)) == x
  {}

  lemma LiteralStep(x: bv8, rest: seq<bv8>)
    requires rest == [] || rest[0] == BACKSLASH
    ensures Literal(Escape(x) + rest) == [x] + Literal(rest)
  {
    hide HexDigit, HexRun, HexRunValue, Literal;
    var text, digits := Escape(x) + rest, [HexDigit(x >> 4), HexDigit(x & 0xF)];
    TwoDigits(x, rest);
    assert text[2..] == digits + rest && text[2 + 2..] == rest;
    LiteralOfEscape(text);
  }

  lemma LiteralOfEscape(text: seq<bv8>)
    requires AtEscape(text)
    ensures var n := HexRun(text[2..]);
      Literal(text) == [HexRunValue(text[2..], n)] + Literal(text[2 + n..])
  {
    hide HexRun, HexRunValue;
  }

  /** In the emitted program the escapes are read by the compiler: the decoder is given the XORed bytes themselves. */
  lemma {:induction false} LiteralOfEscapes(s: seq<bv8>)
    ensures Literal(Escapes(s)) == s
  {
    if s != [] {
      hide Literal, HexDigit;
      LiteralOfEscapes(s[1..]);
      LiteralStep(s[0], Escapes(s[1..]));
    }
  }

  /** A C string ends at the first NUL. */
  function Terminated(x: seq<bv8>): (r: seq<bv8>)
    ensures |r| <= |x| && 0 !in r
    ensures 0 !in x ==> r == x
    ensures 0 in x ==> |r| < |x|
  {
    if x == [] || x[0] == 0 then [] else [x[0]] + Terminated(x[1..])
  }

  /** What `__decrypt_xor` is given for a string in the emitted program. */
  function Argument(s: seq<bv8>, key: bv8): seq<bv8> {
    Terminated(Literal(Encrypt(s, key)))
  }

  predicate NoMark(text: seq<bv8>) {
    forall k :: 0 < k < |text| ==> !(text[k - 1] == BACKSLASH && text[k] == LETTER_X)
  }

  lemma {:induction false} UnescapeOfPlain(text: seq<bv8>)
    requires 0 !in text && NoMark(text)
    ensures WellFormed(text) && Unescape(text) == text
  {
    if text != [] {
      assert NoMark(text[1..]) by {
        assert forall k :: 0 < k < |text| - 1 ==> text[1..][k - 1] == text[k] && text[1..][k] == text[k + 1];
      }
      UnescapeOfPlain(text[1..]);
      assert text[0] in text && (|text| >= 2 ==> !(text[1 - 1] == BACKSLASH && text[1] == LETTER_X));
    }
  }

  lemma {:induction false} UnescapeOfMarked(text: seq<bv8>)
    requires WellFormed(text) && !NoMark(text)
    ensures |Unescape(text)| < |text|
    decreases |text|
  {
    if !AtEscape(text) {
      var k :| 0 < k < |text| && text[k - 1] == BACKSLASH && text[k] == LETTER_X;
      assert k > 1;
      assert text[1..][k - 2] == text[k - 1] && text[1..][k - 1] == text[k];
      UnescapeOfMarked(text[1..]);
    }
  }

  lemma {:induction false} XorHasZeroIff(s: seq<bv8>, key: bv8)
    ensures 0 in XorAll(s, key) <==> key in s
  {
    if s != [] {
      XorHasZeroIff(s[1..], key);
      assert s == [s[0]] + s[1..];
      assert s[0] ^ key == 0 <==> s[0] == key;
    }
  }

  /**
   The exact condition for the emitted program: the string is restored if and only if it does not hold the key,
   and no two neighbours become an escape mark.  When the argument is not well formed the scan leaves it.
   */
  lemma LiteralRoundTripIff(s: seq<bv8>, key: bv8)
    ensures (WellFormed(Argument(s, key)) && Decrypt(Argument(s, key), key) == s)
      <==> key !in s && NoMark(XorAll(s, key))
  {
    var x, t := XorAll(s, key), Argument(s, key);
    LiteralOfEscapes(x);
    XorHasZeroIff(s, key);
    XorTwice(s, key);
    if key !in s {
      assert t == x;
      if NoMark(x) {
        UnescapeOfPlain(x);
      } else if WellFormed(x) {
        UnescapeOfMarked(x);
      }
    } else if WellFormed(t) {
      assert |Decrypt(t, key)| <= |t| < |s|;
    }
  }

  /** "abc" with the key of its first letter: the decoder is given the empty string. */
  lemma KeyInString()
    ensures var s: seq<bv8> := [0x61, 0x62, 0x63];
      WellFormed(Argument(s, 0x61)) && Decrypt(Argument(s, 0x61), 0x61) == []
  {
    var s: seq<bv8> := [0x61, 0x62, 0x63];
    LiteralOfEscapes(XorAll(s, 0x61));
    assert XorAll(s, 0x61)[0] == 0;
  }

  /** `__decrypt_xor` in the emitted program. */
  method DecryptLiteral(s: seq<bv8>, key: bv8, result: array<bv8>, terminator: bv8) returns (i: nat)
    requires result.Length == BUFFER && |s| < BUFFER && WellFormed(Argument(s, key))
    modifies result
    ensures i < BUFFER && result[i] == terminator
    ensures result[..i] == s <==> key !in s && NoMark(XorAll(s, key))
  {
    LiteralRoundTripIff(s, key);
    LiteralOfEscapes(XorAll(s, key));
    i := DecryptXor(Argument(s, key), key, result, terminator);
  }
}
