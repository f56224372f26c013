/**
 The Base64 half of the obfuscator's string encryption: the encoder of section 4 of RFC 4648, and
 the hand-written C decoder that the obfuscator emits next to the program it protects.

 Bytes are small integers.  A mask of adjacent bits followed by a shift is written as a quotient and a
 remainder (`MasksAndShifts`).  Sums that C computes after promotion to int are cut back to a byte
 where the C code stores them in an `unsigned char`.
 */
module Base64Codec {
  import opened Common

  const UPPER: string := "ABCDEFGHIJKLMNOPQRSTUVWXYZ"
  const LOWER: string := "abcdefghijklmnopqrstuvwxyz"
  const DIGITS: string := "0123456789+/"
  const PAD: byte := 0x3D

  // ---------------------------------------------------------------------------------------------
  // The table and strchr
  // ---------------------------------------------------------------------------------------------

  /** The byte of `base64_chars` at an index below 64. */
  function Symbol(i: byte): byte
    requires i < 64
  {
    if i < 26 then i + 65 else if i < 52 then i + 71 else if i < 62 then i - 4 else if i == 62 then 43 else 47
  }

  /** `Symbol` lists the literal the emitted C code holds: upper case, lower case, digits, plus, slash. */
  lemma SymbolsAreTheLiteral(i: nat)
    ensures i < 26 ==> |UPPER| == 26 && UPPER[i] as int == Symbol(i as byte) as int
    ensures i < 26 ==> |LOWER| == 26 && LOWER[i] as int == Symbol((26 + i) as byte) as int
    ensures i < 12 ==> |DIGITS| == 12 && DIGITS[i] as int == Symbol((52 + i) as byte) as int
  {
    UpperCase(i);
    LowerCase(i);
    Digits(i);
  }

  lemma UpperCase(i: nat)
    ensures |UPPER| == 26 && (i < 26 ==> UPPER[i] as int == 65 + i)
  {}

  lemma LowerCase(i: nat)
    ensures |LOWER| == 26 && (i < 26 ==> LOWER[i] as int == 97 + i)
  {}

  lemma Digits(i: nat)
    ensures |DIGITS| == 12 && (i < 10 ==> DIGITS[i] as int == 48 + i) && DIGITS[10] == '+' && DIGITS[11] == '/'
  {}

  /** The first index at or after `from` where the table holds `c`. */
  function Search(c: byte, from: byte): Option<byte>
    requires from <= 64
    decreases 64 - from
  {
    if from == 64 then None else if Symbol(from) == c then Some(from) else Search(c, from + 1)
  }

  /**
   `strchr(base64_chars, c) - base64_chars`: the index of the symbol; for the NUL byte, the index of the
   table's own terminator; nothing for any other byte, where C subtracts from a null pointer.
   */
  function TableIndex(c: byte): Option<byte> {
    if c == 0 then Some(64) else Search(c, 0)
  }

  /** No symbol occurs twice in the table, so a search for one ends at its index. */
  lemma {:induction false} SearchFindsSymbol(i: byte, from: byte)
    requires from <= i < 64
    ensures Search(Symbol(i), from) == Some(i)
    decreases i - from
  {
    if from < i {
      SearchFindsSymbol(i, from + 1);
    }
  }

  lemma TableIndexOfSymbol(i: byte)
    requires i < 64
    ensures Symbol(i) != 0 && Symbol(i) != PAD
    ensures TableIndex(Symbol(i)) == Some(i)
  {
    SearchFindsSymbol(i, 0);
  }

  /** `strchr` stops at the first hit: an index it returns holds the byte, and no earlier one does. */
  lemma {:induction false} SearchIsFirst(c: byte, from: byte)
    requires from <= 64
    ensures match Search(c, from)
      case Some(i) => from <= i < 64 && Symbol(i) == c && forall k: byte :: from <= k < i ==> Symbol(k) != c
      case None => forall k: byte :: from <= k < 64 ==> Symbol(k) != c
    decreases 64 - from
  {
    if from < 64 && Symbol(from) != c {
      SearchIsFirst(c, from + 1);
    }
  }

  // ---------------------------------------------------------------------------------------------
  // The encoder
  // ---------------------------------------------------------------------------------------------

  /** The four 6-bit groups of the 24-bit group formed by three bytes, from the left. */
  function Sextets(a: byte, b: byte, c: byte): (r: (byte, byte, byte, byte))
    ensures r.0 < 64 && r.1 < 64 && r.2 < 64 && r.3 < 64
  {
    var g := a as int * 0x10000 + b as int * 0x100 + c as int;
    ((g / 0x40000) as byte, (g / 0x1000 % 0x40) as byte, (g / 0x40 % 0x40) as byte, (g % 0x40) as byte)
  }

  /** Section 4 of RFC 4648: 24-bit groups, zero bits added on the right of a short last group, `=` as padding. */
  function Encode(s: seq<byte>): seq<byte> {
    if |s| == 0 then []
    else if |s| == 1 then
      var (p, q, _, _) := Sextets(s[0], 0, 0);
      [Symbol(p), Symbol(q), PAD, PAD]
    else if |s| == 2 then
      var (p, q, r, _) := Sextets(s[0], s[1], 0);
      [Symbol(p), Symbol(q), Symbol(r), PAD]
    else
      var (p, q, r, t) := Sextets(s[0], s[1], s[2]);
      [Symbol(p), Symbol(q), Symbol(r), Symbol(t)] + Encode(s[3..])
  }

  // ---------------------------------------------------------------------------------------------
  // What the decoder computes
  // ---------------------------------------------------------------------------------------------

  /** The masks of the decoder, as integer arithmetic. */
  lemma MasksAndShifts(x: bv8)
    ensures ((x & 0x30) >> 4) as int == x as int / 16 % 4
    ensures (x & 0xF) as int == x as int % 16
    ensures ((x & 0x3C) >> 2) as int == x as int / 4 % 16
    ensures (x & 0x3) as int == x as int % 4
  {
    Mask30(x);
    Mask0F(x);
    Mask3C(x);
    Mask03(x);
  }

  lemma Mask30(x: bv8)
    ensures ((x & 0x30) >> 4) as int == x as int / 16 % 4
  {}

  lemma Mask0F(x: bv8)
    ensures (x & 0xF) as int == x as int % 16
  {}

  lemma Mask3C(x: bv8)
    ensures ((x & 0x3C) >> 2) as int == x as int / 4 % 16
  {
    assert (x & 0x3C) >> 2 == (x >> 2) & 0xF;
    Mask0F(x >> 2);
    assert (x >> 2) as int == x as int / 4;
  }

  lemma Mask03(x: bv8)
    ensures (x & 0x3) as int == x as int % 4
  {}

  /** The three int sums of one decoding group, before they are stored in `unsigned char`s. */
  function Sum0(a: byte, b: byte): nat { a as int * 4 + b as int / 16 % 4 }
  function Sum1(b: byte, c: byte): nat { b as int % 16 * 16 + c as int / 4 % 16 }
  function Sum2(c: byte, d: byte): nat { c as int % 4 * 64 + d as int }

  function Stored(x: nat): byte { (x % 0x100) as byte }

  function Byte0(a: byte, b: byte): byte { Stored(Sum0(a, b)) }
  function Byte1(b: byte, c: byte): byte { Stored(Sum1(b, c)) }
  function Byte2(c: byte, d: byte): byte { Stored(Sum2(c, d)) }

  /** Full groups of four give three bytes; `j` left-over symbols, topped up with 64s, give `j - 1`. */
  function DecodeIndices(x: seq<byte>): (r: seq<byte>) {
    if |x| < 2 then []
    else if |x| == 2 then [Byte0(x[0], x[1])]
    else if |x| == 3 then [Byte0(x[0], x[1]), Byte1(x[1], x[2])]
    else [Byte0(x[0], x[1]), Byte1(x[1], x[2]), Byte2(x[2], x[3])] + DecodeIndices(x[4..])
  }

  /** Every byte before the first `=` is in the table: the decoder's behaviour is undefined otherwise. */
  predicate Decodable(text: seq<byte>) {
    text == [] || text[0] == PAD || (text[0] != 0 && TableIndex(text[0]).Some? && Decodable(text[1..]))
  }

  function Indices(text: seq<byte>): seq<byte>
    requires Decodable(text)
  {
    if text == [] || text[0] == PAD then [] else [TableIndex(text[0]).value] + Indices(text[1..])
  }

  function Payload(text: seq<byte>): seq<byte>
    requires Decodable(text)
  {
    DecodeIndices(Indices(text))
  }

  // ---------------------------------------------------------------------------------------------
  // The round trip
  // ---------------------------------------------------------------------------------------------

  /** The sextets of three bytes, with the high and low parts of each byte named. */
  lemma SextetsOf(x1: nat, x0: nat, y1: nat, y0: nat, z1: nat, z0: nat)
    requires x1 < 64 && x0 < 4 && y1 < 16 && y0 < 16 && z1 < 4 && z0 < 64
    ensures Sextets((x1 * 4 + x0) as byte, (y1 * 16 + y0) as byte, (z1 * 64 + z0) as byte)
         == (x1 as byte, (x0 * 16 + y1) as byte, (y0 * 4 + z1) as byte, z0 as byte)
  {
    var g := (x1 * 4 + x0) * 0x10000 + (y1 * 16 + y0) * 0x100 + (z1 * 64 + z0);
    var g1 := x1 * 64 + (x0 * 16 + y1);
    var g2 := g1 * 64 + (y0 * 4 + z1);
    By64(g2, z0);
    By64(g1, y0 * 4 + z1);
    By64(x1, x0 * 16 + y1);
    By4096(g1, (y0 * 4 + z1) * 64 + z0);
    By262144(x1, (x0 * 16 + y1) * 4096 + (y0 * 4 + z1) * 64 + z0);
  }

  lemma By4(q: nat, r: nat)
    requires r < 4
    ensures (q * 4 + r) / 4 == q && (q * 4 + r) % 4 == r
  {}

  lemma By16(q: nat, r: nat)
    requires r < 16
    ensures (q * 16 + r) / 16 == q && (q * 16 + r) % 16 == r
  {}

  lemma By64(q: nat, r: nat)
    requires r < 64
    ensures (q * 64 + r) / 64 == q && (q * 64 + r) % 64 == r
  {}

  lemma By4096(q: nat, r: nat)
    requires r < 4096
    ensures (q * 4096 + r) / 4096 == q
  {}

  lemma By262144(q: nat, r: nat)
    requires r < 262144
    ensures (q * 262144 + r) / 262144 == q
  {}

  lemma Byte0Of(x1: nat, x0: nat, y1: nat)
    requires x1 < 64 && x0 < 4 && y1 < 16
    ensures Byte0(x1 as byte, (x0 * 16 + y1) as byte) == (x1 * 4 + x0) as byte
  {
    By16(x0, y1);
  }

  lemma Byte1Of(x0: nat, y1: nat, y0: nat, z1: nat)
    requires x0 < 4 && y1 < 16 && y0 < 16 && z1 < 4
    ensures Byte1((x0 * 16 + y1) as byte, (y0 * 4 + z1) as byte) == (y1 * 16 + y0) as byte
  {
    By16(x0, y1);
    By4(y0, z1);
  }

  lemma Byte2Of(y0: nat, z1: nat, z0: nat)
    requires y0 < 16 && z1 < 4 && z0 < 64
    ensures Byte2((y0 * 4 + z1) as byte, z0 as byte) == (z1 * 64 + z0) as byte
  {
    By4(y0, z1);
  }

  /** The bytes of a group come back from its sextets. */
  lemma GroupRoundTrip(a: byte, b: byte, c: byte)
    ensures var (p, q, r, t) := Sextets(a, b, c);
      Byte0(p, q) == a && Byte1(q, r) == b && Byte2(r, t) == c
  {
    hide Sextets, Byte0, Byte1, Byte2;
    var x, y, z := a as int, b as int, c as int;
    SextetsOf(x / 4, x % 4, y / 16, y % 16, z / 64, z % 64);
    Byte0Of(x / 4, x % 4, y / 16);
    Byte1Of(x % 4, y / 16, y % 16, z / 64);
    Byte2Of(y % 16, z / 64, z % 64);
  }

  lemma IndicesOfSymbol(i: byte, rest: seq<byte>)
    requires i < 64 && Decodable(rest)
    ensures Decodable([Symbol(i)] + rest)
    ensures Indices([Symbol(i)] + rest) == [i] + Indices(rest)
  {
    TableIndexOfSymbol(i);
    assert ([Symbol(i)] + rest)[1..] == rest;
  }

  lemma IndicesOfGroup(p: byte, q: byte, r: byte, t: byte, rest: seq<byte>)
    requires p < 64 && q < 64 && r < 64 && t < 64 && Decodable(rest)
    ensures var text := [Symbol(p), Symbol(q), Symbol(r), Symbol(t)] + rest;
      Decodable(text) && Indices(text) == [p, q, r, t] + Indices(rest)
  {
    IndicesOfSymbol(t, rest);
    IndicesOfSymbol(r, [Symbol(t)] + rest);
    IndicesOfSymbol(q, [Symbol(r)] + ([Symbol(t)] + rest));
    IndicesOfSymbol(p, [Symbol(q)] + ([Symbol(r)] + ([Symbol(t)] + rest)));
    assert [Symbol(p), Symbol(q), Symbol(r), Symbol(t)] + rest
        == [Symbol(p)] + ([Symbol(q)] + ([Symbol(r)] + ([Symbol(t)] + rest)));
  }

  lemma IndicesOfShortGroups(p: byte, q: byte, r: byte)
    requires p < 64 && q < 64 && r < 64
    ensures var text := [Symbol(p), Symbol(q), PAD, PAD]; Decodable(text) && Indices(text) == [p, q]
    ensures var text := [Symbol(p), Symbol(q), Symbol(r), PAD]; Decodable(text) && Indices(text) == [p, q, r]
  {
    IndicesOfSymbol(q, [PAD, PAD]);
    IndicesOfSymbol(p, [Symbol(q)] + [PAD, PAD]);
    assert [Symbol(p), Symbol(q), PAD, PAD] == [Symbol(p)] + ([Symbol(q)] + [PAD, PAD]);
    IndicesOfSymbol(r, [PAD]);
    IndicesOfSymbol(q, [Symbol(r)] + [PAD]);
    IndicesOfSymbol(p, [Symbol(q)] + ([Symbol(r)] + [PAD]));
    assert [Symbol(p), Symbol(q), Symbol(r), PAD] == [Symbol(p)] + ([Symbol(q)] + ([Symbol(r)] + [PAD]));
  }

  /** Running the decoder on the encoding of any byte string gives exactly that byte string. */
  lemma {:induction false} RoundTrip(s: seq<byte>)
    ensures Decodable(Encode(s)) && Payload(Encode(s)) == s
    decreases |s|
  {
    if s != [] {
      var b := if |s| > 1 then s[1] else 0;
      var c := if |s| > 2 then s[2] else 0;
      var (p, q, r, t) := Sextets(s[0], b, c);
      GroupRoundTrip(s[0], b, c);
      IndicesOfShortGroups(p, q, r);
      if |s| > 2 {
        RoundTrip(s[3..]);
        IndicesOfGroup(p, q, r, t, Encode(s[3..]));
        assert Indices(Encode(s))[4..] == Indices(Encode(s[3..]));
      }
    }
  }

  /**
   In a full group no sum exceeds 255, so nothing is lost in the `unsigned char`s.  In a left-over group
   the sums that are written out do not either; the third one may (it reaches 256), and is never written.
   */
  lemma NoOverflow(a: byte, b: byte, c: byte, d: byte)
    requires a < 64 && b < 64
    ensures c < 64 && d < 64 ==> Sum0(a, b) <= 255 && Sum1(b, c) <= 255 && Sum2(c, d) <= 255
    ensures TableIndex(0) == Some(64) && Sum1(b, 64) <= 255
    ensures Sum2(c, 64) > 255 <==> c % 4 == 3
  {}

  // ---------------------------------------------------------------------------------------------
  // The emitted decoder
  // ---------------------------------------------------------------------------------------------

  predicate Known(c: byte) {
    TableIndex(c).Some?
  }

  /** The inner loop that replaces symbols by their table indices. */
  method LookUp(char_array_4: array<byte>)
    requires char_array_4.Length == 4
    requires forall k :: 0 <= k < 4 ==> Known(char_array_4[k])
    modifies char_array_4
    ensures forall k :: 0 <= k < 4 ==> Some(char_array_4[k]) == TableIndex(old(char_array_4[k]))
  {
    for k := 0 to 4
      invariant forall i :: 0 <= i < k ==> Some(char_array_4[i]) == TableIndex(old(char_array_4[i]))
      invariant forall i :: k <= i < 4 ==> char_array_4[i] == old(char_array_4[i])
    {
      char_array_4[k] := TableIndex(char_array_4[k]).value;
    }
  }

  /** The first `n` bytes of the group held in `char_array_4` go to `decoded[at..]`. */
  method WriteGroup(char_array_4: array<byte>, n: nat, decoded: array<byte>, at: nat)
    requires char_array_4.Length == 4 && n <= 3 && at + n <= decoded.Length
    requires char_array_4 != decoded
    modifies decoded
    ensures n > 0 ==> decoded[at] == Byte0(char_array_4[0], char_array_4[1])
    ensures n > 1 ==> decoded[at + 1] == Byte1(char_array_4[1], char_array_4[2])
    ensures n > 2 ==> decoded[at + 2] == Byte2(char_array_4[2], char_array_4[3])
    ensures forall k :: 0 <= k < decoded.Length && !(at <= k < at + n) ==> decoded[k] == old(decoded[k])
  {
    var char_array_3 := new byte[3];
    char_array_3[0] := Byte0(char_array_4[0], char_array_4[1]);
    char_array_3[1] := Byte1(char_array_4[1], char_array_4[2]);
    char_array_3[2] := Byte2(char_array_4[2], char_array_4[3]);
    ghost var group := char_array_3[..];
    for k := 0 to n
      invariant char_array_3[..] == group
      invariant forall i :: 0 <= i < k ==> decoded[at + i] == group[i]
      invariant forall i :: 0 <= i < decoded.Length && !(at <= i < at + k) ==> decoded[i] == old(decoded[i])
    {
      decoded[at + k] := char_array_3[k];
    }
    assert forall i :: 0 <= i < n ==> decoded[at + i] == group[i];
    assert n > 0 ==> decoded[at + 0] == group[0];
    assert n > 1 ==> decoded[at + 1] == group[1];
  }

  /** The indices are those of the bytes before the first pad, in order. */
  lemma {:induction false} IndicesAt(text: seq<byte>)
    requires Decodable(text)
    ensures |Indices(text)| <= |text|
    ensures |Indices(text)| < |text| ==> text[|Indices(text)|] == PAD
    ensures forall k :: 0 <= k < |Indices(text)| ==> text[k] != PAD
    ensures forall k :: 0 <= k < |Indices(text)| ==> TableIndex(text[k]) == Some(Indices(text)[k])
  {
    if text != [] && text[0] != PAD {
      IndicesAt(text[1..]);
    }
  }

  lemma IndicesLength(text: seq<byte>)
    requires Decodable(text)
    ensures |Indices(text)| <= |text|
    ensures |Indices(text)| < |text| ==> text[|Indices(text)|] == PAD
    ensures forall k :: 0 <= k < |Indices(text)| ==> text[k] != PAD
  {
    IndicesAt(text);
  }

  /** `char_array_4` holds the `j` symbols of `encoded` that start at `start`. */
  ghost predicate Holds(char_array_4: array<byte>, encoded: seq<byte>, start: nat, j: nat)
    reads char_array_4
  {
    char_array_4.Length == 4 && j <= 4 && start + j <= |encoded| &&
    forall k :: 0 <= k < j ==> char_array_4[k] == encoded[start + k]
  }

  /** The branch for a full group: the first three bytes of what is still to come are written out. */
  method WriteFullGroup(char_array_4: array<byte>, decoded: array<byte>, at: nat, ghost encoded: seq<byte>, ghost start: nat)
    requires Decodable(encoded) && start + 4 <= |Indices(encoded)| <= |encoded|
    requires Holds(char_array_4, encoded, start, 4) && char_array_4 != decoded
    requires at + |DecodeIndices(Indices(encoded)[start..])| <= decoded.Length
    modifies char_array_4, decoded
    ensures var all := DecodeIndices(Indices(encoded)[start..]);
      && |all| >= 3 && all[3..] == DecodeIndices(Indices(encoded)[start + 4..])
      && (forall k :: at <= k < at + 3 ==> decoded[k] == all[k - at])
    ensures forall k :: 0 <= k < decoded.Length && !(at <= k < at + 3) ==> decoded[k] == old(decoded[k])
  {
    IndicesAt(encoded);
    ghost var x := Indices(encoded)[start..];
    assert x[4..] == Indices(encoded)[start + 4..];
    LookUp(char_array_4);
    WriteGroup(char_array_4, 3, decoded, at);
  }

  /** The branch for `j` left-over symbols: zero the other cells, look up, write what is still to come. */
  method WriteLeftOver(char_array_4: array<byte>, j: nat, decoded: array<byte>, at: nat, ghost encoded: seq<byte>, ghost start: nat)
    requires Decodable(encoded) && 0 < j < 4 && start + j == |Indices(encoded)| <= |encoded|
    requires Holds(char_array_4, encoded, start, j) && char_array_4 != decoded
    requires at + |DecodeIndices(Indices(encoded)[start..])| <= decoded.Length
    modifies char_array_4, decoded
    ensures var all := DecodeIndices(Indices(encoded)[start..]);
      && |all| == j - 1
      && (forall k :: at <= k < at + j - 1 ==> decoded[k] == all[k - at])
    ensures forall k :: 0 <= k < decoded.Length && !(at <= k < at + j - 1) ==> decoded[k] == old(decoded[k])
  {
    IndicesAt(encoded);
    for k := j to 4
      modifies char_array_4
      invariant forall n :: 0 <= n < j ==> char_array_4[n] == old(char_array_4[n])
      invariant forall n :: j <= n < k ==> char_array_4[n] == 0
    {
      char_array_4[k] := 0;
    }
    LookUp(char_array_4);
    WriteGroup(char_array_4, j - 1, decoded, at);
  }

  /**
   The main loop of `__b64_decode`: full groups are written out; `j` symbols, whose indices start at
   `start`, are left over.
   */
  method DecodeFullGroups(encoded: seq<byte>, len: nat, char_array_4: array<byte>, decoded: array<byte>)
    returns (j: nat, written: nat, ghost start: nat)
    requires len == |encoded| && Decodable(encoded)
    requires |Payload(encoded)| < decoded.Length
    requires char_array_4.Length == 4 && char_array_4 != decoded
    modifies char_array_4, decoded
    ensures j < 4 && start + j == |Indices(encoded)| <= |encoded|
    ensures Holds(char_array_4, encoded, start, j)
    ensures written <= |Payload(encoded)|
    ensures Payload(encoded)[written..] == DecodeIndices(Indices(encoded)[start..])
    ensures forall k :: 0 <= k < written ==> decoded[k] == Payload(encoded)[k]
    ensures forall k :: written <= k < decoded.Length ==> decoded[k] == old(decoded[k])
  {
    hide DecodeIndices, Decodable, Indices, Progress;
    ghost var was := decoded[..];
    IndicesLength(encoded);
    StartProgress(decoded, was, encoded);
    var i, in_len := 0, len;
    j, written, start := 0, 0, 0;
    while in_len > 0 && encoded[i] != PAD
      invariant in_len == |encoded| - i && start + j == i <= |Indices(encoded)|
      invariant 0 <= j < 4 && Holds(char_array_4, encoded, start, j)
      invariant Progress(decoded, was, encoded, written, start)
      decreases in_len
    {
      char_array_4[j] := encoded[i];
      in_len, i, j := in_len - 1, i + 1, j + 1;
      if j == 4 {
        FinishGroup(char_array_4, decoded, written, was, encoded, start);
        written, j, start := written + 3, 0, i;
      }
    }
    UseProgress(decoded, was, encoded, written, start);
  }

  /** `written` bytes of the payload are written, and what is still to come is what the indices from `start` on give. */
  ghost predicate Progress(decoded: array<byte>, was: seq<byte>, encoded: seq<byte>, written: nat, start: nat)
    requires Decodable(encoded)
    reads decoded
  {
    && |was| == decoded.Length && start <= |Indices(encoded)| && written <= |Payload(encoded)| < decoded.Length
    && Payload(encoded)[written..] == DecodeIndices(Indices(encoded)[start..])
    && (forall k :: 0 <= k < written ==> decoded[k] == Payload(encoded)[k])
    && (forall k :: written <= k < decoded.Length ==> decoded[k] == was[k])
  }

  lemma StartProgress(decoded: array<byte>, was: seq<byte>, encoded: seq<byte>)
    requires Decodable(encoded) && |Payload(encoded)| < decoded.Length && was == decoded[..]
    ensures Progress(decoded, was, encoded, 0, 0)
  {
    assert Indices(encoded)[0..] == Indices(encoded) && Payload(encoded)[0..] == Payload(encoded);
  }

  lemma UseProgress(decoded: array<byte>, was: seq<byte>, encoded: seq<byte>, written: nat, start: nat)
    requires Decodable(encoded) && Progress(decoded, was, encoded, written, start)
    ensures |was| == decoded.Length && start <= |Indices(encoded)| && written <= |Payload(encoded)|
    ensures Payload(encoded)[written..] == DecodeIndices(Indices(encoded)[start..])
    ensures forall k :: 0 <= k < written ==> decoded[k] == Payload(encoded)[k]
    ensures forall k :: written <= k < decoded.Length ==> decoded[k] == was[k]
  {}

  method FinishGroup(char_array_4: array<byte>, decoded: array<byte>, written: nat,
    ghost was: seq<byte>, ghost encoded: seq<byte>, ghost start: nat)
    requires Decodable(encoded) && start + 4 <= |Indices(encoded)| <= |encoded|
    requires Holds(char_array_4, encoded, start, 4) && char_array_4 != decoded
    requires Progress(decoded, was, encoded, written, start)
    modifies char_array_4, decoded
    ensures Progress(decoded, was, encoded, written + 3, start + 4)
  {
    hide DecodeIndices, Decodable, Indices, Holds;
    ghost var payload := Payload(encoded);
    WriteFullGroup(char_array_4, decoded, written, encoded, start);
    assert payload[written..][3..] == payload[written + 3..];
    assert forall k :: written <= k < written + 3 ==> payload[k] == payload[written..][k - written];
  }

  /**
   The emitted `__b64_decode`.  The byte stored after the payload is a multi-character constant of
   the emitted text, whose value C leaves to the compiler; it is a parameter here.
   */
  method B64Decode(encoded: seq<byte>, len: nat, decoded: array<byte>, terminator: byte) returns (written: nat)
    requires len == |encoded|
    requires Decodable(encoded)
    requires |Payload(encoded)| < decoded.Length
    modifies decoded
    ensures written == |Payload(encoded)|
    ensures decoded[..written] == Payload(encoded)
    ensures decoded[written] == terminator
    ensures forall k :: written < k < decoded.Length ==> decoded[k] == old(decoded[k])
  {
    ghost var payload := Payload(encoded);
    var char_array_4 := new byte[4];
    var j: nat;
    ghost var start;
    j, written, start := DecodeFullGroups(encoded, len, char_array_4, decoded);
    if j > 0 {
      WriteLeftOver(char_array_4, j, decoded, written, encoded, start);
      assert forall k :: written <= k < |payload| ==> payload[k] == payload[written..][k - written];
      written := written + j - 1;
    }
    decoded[written] := terminator;
  }

  const BUFFER: nat := 1024

  /** `__decrypt_b64` on the emitted literal: whatever string was encrypted, the static buffer then starts with it. */
  method DecryptB64(s: seq<byte>, buffer: array<byte>, terminator: byte)
    requires buffer.Length == BUFFER && |s| < BUFFER
    modifies buffer
    ensures buffer[..|s|] == s
  {
    var encoded := Encode(s);
    RoundTrip(s);
    var n := B64Decode(encoded, |encoded|, buffer, terminator);
  }
}
