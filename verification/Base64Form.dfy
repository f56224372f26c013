/**
 The form of the encoder's output, as RFC 4648 demands it: its length, where its padding stands, and that the bits
 which the decoder does not look at are zero.
 */
module Base64Form {
  import opened Common
  import opened Base64Codec

  /** How many pads the encoding of `n` bytes ends with. */
  function Pads(n: nat): nat {
    if n % 3 == 0 then 0 else 3 - n % 3
  }

  function FormLength(n: nat): nat {
    4 * ((n + 2) / 3)
  }

  lemma NextGroup(n: nat)
    requires n > 2
    ensures FormLength(n) == FormLength(n - 3) + 4 && Pads(n) == Pads(n - 3) && Pads(n - 3) <= FormLength(n - 3)
  {
    assert (n - 3 + 2) / 3 == (n + 2) / 3 - 1;
  }

  lemma EncodeStep(s: seq<byte>)
    requires |s| > 2
    ensures var (p, q, r, t) := Sextets(s[0], s[1], s[2]);
      Encode(s) == [Symbol(p), Symbol(q), Symbol(r), Symbol(t)] + Encode(s[3..])
  {}

  predicate IsSymbol(c: byte) {
    TableIndex(c).Some? && c != 0
  }

  /** Symbols, then as many pads as there are bytes missing to a group of three, and nothing else. */
  ghost predicate HasForm(text: seq<byte>, n: nat) {
    && |text| == FormLength(n)
    && forall k :: 0 <= k < |text| ==> if k < |text| - Pads(n) then IsSymbol(text[k]) else text[k] == PAD
  }

  lemma SymbolIs(i: byte)
    requires i < 64
    ensures IsSymbol(Symbol(i)) && TableIndex(Symbol(i)) == Some(i) && Symbol(i) != PAD
  {
    TableIndexOfSymbol(i);
  }

  lemma FullGroup(a: byte, b: byte, c: byte)
    ensures var (p, q, r, t) := Sextets(a, b, c); IsSymbol(Symbol(p)) && IsSymbol(Symbol(q)) && IsSymbol(Symbol(r)) && IsSymbol(Symbol(t))
  {
    hide Symbol;
    var (p, q, r, t) := Sextets(a, b, c);
    SymbolIs(p);
    SymbolIs(q);
    SymbolIs(r);
    SymbolIs(t);
  }

  /** The encoding of `n` bytes has 4 * ((n + 2) / 3) characters, the last 2, 1 or 0 of which are pads. */
  lemma {:induction false} EncodingHasForm(s: seq<byte>)
    ensures HasForm(Encode(s), |s|)
  {
    hide Symbol, Sextets, IsSymbol;
    if |s| == 1 {
      FullGroup(s[0], 0, 0);
    } else if |s| == 2 {
      FullGroup(s[0], s[1], 0);
    } else if |s| > 2 {
      FullGroup(s[0], s[1], s[2]);
      EncodingHasForm(s[3..]);
      EncodeStep(s);
      LongForm(Encode(s)[..4], Encode(s[3..]), |s|);
    }
  }

  lemma LongForm(first: seq<byte>, rest: seq<byte>, n: nat)
    requires n > 2 && |first| == 4 && (forall k :: 0 <= k < 4 ==> IsSymbol(first[k])) && HasForm(rest, n - 3)
    ensures HasForm(first + rest, n)
  {
    hide IsSymbol, FormLength, Pads;
    NextGroup(n);
  }

  /** The bits of the last symbol that carry no input are zero: four of them before two pads, two before one. */
  ghost predicate SpareBitsZero(text: seq<byte>, n: nat) {
    && (n % 3 == 1 ==> |text| >= 3 && TableIndex(text[|text| - 3]).Some? && TableIndex(text[|text| - 3]).value as int % 16 == 0)
    && (n % 3 == 2 ==> |text| >= 3 && TableIndex(text[|text| - 2]).Some? && TableIndex(text[|text| - 2]).value as int % 4 == 0)
  }

  lemma {:induction false} SpareBitsAreZero(s: seq<byte>)
    ensures SpareBitsZero(Encode(s), |s|)
  {
    hide Symbol, TableIndex, Sextets;
    if |s| == 1 {
      OneByte(s[0]);
    } else if |s| == 2 {
      TwoBytes(s[0], s[1]);
    } else if |s| > 2 {
      SpareBitsAreZero(s[3..]);
      EncodeStep(s);
      SpareBitsStep(Encode(s)[..4], Encode(s[3..]), |s|);
    }
  }

  lemma SpareBitsStep(first: seq<byte>, rest: seq<byte>, n: nat)
    requires n > 2 && |first| == 4 && SpareBitsZero(rest, n - 3)
    ensures SpareBitsZero(first + rest, n)
  {
    hide TableIndex;
    assert (n - 3) % 3 == n % 3;
  }

  lemma OneByte(a: byte)
    ensures var q := Sextets(a, 0, 0).1; TableIndex(Symbol(q)) == Some(q) && q as int % 16 == 0
  {
    hide Symbol;
    var q := Sextets(a, 0, 0).1;
    SymbolIs(q);
    assert a as int * 0x10000 / 0x1000 == a as int * 16;
    assert a as int * 16 % 64 % 16 == 0;
  }

  lemma TwoBytes(a: byte, b: byte)
    ensures var r := Sextets(a, b, 0).2; TableIndex(Symbol(r)) == Some(r) && r as int % 4 == 0
  {
    hide Symbol;
    var r := Sextets(a, b, 0).2;
    SymbolIs(r);
    TwoZeroBits(a as int, b as int);
    assert a as int * 0x10000 + b as int * 0x100 + 0 == (a as int * 1024 + b as int * 4) * 0x40;
  }

  lemma TwoZeroBits(a: int, b: int)
    ensures ((a * 1024 + b * 4) * 0x40) / 0x40 % 0x40 % 4 == 0
  {
    assert (a * 1024 + b * 4) % 64 % 4 == 0;
  }

  // ---------------------------------------------------------------------------------------------
  // The end of the text
  // ---------------------------------------------------------------------------------------------

  /** The first pad ends the text: what follows it is not looked at. */
  lemma {:induction false} PadEndsText(text: seq<byte>, junk: seq<byte>)
    requires Decodable(text) && PAD !in text
    ensures Decodable(text + [PAD] + junk) && Indices(text + [PAD] + junk) == Indices(text)
  {
    hide TableIndex;
    if text != [] {
      assert text[0] in text;
      assert (text + [PAD] + junk)[1..] == text[1..] + [PAD] + junk;
      PadEndsText(text[1..], junk);
    }
  }
}
