/**
 Account tokens: 32 random bytes printed as 64 hexadecimal digits, and the comparison loop that looks at
 every character whatever it finds.
 */
module Tokens {
  import opened Common

  const TOKEN_LENGTH: nat := 64

  // ---------------------------------------------------------------------------------------------
  // The encoder
  // ---------------------------------------------------------------------------------------------

  /** `%02x` of every byte. */
  function Token(bytes: seq<byte>): (r: string)
    ensures |r| == 2 * |bytes|
  {
    if bytes == [] then ""
    else Token(bytes[..|bytes| - 1]) + [HexDigit(bytes[|bytes| - 1] as nat / 16), HexDigit(bytes[|bytes| - 1] as nat % 16)]
  }

  predicate IsTokenChar(c: char) {
    '0' <= c <= '9' || 'a' <= c <= 'f'
  }

  /** The bytes that a string of digit pairs stands for. */
  function Decode(s: string): seq<byte>
    requires |s| % 2 == 0 && forall c :: c in s ==> IsTokenChar(c)
  {
    if s == "" then []
    else
      assert s[|s| - 2] in s && s[|s| - 1] in s;
      Decode(s[..|s| - 2]) + [PairValue(s[|s| - 2], s[|s| - 1])]
  }

  function PairValue(a: char, b: char): byte
    requires IsTokenChar(a) && IsTokenChar(b)
  {
    (HexValue(a) * 16 + HexValue(b)) as byte
  }

  lemma DigitsRoundTrip(b: byte)
    ensures IsTokenChar(HexDigit(b as nat / 16)) && IsTokenChar(HexDigit(b as nat % 16))
    ensures PairValue(HexDigit(b as nat / 16), HexDigit(b as nat % 16)) == b
  {}

  /** A token consists of lower-case hexadecimal digits that stand for its bytes. */
  lemma {:induction false} TokenRoundTrip(bytes: seq<byte>)
    ensures forall c :: c in Token(bytes) ==> IsTokenChar(c)
    ensures Decode(Token(bytes)) == bytes
  {
    hide HexDigit, PairValue, IsTokenChar;
    if bytes != [] {
      var rest, b := bytes[..|bytes| - 1], bytes[|bytes| - 1];
      TokenRoundTrip(rest);
      DigitsRoundTrip(b);
      var t := Token(bytes);
      assert t[..|t| - 2] == Token(rest);
    }
  }

  /** Different random bytes give different tokens. */
  lemma TokenIsInjective(a: seq<byte>, b: seq<byte>)
    requires Token(a) == Token(b)
    ensures a == b
  {
    TokenRoundTrip(a);
    TokenRoundTrip(b);
  }

  lemma {:induction false} TokenAt(bytes: seq<byte>, k: nat)
    requires k < |bytes|
    ensures Token(bytes)[2 * k] == HexDigit(bytes[k] as nat / 16)
    ensures Token(bytes)[2 * k + 1] == HexDigit(bytes[k] as nat % 16)
  {
    if k < |bytes| - 1 {
      TokenAt(bytes[..|bytes| - 1], k);
    }
  }

  /** `generate_secure_token`: `random` is what the random generator yields. */
  method GenerateSecureToken(buffer: array<char>, len: nat, random: Option<seq<byte>>) returns (ok: bool)
    requires len <= buffer.Length
    requires random.Some? ==> |random.value| == TOKEN_LENGTH / 2
    modifies buffer
    ensures ok <==> len >= TOKEN_LENGTH + 1 && random.Some?
    ensures ok ==> buffer[..TOKEN_LENGTH] == Token(random.value) && buffer[TOKEN_LENGTH] == NUL
    ensures !ok ==> buffer[..] == old(buffer[..])
    ensures forall k :: TOKEN_LENGTH < k < buffer.Length ==> buffer[k] == old(buffer[k])
  {
    if len < TOKEN_LENGTH + 1 || random.None? {
      return false;
    }
    hide HexDigit, Token;
    var bytes := random.value;
    ghost var token := Token(bytes);
    for i := 0 to |bytes|
      invariant forall k :: 0 <= k < 2 * i ==> buffer[k] == token[k]
      invariant forall k :: TOKEN_LENGTH < k < buffer.Length ==> buffer[k] == old(buffer[k])
    {
      var b := bytes[i] as nat;
      buffer[2 * i] := HexDigit(b / 16);
      buffer[2 * i + 1] := HexDigit(b % 16);
      buffer[2 * i + 2] := NUL;
      TokenAt(bytes, i);
    }
    buffer[TOKEN_LENGTH] := NUL;
    return true;
  }

  // ---------------------------------------------------------------------------------------------
  // The comparison
  // ---------------------------------------------------------------------------------------------

  /** The accumulated differences vanish exactly when both parts do. */
  lemma OrVanishes(result: bv8, difference: bv8)
    ensures result | difference == 0 <==> result == 0 && difference == 0
  {}

  lemma XorVanishes(a: bv8, b: bv8)
    ensures a ^ b == 0 <==> a == b
  {}

  /** `constant_time_compare`: 1 if and only if the first `len` bytes agree. */
  method ConstantTimeCompare(a: seq<bv8>, b: seq<bv8>, len: nat) returns (ret: nat)
    requires len <= |a| && len <= |b|
    ensures ret == if a[..len] == b[..len] then 1 else 0
  {
    var result: bv8 := 0;
    for i := 0 to len
      invariant result == 0 <==> forall k :: 0 <= k < i ==> a[k] == b[k]
    {
      OrVanishes(result, a[i] ^ b[i]);
      XorVanishes(a[i], b[i]);
      result := result | (a[i] ^ b[i]);
    }
    assert result == 0 ==> a[..len] == b[..len];
    assert a[..len] == b[..len] ==> forall k :: 0 <= k < len ==> a[..len][k] == b[..len][k];
    ret := if result == 0 then 1 else 0;
  }
}
