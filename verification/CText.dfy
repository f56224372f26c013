/**
 C strings in fixed buffers: the in-place sanitiser, bounded concatenation, and the pieces of `sscanf`
 that the chat server uses.
 */
module CText {
  import opened Common

  /** The string a buffer holds: everything before the first NUL. */
  function CStr(b: seq<char>): (r: string)
    ensures |r| <= |b| && r == b[..|r|]
    ensures |r| < |b| ==> b[|r|] == NUL
    ensures NUL !in r
  {
    if b == [] || b[0] == NUL then [] else [b[0]] + CStr(b[1..])
  }

  lemma {:induction false} CStrIs(b: seq<char>, s: string)
    requires |s| < |b| && b[|s|] == NUL
    requires forall k :: 0 <= k < |s| ==> b[k] == s[k] && s[k] != NUL
    ensures CStr(b) == s
  {
    if s != "" {
      assert b[0] == s[0];
      CStrIs(b[1..], s[1..]);
    }
  }

  // ---------------------------------------------------------------------------------------------
  // sanitize_input
  // ---------------------------------------------------------------------------------------------

  predicate Unsafe(c: char) {
    c == '<' || c == '>' || c == '"' || c == '\'' || c == '\\' || c == ';' || c == '&' || c == '|'
  }

  /** The characters of a string that are not dropped, in order. */
  function Sanitized(s: string): (r: string)
    ensures |r| <= |s|
  {
    if s == [] then [] else (if Unsafe(s[0]) then [] else [s[0]]) + Sanitized(s[1..])
  }

  lemma {:induction false} SanitizedOfConcat(a: string, b: string)
    ensures Sanitized(a + b) == Sanitized(a) + Sanitized(b)
  {
    if a == [] {
      assert a + b == b;
    } else {
      assert (a + b)[1..] == a[1..] + b;
      SanitizedOfConcat(a[1..], b);
    }
  }

  /** The result holds exactly the safe characters, each as often as before. */
  lemma {:induction false} SanitizedContents(s: string, c: char)
    ensures multiset(Sanitized(s))[c] == if Unsafe(c) then 0 else multiset(s)[c]
  {
    if s != [] {
      SanitizedContents(s[1..], c);
      assert s == [s[0]] + s[1..];
    }
  }

  lemma SanitizedIsSafe(s: string)
    ensures forall c :: c in Sanitized(s) ==> !Unsafe(c) && c in s
  {
    forall c | c in Sanitized(s)
      ensures !Unsafe(c) && c in s
    {
      SanitizedContents(s, c);
      assert c in multiset(Sanitized(s));
      assert c in multiset(s);
    }
  }

  /** Sanitising changes exactly the strings that hold an unsafe character; in particular it is idempotent. */
  lemma {:induction false} SanitizedIsIdentityIff(s: string)
    ensures Sanitized(s) == s <==> forall c :: c in s ==> !Unsafe(c)
  {
    if s != [] {
      SanitizedIsIdentityIff(s[1..]);
      assert s == [s[0]] + s[1..];
      if Unsafe(s[0]) {
        assert s[0] in s;
      } else {
        assert Sanitized(s)[1..] == Sanitized(s[1..]);
      }
    }
  }

  lemma SanitizedTwice(s: string)
    ensures Sanitized(Sanitized(s)) == Sanitized(s)
  {
    SanitizedIsSafe(s);
    SanitizedIsIdentityIff(Sanitized(s));
  }

  lemma SanitizedStep(s: string, src: nat, clean: string, dst: nat)
    requires src < |s| && dst <= |clean| && clean[dst..] == Sanitized(s[src..])
    ensures Unsafe(s[src]) ==> clean[dst..] == Sanitized(s[src + 1..])
    ensures !Unsafe(s[src]) ==> dst < |clean| && clean[dst] == s[src] && clean[dst + 1..] == Sanitized(s[src + 1..])
  {
    assert s[src..][1..] == s[src + 1..];
    if !Unsafe(s[src]) {
      assert clean[dst] == clean[dst..][0] && clean[dst + 1..] == clean[dst..][1..];
    }
  }

  /** The buffer holds the C string `s`. */
  ghost predicate Holds(str: array<char>, s: string)
    reads str
  {
    |s| < str.Length && str[|s|] == NUL && forall k :: 0 <= k < |s| ==> str[k] == s[k] && s[k] != NUL
  }

  lemma SanitizedNothing(s: string)
    requires s == ""
    ensures Sanitized(s) == ""
  {}

  /** The two-pointer loop of `sanitize_input`; the write index never passes the read index. */
  method Compact(str: array<char>, ghost was: string)
    requires Holds(str, was)
    modifies str
    ensures Holds(str, Sanitized(was))
    ensures forall k :: |was| <= k < str.Length ==> str[k] == old(str[k])
  {
    hide Sanitized;
    ghost var clean := Sanitized(was);
    var src, dst := 0, 0;
    assert was[0..] == was && clean[0..] == clean;
    while str[src] != NUL
      invariant 0 <= dst <= src <= |was| && dst <= |clean|
      invariant forall k :: src <= k < str.Length ==> str[k] == old(str[k])
      invariant forall k :: 0 <= k < dst ==> str[k] == clean[k] && clean[k] != NUL
      invariant clean[dst..] == Sanitized(was[src..])
      decreases |was| - src
    {
      SanitizedStep(was, src, clean, dst);
      if Unsafe(str[src]) {
        src := src + 1;
      } else {
        str[dst] := str[src];
        dst, src := dst + 1, src + 1;
      }
    }
    SanitizedNothing(was[src..]);
    str[dst] := NUL;
  }

  /** `sanitize_input`: nothing from the old terminator on is touched. */
  method SanitizeInput(str: array<char>)
    requires NUL in str[..]
    modifies str
    ensures NUL in str[..] && CStr(str[..]) == Sanitized(old(CStr(str[..])))
    ensures forall k :: |old(CStr(str[..]))| <= k < str.Length ==> str[k] == old(str[k])
  {
    ghost var was := CStr(str[..]);
    HeldByCStr(str[..]);
    Compact(str, was);
    CStrIs(str[..], Sanitized(was));
  }

  lemma {:induction false} HeldByCStr(b: seq<char>)
    requires NUL in b
    ensures |CStr(b)| < |b| && b[|CStr(b)|] == NUL
    ensures forall k :: 0 <= k < |CStr(b)| ==> b[k] == CStr(b)[k] && CStr(b)[k] != NUL
  {
    if b[0] != NUL {
      HeldByCStr(b[1..]);
    }
  }

  // ---------------------------------------------------------------------------------------------
  // Bounded output
  // ---------------------------------------------------------------------------------------------

  /** What fits: the first `n` characters. */
  function Cut(s: string, n: nat): (r: string)
    ensures |r| == if |s| <= n then |s| else n
    ensures r <= s
  {
    if |s| <= n then s else s[..n]
  }

  lemma CutOfConcat(a: string, b: string, n: nat)
    ensures |a| <= n ==> Cut(a + b, n) == a + Cut(b, n - |a|)
    ensures Cut(Cut(a, n) + b, n) == Cut(a + b, n)
  {}

  /** `strncat(dst, src, n)`: at most `n` characters of `src` are appended, and a NUL. */
  method StrNCat(dst: array<char>, src: string, n: nat)
    requires NUL in dst[..] && NUL !in src
    requires |CStr(dst[..])| + |Cut(src, n)| < dst.Length
    modifies dst
    ensures NUL in dst[..]
    ensures CStr(dst[..]) == old(CStr(dst[..])) + Cut(src, n)
  {
    ghost var was, more := CStr(dst[..]), Cut(src, n);
    var at := 0;
    while dst[at] != NUL
      invariant 0 <= at <= |was|
      decreases |was| - at
    {
      at := at + 1;
    }
    assert at == |was|;
    var i := 0;
    while i < |src| && i < n
      invariant 0 <= i <= |more|
      invariant dst[..at + i] == was + src[..i]
    {
      dst[at + i] := src[i];
      i := i + 1;
    }
    dst[at + i] := NUL;
    assert dst[..at + i] == was + more;
    CStrIs(dst[..], was + more);
  }

  // ---------------------------------------------------------------------------------------------
  // sscanf
  // ---------------------------------------------------------------------------------------------

  predicate IsSpace(c: char) {
    c == ' ' || '\t' <= c <= '\r'
  }

  /** A blank in a format, and the start of `%s`: skips any number of blanks, also none. */
  function SkipSpaces(s: string): (r: string)
    ensures |r| <= |s|
    ensures r != "" ==> !IsSpace(r[0])
  {
    if s != "" && IsSpace(s[0]) then SkipSpaces(s[1..]) else s
  }

  /** `%<max>s` without the blanks before it: the longest prefix of at most `max` other characters. */
  function ScanWord(s: string, max: nat): (r: string)
    ensures |r| <= max && r <= s
    ensures forall c :: c in r ==> !IsSpace(c)
  {
    if max == 0 || s == "" || IsSpace(s[0]) then "" else [s[0]] + ScanWord(s[1..], max - 1)
  }

  /** `%<max>[^\n]`: the longest prefix of at most `max` characters without a newline. */
  function ScanLine(s: string, max: nat): (r: string)
    ensures |r| <= max && r <= s
    ensures '\n' !in r
  {
    if max == 0 || s == "" || s[0] == '\n' then "" else [s[0]] + ScanLine(s[1..], max - 1)
  }

  /** A word of at most `max` characters that ends the string or is followed by a blank is read whole. */
  lemma {:induction false} ScanWordWhole(w: string, rest: string, max: nat)
    requires |w| <= max && (forall c :: c in w ==> !IsSpace(c))
    requires rest == "" || IsSpace(rest[0]) || |w| == max
    ensures ScanWord(w + rest, max) == w
  {
    if w == "" {
      assert w + rest == rest;
    } else {
      assert (w + rest)[1..] == w[1..] + rest;
      assert w[0] in w;
      ScanWordWhole(w[1..], rest, max - 1);
    }
  }

  lemma {:induction false} ScanWordLong(w: string, max: nat)
    requires |w| >= max && (forall c :: c in w ==> !IsSpace(c))
    ensures ScanWord(w, max) == w[..max]
  {
    if max > 0 {
      assert w[0] in w;
      ScanWordLong(w[1..], max - 1);
    }
  }

  lemma {:induction false} ScanLineCuts(s: string, max: nat)
    requires '\n' !in s
    ensures ScanLine(s, max) == Cut(s, max)
  {
    if max > 0 && s != "" {
      assert s[0] in s;
      ScanLineCuts(s[1..], max - 1);
    }
  }

  lemma {:induction false} SkipSpacesOf(s: string)
    ensures forall c :: c in SkipSpaces(s) ==> c in s
    ensures s == "" || !IsSpace(s[0]) ==> SkipSpaces(s) == s
  {
    if s != "" && IsSpace(s[0]) {
      SkipSpacesOf(s[1..]);
    }
  }
}
