/**
 What the obfuscator's renaming passes do to a program text, as functions and lemmas on token streams.

 A text is a sequence of maximal words, blanks and other characters, so that the regular expression
 `\bname\b` matches exactly the tokens `Word(name)`.
 */
module Renaming {
  datatype Token = Word(name: string) | Blank(c: char) | Other(c: char)

  type Code = seq<Token>

  /** An entry of one of the obfuscator's dictionaries; a dictionary is the sequence of its entries. */
  type Entry = (string, string)

  // ---------------------------------------------------------------------------------------------
  // Dictionaries
  // ---------------------------------------------------------------------------------------------

  ghost predicate DistinctKeys(d: seq<Entry>) {
    forall i, j :: 0 <= i < j < |d| ==> d[i].0 != d[j].0
  }

  ghost predicate DistinctValues(d: seq<Entry>) {
    forall i, j :: 0 <= i < j < |d| ==> d[i].1 != d[j].1
  }

  ghost predicate IsKey(d: seq<Entry>, w: string) {
    exists i :: 0 <= i < |d| && d[i].0 == w
  }

  ghost predicate IsValue(d: seq<Entry>, w: string) {
    exists i :: 0 <= i < |d| && d[i].1 == w
  }

  /** The new name of a word: its value if it is a key, itself otherwise. */
  function Lookup(d: seq<Entry>, w: string): string {
    if d == [] then w else if d[0].0 == w then d[0].1 else Lookup(d[1..], w)
  }

  /** The dictionary that maps the generated names back. */
  function Inverse(d: seq<Entry>): (r: seq<Entry>)
    ensures |r| == |d| && forall k :: 0 <= k < |d| ==> r[k] == (d[k].1, d[k].0)
  {
    seq(|d|, k requires 0 <= k < |d| => (d[k].1, d[k].0))
  }

  lemma {:induction false} LookupKey(d: seq<Entry>, k: nat)
    requires DistinctKeys(d) && k < |d|
    ensures Lookup(d, d[k].0) == d[k].1
  {
    if k > 0 {
      LookupKey(d[1..], k - 1);
    }
  }

  lemma {:induction false} LookupOther(d: seq<Entry>, w: string)
    requires !IsKey(d, w)
    ensures Lookup(d, w) == w
  {
    if d != [] {
      assert d[0].0 != w;
      forall i | 0 <= i < |d[1..]|
        ensures d[1..][i].0 != w
      {
        assert d[1..][i] == d[i + 1];
      }
      LookupOther(d[1..], w);
    }
  }

  /** A dictionary looks up the same in every order of its entries. */
  lemma LookupPermuted(d: seq<Entry>, e: seq<Entry>, w: string)
    requires DistinctKeys(d) && DistinctKeys(e) && multiset(d) == multiset(e)
    ensures Lookup(d, w) == Lookup(e, w)
  {
    if IsKey(d, w) {
      var i :| 0 <= i < |d| && d[i].0 == w;
      assert d[i] in multiset(e);
      var j :| 0 <= j < |e| && e[j] == d[i];
      LookupKey(d, i);
      LookupKey(e, j);
    } else {
      forall j | 0 <= j < |e|
        ensures e[j].0 != w
      {
        assert e[j] in multiset(d);
      }
      LookupOther(d, w);
      LookupOther(e, w);
    }
  }

  // ---------------------------------------------------------------------------------------------
  // Whole-word substitution (types and variables)
  // ---------------------------------------------------------------------------------------------

  /** One call of `re.sub` for the pattern `\bold\b`. */
  function SubstituteWord(code: Code, old_: string, new_: string): (r: Code)
    ensures |r| == |code|
    ensures forall k :: 0 <= k < |code| ==> r[k] == if code[k] == Word(old_) then Word(new_) else code[k]
  {
    seq(|code|, k requires 0 <= k < |code| => if code[k] == Word(old_) then Word(new_) else code[k])
  }

  /** One call per entry, in the given order. */
  function Repeated(code: Code, order: seq<Entry>): Code
    decreases |order|
  {
    if order == [] then code else Repeated(SubstituteWord(code, order[0].0, order[0].1), order[1..])
  }

  function RenameToken(t: Token, d: seq<Entry>): Token {
    if t.Word? then Word(Lookup(d, t.name)) else t
  }

  /** All words at once. */
  function Rename(code: Code, d: seq<Entry>): (r: Code)
    ensures |r| == |code|
    ensures forall k :: 0 <= k < |code| ==> r[k] == RenameToken(code[k], d)
  {
    seq(|code|, k requires 0 <= k < |code| => RenameToken(code[k], d))
  }

  /** What repeated substitution makes of one word. */
  function Chain(w: string, order: seq<Entry>): string
    decreases |order|
  {
    if order == [] then w else Chain(if w == order[0].0 then order[0].1 else w, order[1..])
  }

  lemma {:induction false} RepeatedIsChain(code: Code, order: seq<Entry>)
    ensures |Repeated(code, order)| == |code|
    ensures forall k :: 0 <= k < |code| ==>
      Repeated(code, order)[k] == if code[k].Word? then Word(Chain(code[k].name, order)) else code[k]
    decreases |order|
  {
    if order != [] {
      RepeatedIsChain(SubstituteWord(code, order[0].0, order[0].1), order[1..]);
    }
  }

  /** No entry after the one for `w` picks up the name that `w` got. */
  ghost predicate ChainStops(w: string, order: seq<Entry>) {
    forall i, j :: 0 <= i < j < |order| && order[i].0 == w ==> order[j].0 != order[i].1
  }

  lemma {:induction false} ChainOfOther(w: string, order: seq<Entry>)
    requires !IsKey(order, w)
    ensures Chain(w, order) == w
  {
    if order != [] {
      assert order[0].0 != w;
      forall i | 0 <= i < |order[1..]|
        ensures order[1..][i].0 != w
      {
        assert order[1..][i] == order[i + 1];
      }
      ChainOfOther(w, order[1..]);
    }
  }

  /** A word that is a key ends up as one of the values. */
  lemma {:induction false} ChainOfKey(w: string, order: seq<Entry>) returns (l: nat)
    requires IsKey(order, w)
    ensures l < |order| && Chain(w, order) == order[l].1
    decreases |order|
  {
    if order[0].0 == w {
      if IsKey(order[1..], order[0].1) {
        l := ChainOfKey(order[0].1, order[1..]);
        l := l + 1;
      } else {
        ChainOfOther(order[0].1, order[1..]);
        l := 0;
      }
    } else {
      var i :| 0 <= i < |order| && order[i].0 == w;
      assert order[1..][i - 1].0 == w;
      l := ChainOfKey(w, order[1..]);
      l := l + 1;
    }
  }

  lemma {:induction false} ChainIsLookupIff(w: string, order: seq<Entry>)
    requires DistinctKeys(order) && DistinctValues(order)
    ensures Chain(w, order) == Lookup(order, w) <==> ChainStops(w, order)
  {
    if order != [] {
      var rest := order[1..];
      if order[0].0 != w {
        ChainIsLookupIff(w, rest);
        assert ChainStops(w, order) ==> ChainStops(w, rest);
        forall i, j | 0 <= i < j < |order| && order[i].0 == w && ChainStops(w, rest)
          ensures order[j].0 != order[i].1
        {
          assert rest[i - 1] == order[i] && rest[j - 1] == order[j];
        }
      } else if IsKey(rest, order[0].1) {
        var l := ChainOfKey(order[0].1, rest);
        assert rest[l] == order[l + 1];
        var j :| 0 <= j < |rest| && rest[j].0 == order[0].1;
        assert order[j + 1].0 == order[0].1;
      } else {
        ChainOfOther(order[0].1, rest);
        forall i, j | 0 <= i < j < |order| && order[i].0 == w
          ensures order[j].0 != order[i].1
        {
          assert i == 0;
          assert rest[j - 1] == order[j];
        }
      }
    }
  }

  /**
   The exact condition: substituting entry by entry is the simultaneous renaming if and only if, for no
   word of the text, a later entry picks up the name an earlier one gave it.
   */
  lemma RepeatedIsSimultaneousIff(code: Code, order: seq<Entry>)
    requires DistinctKeys(order) && DistinctValues(order)
    ensures Repeated(code, order) == Rename(code, order)
      <==> forall k :: 0 <= k < |code| && code[k].Word? ==> ChainStops(code[k].name, order)
  {
    RepeatedIsChain(code, order);
    forall k | 0 <= k < |code| && code[k].Word?
      ensures Repeated(code, order)[k] == Rename(code, order)[k] <==> ChainStops(code[k].name, order)
    {
      ChainIsLookupIff(code[k].name, order);
    }
  }

  /** No generated name is itself to be renamed. */
  ghost predicate ValuesAreNoKeys(d: seq<Entry>) {
    forall i, j :: 0 <= i < |d| && 0 <= j < |d| ==> d[i].1 != d[j].0
  }

  /** With generated names that are no keys the order of the entries does not matter. */
  lemma AnyOrder(code: Code, d: seq<Entry>, order: seq<Entry>)
    requires DistinctKeys(d) && DistinctValues(d) && ValuesAreNoKeys(d)
    requires DistinctKeys(order) && DistinctValues(order) && multiset(order) == multiset(d)
    ensures ValuesAreNoKeys(order)
    ensures Repeated(code, order) == Rename(code, d)
  {
    forall i, j | 0 <= i < |order| && 0 <= j < |order|
      ensures order[i].1 != order[j].0
    {
      assert order[i] in multiset(d) && order[j] in multiset(d);
    }
    RepeatedIsSimultaneousIff(code, order);
    forall k | 0 <= k < |code| && code[k].Word?
      ensures Lookup(order, code[k].name) == Lookup(d, code[k].name)
    {
      LookupPermuted(order, d, code[k].name);
    }
  }

  // ---------------------------------------------------------------------------------------------
  // Undoing a renaming
  // ---------------------------------------------------------------------------------------------

  ghost predicate Occurs(code: Code, w: string) {
    Word(w) in code
  }

  lemma UndoneWordIff(d: seq<Entry>, w: string)
    requires DistinctKeys(d) && DistinctValues(d)
    ensures Lookup(Inverse(d), Lookup(d, w)) == w <==> IsKey(d, w) || !IsValue(d, w)
  {
    var e := Inverse(d);
    if IsKey(d, w) {
      var i :| 0 <= i < |d| && d[i].0 == w;
      LookupKey(d, i);
      LookupKey(e, i);
      assert e[i].0 == d[i].1;
    } else {
      LookupOther(d, w);
      if IsValue(d, w) {
        var i :| 0 <= i < |d| && d[i].1 == w;
        LookupKey(e, i);
        assert e[i].0 == w;
      } else {
        LookupOther(e, w);
      }
    }
  }

  /**
   The exact condition: mapping the generated names back gives the text again if and only if no word of it,
   other than the renamed ones, is one of the generated names.
   */
  lemma UndoneIff(code: Code, d: seq<Entry>)
    requires DistinctKeys(d) && DistinctValues(d)
    ensures Rename(Rename(code, d), Inverse(d)) == code
      <==> forall w :: Occurs(code, w) && IsValue(d, w) ==> IsKey(d, w)
  {
    var r := Rename(Rename(code, d), Inverse(d));
    forall k | 0 <= k < |code| && code[k].Word?
      ensures r[k] == code[k] <==> IsKey(d, code[k].name) || !IsValue(d, code[k].name)
    {
      UndoneWordIff(d, code[k].name);
    }
    if r == code {
      forall w | Occurs(code, w) && IsValue(d, w)
        ensures IsKey(d, w)
      {
        var k :| 0 <= k < |code| && code[k] == Word(w);
        assert r[k] == code[k];
      }
    }
    if forall w :: Occurs(code, w) && IsValue(d, w) ==> IsKey(d, w) {
      forall k | 0 <= k < |code|
        ensures r[k] == code[k]
      {
        if code[k].Word? {
          assert Occurs(code, code[k].name);
        }
      }
    }
  }

  // ---------------------------------------------------------------------------------------------
  // Calls (functions)
  // ---------------------------------------------------------------------------------------------

  /** Blanks at the front of a text. */
  function Blanks(code: Code): (n: nat)
    ensures n <= |code|
    ensures n < |code| ==> !code[n].Blank?
    ensures forall k :: 0 <= k < n ==> code[k].Blank?
  {
    if code == [] || !code[0].Blank? then 0 else 1 + Blanks(code[1..])
  }

  /** The text starts with `\s*\(`. */
  predicate CallAhead(code: Code) {
    Blanks(code) < |code| && code[Blanks(code)] == Other('(')
  }

  /** One call of `re.sub` for the pattern `\bold\s*\(`: the blanks before the parenthesis go. */
  function SubstituteCall(code: Code, old_: string, new_: string): Code {
    if code == [] then []
    else if code[0] == Word(old_) && CallAhead(code[1..]) then
      [Word(new_)] + SubstituteCall(code[1 + Blanks(code[1..])..], old_, new_)
    else [code[0]] + SubstituteCall(code[1..], old_, new_)
  }

  /** One call per entry, in the given order. */
  function RepeatedCalls(code: Code, order: seq<Entry>): Code
    decreases |order|
  {
    if order == [] then code else RepeatedCalls(SubstituteCall(code, order[0].0, order[0].1), order[1..])
  }

  /** The text starts with a call of a name in the dictionary. */
  predicate CallOfKey(code: Code, d: seq<Entry>) {
    code != [] && code[0].Word? && HasKey(d, code[0].name) && CallAhead(code[1..])
  }

  /** All called names at once. */
  function RenameCalls(code: Code, d: seq<Entry>): Code {
    if code == [] then []
    else if CallOfKey(code, d) then
      [Word(Lookup(d, code[0].name))] + RenameCalls(code[1 + Blanks(code[1..])..], d)
    else [code[0]] + RenameCalls(code[1..], d)
  }

  /** What repeated substitution of calls makes of a text. */
  function ChainCalls(code: Code, order: seq<Entry>): Code {
    if code == [] then []
    else if CallOfKey(code, order) then
      [Word(Chain(code[0].name, order))] + ChainCalls(code[1 + Blanks(code[1..])..], order)
    else [code[0]] + ChainCalls(code[1..], order)
  }

  /** The names called in a text. */
  predicate Called(code: Code, w: string) {
    code != [] && ((code[0] == Word(w) && CallAhead(code[1..])) || Called(code[1..], w))
  }

  predicate HasKey(d: seq<Entry>, w: string)
    ensures HasKey(d, w) <==> IsKey(d, w)
  {
    exists i :: 0 <= i < |d| && d[i].0 == w
  }

  /** The text without the blanks between a called name and its parenthesis. */
  function Squeeze(code: Code): Code {
    if code == [] then []
    else if code[0].Word? && CallAhead(code[1..]) then [code[0]] + Squeeze(code[1 + Blanks(code[1..])..])
    else [code[0]] + Squeeze(code[1..])
  }

  /** The same, for the names of one dictionary only. */
  function SqueezeKeys(code: Code, d: seq<Entry>): Code {
    if code == [] then []
    else if CallOfKey(code, d) then
      [code[0]] + SqueezeKeys(code[1 + Blanks(code[1..])..], d)
    else [code[0]] + SqueezeKeys(code[1..], d)
  }

  /** A substitution of calls leaves the front of the text as it is up to the names. */
  lemma {:induction false} FrontAfterChainCalls(code: Code, d: seq<Entry>)
    ensures Blanks(ChainCalls(code, d)) == Blanks(code)
    ensures CallAhead(ChainCalls(code, d)) == CallAhead(code)
    ensures ChainCalls(code, d)[Blanks(code)..] == ChainCalls(code[Blanks(code)..], d)
  {
    if code != [] && code[0].Blank? {
      FrontAfterChainCalls(code[1..], d);
      var r := ChainCalls(code, d);
      assert r[1..] == ChainCalls(code[1..], d);
      assert r[1 + Blanks(code[1..])..] == r[1..][Blanks(code[1..])..];
      assert code[1 + Blanks(code[1..])..] == code[1..][Blanks(code[1..])..];
    } else {
      assert code[0..] == code;
    }
  }

  lemma HasKeyOfAppend(d: seq<Entry>, e: Entry, w: string)
    ensures HasKey(d + [e], w) <==> HasKey(d, w) || e.0 == w
  {
    if HasKey(d, w) {
      var i :| 0 <= i < |d| && d[i].0 == w;
      assert (d + [e])[i].0 == w;
    }
    if e.0 == w {
      assert (d + [e])[|d|].0 == w;
    }
  }

  lemma {:induction false} ChainOfAppend(w: string, d: seq<Entry>, e: Entry)
    ensures Chain(w, d + [e]) == if Chain(w, d) == e.0 then e.1 else Chain(w, d)
    decreases |d|
  {
    if d == [] {
      assert d + [e] == [e];
      assert [e][1..] == [];
    } else {
      assert (d + [e])[1..] == d[1..] + [e];
      ChainOfAppend(if w == d[0].0 then d[0].1 else w, d[1..], e);
    }
  }

  lemma SubstituteCallTail(r: Code, old_: string, new_: string)
    requires r != []
    ensures !(r[0] == Word(old_) && CallAhead(r[1..])) ==>
      SubstituteCall(r, old_, new_) == [r[0]] + SubstituteCall(r[1..], old_, new_)
    ensures r[0] == Word(old_) && CallAhead(r[1..]) ==>
      SubstituteCall(r, old_, new_) == [Word(new_)] + SubstituteCall(r[1..][Blanks(r[1..])..], old_, new_)
  {
    hide CallAhead, Blanks;
    assert r[1 + Blanks(r[1..])..] == r[1..][Blanks(r[1..])..];
  }

  /** One more substitution of calls extends the chain. */
  lemma {:induction false} OneMoreCallEntry(code: Code, d: seq<Entry>, e: Entry)
    ensures SubstituteCall(ChainCalls(code, d), e.0, e.1) == ChainCalls(code, d + [e])
    decreases |code|
  {
    if code != [] {
      var r := ChainCalls(code, d);
      FrontAfterChainCalls(code[1..], d);
      SubstituteCallTail(r, e.0, e.1);
      OneMoreCallEntry(code[1..], d, e);
      if code[0].Word? && CallAhead(code[1..]) {
        OneMoreCall(code, d, e);
      } else {
        assert r[1..] == ChainCalls(code[1..], d);
      }
    }
  }

  lemma {:induction false} OneMoreCall(code: Code, d: seq<Entry>, e: Entry)
    requires code != [] && code[0].Word? && CallAhead(code[1..])
    ensures SubstituteCall(ChainCalls(code, d), e.0, e.1) == ChainCalls(code, d + [e])
    decreases |code|, 0
  {
    var w, r, tail := code[0].name, ChainCalls(code, d), code[1 + Blanks(code[1..])..];
    HasKeyOfAppend(d, e, w);
    ChainOfAppend(w, d, e);
    SubstituteCallTail(r, e.0, e.1);
    OneMoreCallEntry(tail, d, e);
    assert tail[0] == Other('(');
    if HasKey(d, w) {
      assert r[1..] == ChainCalls(tail, d);
      FrontAfterChainCalls(tail, d);
      assert r[1..][0..] == r[1..];
    } else {
      ChainOfOther(w, d);
      FrontAfterChainCalls(code[1..], d);
      OneMoreCallEntry(code[1..], d, e);
      assert r[1..] == ChainCalls(code[1..], d);
      assert tail == code[1..][Blanks(code[1..])..];
    }
  }

  lemma {:induction false} ChainCallsByNothing(code: Code)
    ensures ChainCalls(code, []) == code
  {
    if code != [] {
      ChainCallsByNothing(code[1..]);
    }
  }

  lemma {:induction false} RepeatedCallsFrom(code: Code, order: seq<Entry>, n: nat)
    requires n <= |order|
    ensures RepeatedCalls(ChainCalls(code, order[..n]), order[n..]) == ChainCalls(code, order)
    decreases |order| - n
  {
    if n == |order| {
      assert order[..n] == order;
    } else {
      OneMoreCallEntry(code, order[..n], order[n]);
      assert order[..n] + [order[n]] == order[..n + 1];
      assert order[n..][1..] == order[n + 1..];
      RepeatedCallsFrom(code, order, n + 1);
    }
  }

  /** Word by word, the simultaneous renaming of calls agrees with the chains exactly where they stop. */
  lemma {:induction false} ChainCallsIsRenameCallsIff(code: Code, order: seq<Entry>)
    requires DistinctKeys(order) && DistinctValues(order)
    ensures ChainCalls(code, order) == RenameCalls(code, order)
      <==> forall w :: Called(code, w) ==> ChainStops(w, order)
    decreases |code|
  {
    if code != [] {
      var r, s := ChainCalls(code, order), RenameCalls(code, order);
      var isCall := code[0].Word? && CallAhead(code[1..]);
      var tail := if CallOfKey(code, order) then code[1 + Blanks(code[1..])..] else code[1..];
      ChainCallsIsRenameCallsIff(tail, order);
      assert r == [r[0]] + ChainCalls(tail, order) && s == [s[0]] + RenameCalls(tail, order);
      assert r[1..] == ChainCalls(tail, order) && s[1..] == RenameCalls(tail, order);
      assert r == s <==> r[0] == s[0] && ChainCalls(tail, order) == RenameCalls(tail, order);
      forall w
        ensures Called(code, w) <==> (isCall && code[0] == Word(w)) || Called(tail, w)
      {
        CalledSkipsBlanks(code[1..], w);
      }
      if isCall {
        var w := code[0].name;
        assert Called(code, w);
        ChainIsLookupIff(w, order);
        if !HasKey(order, w) {
          LookupOther(order, w);
          ChainOfOther(w, order);
        }
      }
    }
  }

  lemma {:induction false} CalledSkipsBlanks(code: Code, w: string)
    ensures Called(code, w) <==> Called(code[Blanks(code)..], w)
  {
    if code != [] && code[0].Blank? {
      CalledSkipsBlanks(code[1..], w);
      assert code[1 + Blanks(code[1..])..] == code[1..][Blanks(code[1..])..];
    } else {
      assert code[0..] == code;
    }
  }

  /** The exact condition for the function pass, as for whole words but over the called names. */
  lemma RepeatedCallsIsSimultaneousIff(code: Code, order: seq<Entry>)
    requires DistinctKeys(order) && DistinctValues(order)
    ensures RepeatedCalls(code, order) == RenameCalls(code, order)
      <==> forall w :: Called(code, w) ==> ChainStops(w, order)
  {
    ChainCallsByNothing(code);
    RepeatedCallsFrom(code, order, 0);
    assert order[..0] == [] && order[0..] == order;
    ChainCallsIsRenameCallsIff(code, order);
  }

  /** With generated names that are no keys the order of the entries does not matter for calls either. */
  lemma AnyOrderOfCalls(code: Code, d: seq<Entry>, order: seq<Entry>)
    requires DistinctKeys(d) && DistinctValues(d) && ValuesAreNoKeys(d)
    requires DistinctKeys(order) && DistinctValues(order) && multiset(order) == multiset(d)
    ensures RepeatedCalls(code, order) == RenameCalls(code, d)
  {
    AnyOrder(code, d, order);
    RepeatedCallsIsSimultaneousIff(code, order);
    RenameCallsPermuted(code, order, d);
  }

  lemma {:induction false} RenameCallsPermuted(code: Code, d: seq<Entry>, e: seq<Entry>)
    requires DistinctKeys(d) && DistinctKeys(e) && multiset(d) == multiset(e)
    ensures RenameCalls(code, d) == RenameCalls(code, e)
    decreases |code|
  {
    if code != [] {
      RenameCallsPermuted(code[1..], d, e);
      RenameCallsPermuted(code[1 + Blanks(code[1..])..], d, e);
      if code[0].Word? {
        LookupPermuted(d, e, code[0].name);
        KeysPermuted(d, e, code[0].name);
      }
    }
  }

  lemma KeysPermuted(d: seq<Entry>, e: seq<Entry>, w: string)
    requires multiset(d) == multiset(e)
    ensures HasKey(d, w) <==> HasKey(e, w)
  {
    if HasKey(d, w) {
      var i :| 0 <= i < |d| && d[i].0 == w;
      assert d[i] in multiset(e);
    }
    if HasKey(e, w) {
      var i :| 0 <= i < |e| && e[i].0 == w;
      assert e[i] in multiset(d);
    }
  }

  lemma {:induction false} LookupIsValue(d: seq<Entry>, w: string)
    requires HasKey(d, w)
    ensures IsValue(d, Lookup(d, w))
  {
    if d[0].0 != w {
      var i :| 0 <= i < |d| && d[i].0 == w;
      assert d[1..][i - 1].0 == w;
      LookupIsValue(d[1..], w);
      var j :| 0 <= j < |d[1..]| && d[1..][j].1 == Lookup(d, w);
      assert d[j + 1].1 == Lookup(d, w);
    }
  }

  // ---------------------------------------------------------------------------------------------
  // Undoing the function pass
  // ---------------------------------------------------------------------------------------------

  lemma RenameOfCons(x: Token, code: Code, d: seq<Entry>)
    ensures Rename([x] + code, d) == [RenameToken(x, d)] + Rename(code, d)
  {}

  lemma RenameTail(code: Code, n: nat, d: seq<Entry>)
    requires n <= |code|
    ensures Rename(code, d)[n..] == Rename(code[n..], d)
  {}

  /** A called key is restored by its inverse; a word that is no generated name is left alone by it. */
  lemma TokenUndone(x: Token, d: seq<Entry>)
    requires DistinctKeys(d) && DistinctValues(d)
    requires x.Word? ==> !IsValue(d, x.name)
    ensures RenameToken(RenameToken(x, d), Inverse(d)) == x && RenameToken(x, Inverse(d)) == x
  {
    if x.Word? {
      UndoneWordIff(d, x.name);
      forall i | 0 <= i < |d|
        ensures Inverse(d)[i].0 != x.name
      {}
      LookupOther(Inverse(d), x.name);
    }
  }

  /** Mapping generated function names back gives the text without the blanks the pass has removed. */
  lemma {:induction false} CallsUndone(code: Code, d: seq<Entry>)
    requires DistinctKeys(d) && DistinctValues(d)
    requires forall k :: 0 <= k < |code| && code[k].Word? ==> !IsValue(d, code[k].name)
    ensures Rename(RenameCalls(code, d), Inverse(d)) == SqueezeKeys(code, d)
    decreases |code|
  {
    if code != [] {
      var tail := if CallOfKey(code, d) then code[1 + Blanks(code[1..])..] else code[1..];
      TokenUndone(code[0], d);
      CallsUndone(tail, d);
      RenameOfCons(if CallOfKey(code, d) then RenameToken(code[0], d) else code[0], RenameCalls(tail, d), Inverse(d));
    }
  }

  lemma SqueezeCall(code: Code)
    requires code != [] && code[0].Word? && CallAhead(code[1..])
    ensures Squeeze(code) == [code[0]] + Squeeze(code[1 + Blanks(code[1..])..])
  {
    hide CallAhead, Blanks;
  }

  lemma SqueezeKeysStep(code: Code, d: seq<Entry>)
    requires code != []
    ensures SqueezeKeys(code, d)
      == [code[0]] + SqueezeKeys(if CallOfKey(code, d) then code[1 + Blanks(code[1..])..] else code[1..], d)
  {
    hide CallOfKey, Blanks;
  }

  lemma ParenthesisAhead(code: Code, d: seq<Entry>)
    requires code != [] && code[0] == Other('(')
    ensures Blanks(SqueezeKeys(code, d)) == 0 && CallAhead(SqueezeKeys(code, d))
  {
    CallAheadAfterSqueezeKeys(code, d);
  }

  /** A call of a key: name and parenthesis are side by side afterwards. */
  lemma SqueezeOfKeyCall(code: Code, d: seq<Entry>)
    requires code != [] && CallOfKey(code, d)
    ensures var tail := code[1 + Blanks(code[1..])..];
      Squeeze(SqueezeKeys(code, d)) == [code[0]] + Squeeze(SqueezeKeys(tail, d)) && Squeeze(code) == [code[0]] + Squeeze(tail)
  {
    hide Squeeze, SqueezeKeys, Blanks;
    var r, tail := SqueezeKeys(code, d), code[1 + Blanks(code[1..])..];
    SqueezeKeysStep(code, d);
    assert r[1..] == SqueezeKeys(tail, d) && tail[0] == Other('(');
    ParenthesisAhead(tail, d);
    SqueezeCall(r);
    assert r[1 + 0..] == r[1..];
    SqueezeCall(code);
  }

  /** A call of another name: its blanks are still there afterwards. */
  lemma SqueezeOfOtherCall(code: Code, d: seq<Entry>)
    requires code != [] && code[0].Word? && CallAhead(code[1..]) && !CallOfKey(code, d)
    ensures var tail := code[1 + Blanks(code[1..])..];
      Squeeze(SqueezeKeys(code, d)) == [code[0]] + Squeeze(SqueezeKeys(tail, d)) && Squeeze(code) == [code[0]] + Squeeze(tail)
  {
    hide Squeeze, SqueezeKeys, Blanks, CallAhead, CallOfKey;
    var r, n := SqueezeKeys(code, d), Blanks(code[1..]);
    SqueezeKeysStep(code, d);
    CallAheadAfterSqueezeKeys(code[1..], d);
    assert r[1..] == SqueezeKeys(code[1..], d);
    SqueezeCall(r);
    SqueezeCall(code);
    assert r[1 + n..] == r[1..][n..] && code[1 + n..] == code[1..][n..];
  }

  lemma SqueezeNoCall(code: Code)
    requires code != [] && !(code[0].Word? && CallAhead(code[1..]))
    ensures Squeeze(code) == [code[0]] + Squeeze(code[1..])
  {
    hide CallAhead, Blanks;
  }

  lemma SqueezeOfNoCall(code: Code, d: seq<Entry>)
    requires code != [] && !CallOfKey(code, d) && !(code[0].Word? && CallAhead(code[1..]))
    ensures Squeeze(SqueezeKeys(code, d)) == [code[0]] + Squeeze(SqueezeKeys(code[1..], d))
    ensures Squeeze(code) == [code[0]] + Squeeze(code[1..])
  {
    hide Squeeze, SqueezeKeys, Blanks, CallAhead, CallOfKey;
    var r := SqueezeKeys(code, d);
    SqueezeKeysStep(code, d);
    CallAheadAfterSqueezeKeys(code[1..], d);
    assert r[1..] == SqueezeKeys(code[1..], d);
    SqueezeNoCall(r);
    SqueezeNoCall(code);
  }

  /** Squeezing forgets the blanks of some names first. */
  lemma {:induction false} SqueezeOfSqueezeKeys(code: Code, d: seq<Entry>)
    ensures Squeeze(SqueezeKeys(code, d)) == Squeeze(code)
    decreases |code|
  {
    hide Squeeze, SqueezeKeys, Blanks, CallAhead, CallOfKey;
    if code == [] {
      SqueezeOfNothing(code, d);
    } else if CallOfKey(code, d) {
      SqueezeOfKeyCall(code, d);
      SqueezeOfSqueezeKeys(code[1 + Blanks(code[1..])..], d);
    } else if code[0].Word? && CallAhead(code[1..]) {
      SqueezeOfOtherCall(code, d);
      SqueezeOfSqueezeKeys(code[1 + Blanks(code[1..])..], d);
    } else {
      SqueezeOfNoCall(code, d);
      SqueezeOfSqueezeKeys(code[1..], d);
    }
  }

  lemma SqueezeOfNothing(code: Code, d: seq<Entry>)
    requires code == []
    ensures Squeeze(SqueezeKeys(code, d)) == Squeeze(code)
  {}

  lemma {:induction false} CallAheadAfterSqueezeKeys(code: Code, d: seq<Entry>)
    ensures Blanks(SqueezeKeys(code, d)) == Blanks(code)
    ensures CallAhead(SqueezeKeys(code, d)) == CallAhead(code)
    ensures SqueezeKeys(code, d)[Blanks(code)..] == SqueezeKeys(code[Blanks(code)..], d)
  {
    if code != [] && code[0].Blank? {
      CallAheadAfterSqueezeKeys(code[1..], d);
      var r := SqueezeKeys(code, d);
      assert r[1..] == SqueezeKeys(code[1..], d);
      assert r[1 + Blanks(code[1..])..] == r[1..][Blanks(code[1..])..];
      assert code[1 + Blanks(code[1..])..] == code[1..][Blanks(code[1..])..];
    } else {
      assert code[0..] == code;
    }
  }

  lemma {:induction false} CallAheadAfterRename(code: Code, d: seq<Entry>)
    ensures Blanks(Rename(code, d)) == Blanks(code)
    ensures CallAhead(Rename(code, d)) == CallAhead(code)
  {
    if code != [] && code[0].Blank? {
      CallAheadAfterRename(code[1..], d);
      RenameTail(code, 1, d);
    }
  }

  /** Squeezing and renaming commute. */
  lemma {:induction false} SqueezeOfRename(code: Code, d: seq<Entry>)
    ensures Squeeze(Rename(code, d)) == Rename(Squeeze(code), d)
    decreases |code|
  {
    if code != [] {
      var r := Rename(code, d);
      RenameTail(code, 1, d);
      CallAheadAfterRename(code[1..], d);
      var step := if code[0].Word? && CallAhead(code[1..]) then 1 + Blanks(code[1..]) else 1;
      RenameTail(code, step, d);
      SqueezeOfRename(code[step..], d);
      RenameOfCons(code[0], Squeeze(code[step..]), d);
      assert Squeeze(code) == [code[0]] + Squeeze(code[step..]);
    }
  }

  /** A text without blanks before parentheses is not changed by squeezing some names. */
  lemma {:induction false} SqueezedStays(code: Code, d: seq<Entry>)
    requires Squeeze(code) == code
    ensures SqueezeKeys(code, d) == code
    decreases |code|
  {
    if code != [] {
      SqueezeShorter(code[1..]);
      var n := Blanks(code[1..]);
      if code[0].Word? && CallAhead(code[1..]) {
        SqueezeShorter(code[1 + n..]);
        assert n == 0;
        assert code[1 + n..] == code[1..];
      }
      assert Squeeze(code) == [code[0]] + Squeeze(code[1..]);
      assert Squeeze(code)[1..] == code[1..];
      SqueezedStays(code[1..], d);
    }
  }

  /** No call of a key has blanks before its parenthesis. */
  predicate Gapless(code: Code, d: seq<Entry>) {
    forall k :: 0 <= k < |code| && CallOfKey(code[k..], d) ==> Blanks(code[k + 1..]) == 0
  }

  lemma GaplessStep(code: Code, d: seq<Entry>)
    requires code != []
    ensures Gapless(code, d) <==> (CallOfKey(code, d) ==> Blanks(code[1..]) == 0) && Gapless(code[1..], d)
  {
    assert code[0..] == code && code[0 + 1..] == code[1..];
    if Gapless(code, d) {
      forall k | 0 <= k < |code| - 1 && CallOfKey(code[1..][k..], d)
        ensures Blanks(code[1..][k + 1..]) == 0
      {
        assert code[1..][k..] == code[k + 1..] && code[1..][k + 1..] == code[k + 1 + 1..];
        assert CallOfKey(code[k + 1..], d);
      }
    }
    if (CallOfKey(code, d) ==> Blanks(code[1..]) == 0) && Gapless(code[1..], d) {
      forall k | 0 <= k < |code| && CallOfKey(code[k..], d)
        ensures Blanks(code[k + 1..]) == 0
      {
        if k > 0 {
          assert code[1..][k - 1..] == code[k..] && code[1..][k - 1 + 1..] == code[k + 1..];
          assert CallOfKey(code[1..][k - 1..], d);
        }
      }
    }
  }

  /** Squeezing shortens a text unless no call of a key has blanks to lose. */
  lemma {:induction false} SqueezeKeysIff(code: Code, d: seq<Entry>)
    ensures |SqueezeKeys(code, d)| <= |code|
    ensures |SqueezeKeys(code, d)| == |code| <==> Gapless(code, d)
    ensures Gapless(code, d) ==> SqueezeKeys(code, d) == code
    decreases |code|
  {
    if code != [] {
      hide Gapless;
      GaplessStep(code, d);
      if CallOfKey(code, d) {
        var n := Blanks(code[1..]);
        SqueezeKeysIff(code[1 + n..], d);
        assert n == 0 ==> code[1 + n..] == code[1..];
      } else {
        SqueezeKeysIff(code[1..], d);
      }
    }
  }

  lemma {:induction false} SqueezeShorter(code: Code)
    ensures |Squeeze(code)| <= |code|
    decreases |code|
  {
    if code != [] {
      SqueezeShorter(code[1 + Blanks(code[1..])..]);
      SqueezeShorter(code[1..]);
    }
  }

  // ---------------------------------------------------------------------------------------------
  // The three passes
  // ---------------------------------------------------------------------------------------------

  function Passes(code: Code, types: seq<Entry>, functions: seq<Entry>, variables: seq<Entry>): Code {
    Rename(RenameCalls(Rename(code, types), functions), variables)
  }

  function Undo(code: Code, types: seq<Entry>, functions: seq<Entry>, variables: seq<Entry>): Code {
    Rename(Rename(Rename(code, Inverse(variables)), Inverse(functions)), Inverse(types))
  }

  lemma OccursAfterRename(code: Code, d: seq<Entry>, w: string)
    requires Occurs(Rename(code, d), w)
    ensures Occurs(code, w) || IsValue(d, w)
  {
    var k :| 0 <= k < |code| && Rename(code, d)[k] == Word(w);
    var v := code[k].name;
    if HasKey(d, v) {
      LookupIsValue(d, v);
    } else {
      LookupOther(d, v);
      assert Occurs(code, w);
    }
  }

  lemma {:induction false} OccursAfterRenameCalls(code: Code, d: seq<Entry>, w: string)
    requires Occurs(RenameCalls(code, d), w)
    ensures Occurs(code, w) || IsValue(d, w)
    decreases |code|
  {
    var r := RenameCalls(code, d);
    var renamed := CallOfKey(code, d);
    var tail := if renamed then code[1 + Blanks(code[1..])..] else code[1..];
    assert r == [r[0]] + RenameCalls(tail, d);
    if r[0] == Word(w) {
      if renamed {
        LookupIsValue(d, code[0].name);
      } else {
        assert code[0] == Word(w);
      }
    } else {
      assert Word(w) in RenameCalls(tail, d);
      OccursAfterRenameCalls(tail, d, w);
    }
  }

  /** The generated names of all three passes are distinct, and none of them occurs in the source. */
  ghost predicate FreshNames(code: Code, types: seq<Entry>, functions: seq<Entry>, variables: seq<Entry>) {
    && DistinctValues(types + functions + variables)
    && forall w :: IsValue(types + functions + variables, w) ==> !Occurs(code, w)
  }

  lemma FreshPerPass(code: Code, types: seq<Entry>, functions: seq<Entry>, variables: seq<Entry>, w: string)
    requires FreshNames(code, types, functions, variables)
    ensures DistinctValues(types) && DistinctValues(functions) && DistinctValues(variables)
    ensures IsValue(types, w) || IsValue(functions, w) || IsValue(variables, w) ==> !Occurs(code, w)
    ensures IsValue(types, w) ==> !IsValue(functions, w) && !IsValue(variables, w)
    ensures IsValue(functions, w) ==> !IsValue(variables, w)
  {
    var all := types + functions + variables;
    var m, n := |types|, |types| + |functions|;
    assert forall i :: 0 <= i < m ==> all[i] == types[i];
    assert forall i :: 0 <= i < |functions| ==> all[m + i] == functions[i];
    assert forall i :: 0 <= i < |variables| ==> all[n + i] == variables[i];
  }

  /**
   The three passes are undone by mapping the generated names back, pass by pass in reverse: up to blanks
   before parentheses for every text, and exactly if and only if no call that the function pass renames has any.
   */
  lemma PassesUndone(code: Code, types: seq<Entry>, functions: seq<Entry>, variables: seq<Entry>)
    requires DistinctKeys(types) && DistinctKeys(functions) && DistinctKeys(variables)
    requires FreshNames(code, types, functions, variables)
    ensures var back := Undo(Passes(code, types, functions, variables), types, functions, variables);
      Squeeze(back) == Squeeze(code) && (back == code <==> Gapless(Rename(code, types), functions))
  {
    hide Gapless;
    var t := Rename(code, types);
    var f := RenameCalls(t, functions);
    forall w | Occurs(t, w)
      ensures !IsValue(functions, w) && !IsValue(variables, w)
    {
      OccursAfterRename(code, types, w);
      FreshPerPass(code, types, functions, variables, w);
    }
    forall w | Occurs(f, w)
      ensures !IsValue(variables, w)
    {
      OccursAfterRenameCalls(t, functions, w);
      FreshPerPass(code, types, functions, variables, w);
    }
    forall w | Occurs(code, w)
      ensures !IsValue(types, w)
    {
      FreshPerPass(code, types, functions, variables, w);
    }
    FreshPerPass(code, types, functions, variables, "");
    UndoneIff(f, variables);
    forall k | 0 <= k < |t| && t[k].Word?
      ensures !IsValue(functions, t[k].name)
    {
      assert Occurs(t, t[k].name);
    }
    CallsUndone(t, functions);
    UndoneIff(code, types);
    var s := SqueezeKeys(t, functions);
    SqueezeOfSqueezeKeys(t, functions);
    SqueezeOfRename(s, Inverse(types));
    SqueezeOfRename(t, Inverse(types));
    SqueezeKeysIff(t, functions);
  }

  /** A text without any blanks before parentheses is one that comes back exactly. */
  lemma SqueezedIsGapless(code: Code, types: seq<Entry>, functions: seq<Entry>)
    requires Squeeze(code) == code
    ensures Gapless(Rename(code, types), functions)
  {
    SqueezeOfRename(code, types);
    SqueezedStays(Rename(code, types), functions);
    SqueezeKeysIff(Rename(code, types), functions);
  }
}
