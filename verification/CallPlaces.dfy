/**
 The function pass described place by place: which words of a text are calls, which blanks go, and what stands where
 afterwards, in terms of the tokens alone.
 */
module CallPlaces {
  import opened Renaming

  /** Some blanks, also none, and an opening parenthesis follow place `k`. */
  ghost predicate Opens(code: Code, k: nat) {
    exists p: nat :: k < p < |code| && AllBlank(code, k + 1, p) && code[p] == Other('(')
  }

  predicate AllBlank(code: Code, from: nat, to: nat)
    requires from <= to <= |code|
  {
    forall j :: from <= j < to ==> code[j].Blank?
  }

  /** A word of `names` is called at place `k`. */
  ghost predicate CallAt(code: Code, names: iset<string>, k: nat) {
    k < |code| && code[k].Word? && code[k].name in names && Opens(code, k)
  }

  /** A blank between a called word of `names` and its parenthesis. */
  ghost predicate GapAt(code: Code, names: iset<string>, j: nat) {
    exists k: nat :: k < j < |code| && CallAt(code, names, k) && AllBlank(code, k + 1, j + 1)
  }

  /** The text from place `k` on, with the gaps left out and called words of `names` renamed. */
  ghost function Picked(code: Code, names: iset<string>, f: string -> string, k: nat): Code
    requires k <= |code|
    decreases |code| - k
  {
    if k == |code| then []
    else if GapAt(code, names, k) then Picked(code, names, f, k + 1)
    else [if CallAt(code, names, k) then Word(f(code[k].name)) else code[k]] + Picked(code, names, f, k + 1)
  }

  lemma {:induction false} BlanksAre(code: Code, n: nat)
    requires n < |code| && AllBlank(code, 0, n) && !code[n].Blank?
    ensures Blanks(code) == n
  {
    if n > 0 {
      BlanksAre(code[1..], n - 1);
    }
  }

  lemma OpensIff(code: Code, k: nat)
    requires k < |code|
    ensures CallAhead(code[k + 1..]) <==> Opens(code, k)
    ensures var n := Blanks(code[k + 1..]); AllBlank(code, k + 1, k + 1 + n)
  {
    var rest := code[k + 1..];
    var n := Blanks(rest);
    assert forall j :: 0 <= j < |rest| ==> rest[j] == code[k + 1 + j];
    assert forall j :: k + 1 <= j < k + 1 + n ==> code[j] == rest[j - k - 1];
    if Opens(code, k) {
      var p: nat :| k < p < |code| && AllBlank(code, k + 1, p) && code[p] == Other('(');
      assert rest[p - k - 1] == Other('(');
      BlanksAre(rest, p - k - 1);
    }
    if CallAhead(rest) {
      assert AllBlank(code, k + 1, k + 1 + n) && code[k + 1 + n] == rest[n];
    }
  }

  /** After a called word its blanks are left out. */
  lemma {:induction false} GapsGo(code: Code, names: iset<string>, f: string -> string, k: nat, n: nat)
    requires k < |code| && k + 1 + n <= |code| && CallAt(code, names, k) && AllBlank(code, k + 1, k + 1 + n)
    ensures Picked(code, names, f, k + 1) == Picked(code, names, f, k + 1 + n)
    decreases n
  {
    hide CallAt;
    if n > 0 {
      GapsGo(code, names, f, k, n - 1);
      assert AllBlank(code, k + 1, k + n + 1) && k < k + n < |code|;
      assert GapAt(code, names, k + n);
    }
  }

  /** A place that is no gap and no call is not followed by a gap. */
  lemma NoGapAfter(code: Code, names: iset<string>, k: nat)
    requires k < |code| && !GapAt(code, names, k) && !CallAt(code, names, k)
    ensures !GapAt(code, names, k + 1)
  {
    forall i: nat | i < k + 1 < |code| && CallAt(code, names, i)
      ensures !AllBlank(code, i + 1, k + 2)
    {
      if i < k {
        assert !AllBlank(code, i + 1, k + 1);
      }
    }
  }

  lemma NoGapAtOther(code: Code, names: iset<string>, k: nat)
    requires k < |code| && !code[k].Blank?
    ensures !GapAt(code, names, k)
  {}

  function Step(code: Code, k: nat): nat
    requires k < |code|
  {
    k + 1 + Blanks(code[k + 1..])
  }

  /** One step of the pass: after a call it goes on at the parenthesis, after anything else at the next place. */
  lemma PickedStep(code: Code, names: iset<string>, f: string -> string, k: nat)
    requires k < |code| && !GapAt(code, names, k)
    ensures var call := code[k].Word? && code[k].name in names && CallAhead(code[k + 1..]);
      var next := if call then Step(code, k) else k + 1;
      && k < next <= |code| && !GapAt(code, names, next)
      && Picked(code, names, f, k) == [if call then Word(f(code[k].name)) else code[k]] + Picked(code, names, f, next)
  {
    hide Blanks, GapAt;
    OpensIff(code, k);
    if CallAt(code, names, k) {
      var n := Blanks(code[k + 1..]);
      assert code[k + 1..][n] == code[k + 1 + n];
      GapsGo(code, names, f, k, n);
      NoGapAtOther(code, names, k + 1 + n);
    } else {
      NoGapAfter(code, names, k);
    }
  }

  lemma NoGapAtEnds(code: Code, names: iset<string>)
    ensures !GapAt(code, names, 0) && !GapAt(code, names, |code|)
  {}

  lemma SuffixStep(code: Code, k: nat)
    requires k < |code|
    ensures code[k..][1..] == code[k + 1..] && code[k..][1 + Blanks(code[k + 1..])..] == code[Step(code, k)..]
  {}

  ghost function AllNames(): iset<string> {
    iset w: string | |w| >= 0
  }

  ghost function NamesOf(d: seq<Entry>): iset<string> {
    iset w | IsKey(d, w)
  }

  /** The function pass, place by place. */
  lemma {:induction false} RenamedFrom(code: Code, d: seq<Entry>, k: nat)
    requires k <= |code| && !GapAt(code, NamesOf(d), k)
    ensures RenameCalls(code[k..], d) == Picked(code, NamesOf(d), w => Lookup(d, w), k)
    decreases |code| - k
  {
    hide GapAt, CallAhead, Blanks;
    if k < |code| {
      var call := CallOfKey(code[k..], d);
      PickedStep(code, NamesOf(d), w => Lookup(d, w), k);
      SuffixStep(code, k);
      RenamedFrom(code, d, if call then Step(code, k) else k + 1);
    }
  }

  /**
   After the function pass every word that is a key and is followed by blanks, also none, and a parenthesis has its new
   name, the blanks between the two are gone, and everything else stands as it was.
   */
  lemma RenameCallsIsPicked(code: Code, d: seq<Entry>)
    ensures RenameCalls(code, d) == Picked(code, NamesOf(d), w => Lookup(d, w), 0)
  {
    NoGapAtEnds(code, NamesOf(d));
    RenamedFrom(code, d, 0);
    assert code[0..] == code;
  }

  lemma {:induction false} SubstituteIsRename(code: Code, old_: string, new_: string)
    ensures SubstituteCall(code, old_, new_) == RenameCalls(code, [(old_, new_)])
    decreases |code|
  {
    if code != [] {
      var d := [(old_, new_)];
      assert d[0].0 == old_;
      assert forall w :: HasKey(d, w) <==> w == old_;
      SubstituteIsRename(if CallOfKey(code, d) then code[1 + Blanks(code[1..])..] else code[1..], old_, new_);
    }
  }

  /** One substitution of the pass, place by place. */
  lemma SubstituteCallIsPicked(code: Code, old_: string, new_: string)
    ensures SubstituteCall(code, old_, new_) == Picked(code, iset{old_}, w => new_, 0)
  {
    var d := [(old_, new_)];
    SubstituteIsRename(code, old_, new_);
    RenameCallsIsPicked(code, d);
    assert d[0].0 == old_;
    assert NamesOf(d) == iset{old_};
    SamePicked(code, iset{old_}, w => Lookup(d, w), w => new_, 0);
  }

  lemma {:induction false} SamePicked(code: Code, names: iset<string>, f: string -> string, g: string -> string, k: nat)
    requires k <= |code| && forall w :: w in names ==> f(w) == g(w)
    ensures Picked(code, names, f, k) == Picked(code, names, g, k)
    decreases |code| - k
  {
    hide GapAt, Opens;
    if k < |code| {
      SamePicked(code, names, f, g, k + 1);
    }
  }

  // ---------------------------------------------------------------------------------------------
  // Squeezing
  // ---------------------------------------------------------------------------------------------

  lemma {:induction false} SqueezedFrom(code: Code, k: nat)
    requires k <= |code| && !GapAt(code, AllNames(), k)
    ensures Squeeze(code[k..]) == Picked(code, AllNames(), w => w, k)
    decreases |code| - k
  {
    hide GapAt, CallAhead, Blanks;
    if k < |code| {
      PickedStep(code, AllNames(), w => w, k);
      SuffixStep(code, k);
      SqueezedFrom(code, if code[k].Word? && CallAhead(code[k + 1..]) then Step(code, k) else k + 1);
    }
  }

  /** Squeezing leaves out the blanks between any called word and its parenthesis, and nothing else. */
  lemma SqueezeIsPicked(code: Code)
    ensures Squeeze(code) == Picked(code, AllNames(), w => w, 0)
  {
    NoGapAtEnds(code, AllNames());
    SqueezedFrom(code, 0);
    assert code[0..] == code;
  }

  /** A text has no gap if and only if no blank stands between a called key and its parenthesis. */
  lemma GaplessIff(code: Code, d: seq<Entry>)
    ensures Gapless(code, d) <==> forall j: nat :: !GapAt(code, NamesOf(d), j)
  {
    if Gapless(code, d) {
      forall j: nat
        ensures !GapAt(code, NamesOf(d), j)
      {
        GaplessHasNoGap(code, d, j);
      }
    }
    if forall j: nat :: !GapAt(code, NamesOf(d), j) {
      forall k | 0 <= k < |code| && CallOfKey(code[k..], d)
        ensures Blanks(code[k + 1..]) == 0
      {
        NoGapIsGapless(code, d, k);
      }
    }
  }

  lemma GaplessHasNoGap(code: Code, d: seq<Entry>, j: nat)
    requires Gapless(code, d)
    ensures !GapAt(code, NamesOf(d), j)
  {
    forall k: nat | k < j < |code| && CallAt(code, NamesOf(d), k)
      ensures !AllBlank(code, k + 1, j + 1)
    {
      OpensIff(code, k);
      SuffixStep(code, k);
      assert CallOfKey(code[k..], d);
      assert Blanks(code[k + 1..]) == 0;
      assert code[k + 1] == code[k + 1..][0];
    }
  }

  lemma NoGapIsGapless(code: Code, d: seq<Entry>, k: nat)
    requires k < |code| && CallOfKey(code[k..], d) && !GapAt(code, NamesOf(d), k + 1)
    ensures Blanks(code[k + 1..]) == 0
  {
    OpensIff(code, k);
    SuffixStep(code, k);
    assert CallAt(code, NamesOf(d), k);
    assert k + 1 < |code| ==> !AllBlank(code, k + 1, k + 2);
    assert k + 1 < |code| ==> code[k + 1..][0] == code[k + 1];
  }

  // ---------------------------------------------------------------------------------------------
  // Nothing is left to rename
  // ---------------------------------------------------------------------------------------------

  lemma {:induction false} FrontAfterRenameCalls(code: Code, d: seq<Entry>)
    ensures CallAhead(RenameCalls(code, d)) == CallAhead(code)
  {
    if code != [] && code[0].Blank? {
      FrontAfterRenameCalls(code[1..], d);
      assert RenameCalls(code, d)[1..] == RenameCalls(code[1..], d);
    }
  }

  lemma {:induction false} CalledIff(code: Code, w: string)
    ensures Called(code, w) <==> exists k :: 0 <= k < |code| && code[k] == Word(w) && CallAhead(code[k + 1..])
  {
    if code != [] {
      CalledIff(code[1..], w);
      assert forall k :: 0 <= k < |code[1..]| ==> code[1..][k] == code[k + 1] && code[1..][k + 1..] == code[k + 1 + 1..];
      if Called(code[1..], w) {
        var k :| 0 <= k < |code[1..]| && code[1..][k] == Word(w) && CallAhead(code[1..][k + 1..]);
        assert code[k + 1] == Word(w) && CallAhead(code[k + 1 + 1..]);
      }
      if k :| 0 <= k < |code| && code[k] == Word(w) && CallAhead(code[k + 1..]) {
        if k > 0 {
          assert code[1..][k - 1] == Word(w) && CallAhead(code[1..][k - 1 + 1..]);
        }
      }
    }
  }

  lemma {:induction false} KeysAreRenamed(code: Code, d: seq<Entry>, w: string)
    requires ValuesAreNoKeys(d) && HasKey(d, w)
    ensures !Called(RenameCalls(code, d), w)
    decreases |code|
  {
    if code != [] {
      var r := RenameCalls(code, d);
      var renamed := CallOfKey(code, d);
      var tail := if renamed then code[1 + Blanks(code[1..])..] else code[1..];
      KeysAreRenamed(tail, d, w);
      FrontAfterRenameCalls(tail, d);
      assert r[1..] == RenameCalls(tail, d);
      if renamed {
        LookupIsValue(d, code[0].name);
      }
    }
  }

  /** With new names that are no keys, no call of a key is left anywhere in the text. */
  lemma NoCallIsLeft(code: Code, d: seq<Entry>, k: nat)
    requires ValuesAreNoKeys(d)
    ensures !CallAt(RenameCalls(code, d), NamesOf(d), k)
  {
    var r := RenameCalls(code, d);
    if k < |r| && r[k].Word? && HasKey(d, r[k].name) {
      KeysAreRenamed(code, d, r[k].name);
      CalledIff(r, r[k].name);
      OpensIff(r, k);
    }
  }

  /** With new names that are no keys, no key is left as a word either after a renaming of whole words. */
  lemma NoWordIsLeft(code: Code, d: seq<Entry>, w: string)
    requires ValuesAreNoKeys(d) && HasKey(d, w)
    ensures !Occurs(Rename(code, d), w)
  {
    var r := Rename(code, d);
    forall k | 0 <= k < |code| && code[k].Word?
      ensures r[k] != Word(w)
    {
      if HasKey(d, code[k].name) {
        LookupIsValue(d, code[k].name);
      } else {
        LookupOther(d, code[k].name);
      }
    }
  }

  /** After the three passes with new names no type or variable that was renamed is left, and no call of such a function. */
  ghost predicate OldNamesGone(r: Code, types: seq<Entry>, functions: seq<Entry>, variables: seq<Entry>) {
    && (forall w :: HasKey(types, w) || HasKey(variables, w) ==> !Occurs(r, w))
    && (forall k: nat :: !CallAt(r, NamesOf(functions), k))
  }

  lemma PassesLeaveNoOldName(code: Code, types: seq<Entry>, functions: seq<Entry>, variables: seq<Entry>)
    requires ValuesAreNoKeys(types) && ValuesAreNoKeys(functions) && ValuesAreNoKeys(variables)
    requires forall w :: HasKey(types, w) ==> !IsValue(functions, w) && !IsValue(variables, w)
    requires forall w :: HasKey(functions, w) ==> !IsValue(variables, w)
    ensures OldNamesGone(Passes(code, types, functions, variables), types, functions, variables)
  {
    var t := Rename(code, types);
    var f := RenameCalls(t, functions);
    var r := Rename(f, variables);
    forall w | HasKey(types, w)
      ensures !Occurs(r, w)
    {
      NoWordIsLeft(code, types, w);
      if Occurs(r, w) {
        OccursAfterRename(f, variables, w);
        OccursAfterRenameCalls(t, functions, w);
      }
    }
    forall w | HasKey(variables, w)
      ensures !Occurs(r, w)
    {
      NoWordIsLeft(f, variables, w);
    }
    forall k: nat
      ensures !CallAt(r, NamesOf(functions), k)
    {
      NoCallIsLeft(t, functions, k);
      CallStays(f, functions, variables, k);
    }
  }

  /** Renaming the variables makes no new call of a key. */
  lemma CallStays(code: Code, functions: seq<Entry>, variables: seq<Entry>, k: nat)
    requires !CallAt(code, NamesOf(functions), k)
    requires forall w :: HasKey(functions, w) ==> !IsValue(variables, w)
    ensures !CallAt(Rename(code, variables), NamesOf(functions), k)
  {
    var r := Rename(code, variables);
    if k < |code| && code[k].Word? {
      OpensIff(code, k);
      OpensIff(r, k);
      RenameTail(code, k + 1, variables);
      CallAheadAfterRename(code[k + 1..], variables);
      if HasKey(variables, code[k].name) {
        LookupIsValue(variables, code[k].name);
      } else {
        LookupOther(variables, code[k].name);
      }
    }
  }

  /** The input `area ()`, with a blank before the parenthesis: the call is renamed, and the blank goes. */
  lemma CallWithBlank()
    ensures RenameCalls([Word("area"), Blank(' '), Other('('), Other(')')], [("area", "x9")])
      == [Word("x9"), Other('('), Other(')')]
  {
    var code, d := [Word("area"), Blank(' '), Other('('), Other(')')], [("area", "x9")];
    assert d[0].0 == "area" && HasKey(d, "area");
    assert code[1..] == [Blank(' '), Other('('), Other(')')] && code[1..][1..] == [Other('('), Other(')')];
    assert code[2..] == [Other('('), Other(')')] && code[2..][1..] == [Other(')')] && code[2..][1..][1..] == [];
  }
}
