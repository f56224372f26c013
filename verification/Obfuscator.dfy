/**
 The obfuscator's renamer with its state: the set of used names and the dictionaries for types,
 functions and variables, which only grow.
 */
module Obfuscator {
  import opened Common
  import opened Renaming
  import CallPlaces

  datatype Kind = Types | Functions | Variables

  const NO_VARIABLES := ["main", "printf", "scanf", "malloc", "free", "sizeof", "if", "for", "while"]
  const NO_FUNCTIONS := ["main", "printf", "scanf", "malloc", "free", "if", "for", "while"]

  /** The filter a collected name has to pass. */
  predicate Eligible(kind: Kind, name: string) {
    match kind
    case Types => name != ""
    case Functions => |name| > 1 && name !in NO_FUNCTIONS && !("__" <= name)
    case Variables => |name| > 1 && name !in NO_VARIABLES && !("_" <= name)
  }

  predicate StartsWithDigit(name: string) {
    name != "" && '0' <= name[0] <= '9'
  }

  function Keys(d: seq<Entry>): (r: seq<string>)
    ensures |r| == |d| && forall k :: 0 <= k < |d| ==> r[k] == d[k].0
  {
    seq(|d|, k requires 0 <= k < |d| => d[k].0)
  }

  /** The eligible names not seen before, in the order of their first occurrence. */
  function NewKeys(kind: Kind, seen: seq<string>, names: seq<string>): seq<string>
    decreases |names|
  {
    if names == [] then []
    else if Eligible(kind, names[0]) && names[0] !in seen then
      [names[0]] + NewKeys(kind, seen + [names[0]], names[1..])
    else NewKeys(kind, seen, names[1..])
  }

  /** Stable insertion of an entry into a dictionary sorted by falling length of the key. */
  function InsertByLength(e: Entry, s: seq<Entry>): seq<Entry> {
    if s == [] || |e.0| >= |s[0].0| then [e] + s else [s[0]] + InsertByLength(e, s[1..])
  }

  /** `sorted(items, key=len of the old name, reverse=True)`, which is stable. */
  function SortByLength(d: seq<Entry>): seq<Entry> {
    if d == [] then [] else InsertByLength(d[0], SortByLength(d[1..]))
  }

  ghost predicate ValuesIn(d: seq<Entry>, draws: seq<string>) {
    forall k :: 0 <= k < |d| ==> d[k].1 in draws
  }

  /** The renamed names are the eligible ones found in the text that each pass is given: types, then functions, then variables. */
  ghost predicate KeysAreFound(code: Code, find: (Kind, Code) -> seq<string>,
    types: seq<Entry>, functions: seq<Entry>, variables: seq<Entry>)
  {
    && Keys(types) == NewKeys(Types, [], find(Types, code))
    && Keys(functions) == NewKeys(Functions, [], find(Functions, Rename(code, types)))
    && Keys(variables) == NewKeys(Variables, [], find(Variables, RenameCalls(Rename(code, types), functions)))
  }

  class AdvancedObfuscator {
    var var_mapping: seq<Entry>
    var func_mapping: seq<Entry>
    var type_mapping: seq<Entry>
    var used_names: set<string>

    constructor ()
      ensures Valid()
      ensures var_mapping == [] && func_mapping == [] && type_mapping == [] && used_names == {}
    {
      var_mapping, func_mapping, type_mapping, used_names := [], [], [], {};
    }

    ghost function All(): seq<Entry>
      reads this
    {
      type_mapping + func_mapping + var_mapping
    }

    /** Generated names are distinct across the three dictionaries, and all of them are marked as used. */
    ghost predicate Valid()
      reads this
    {
      && DistinctKeys(var_mapping) && DistinctKeys(func_mapping) && DistinctKeys(type_mapping)
      && DistinctValues(All())
      && (forall k :: 0 <= k < |All()| ==> All()[k].1 in used_names && !StartsWithDigit(All()[k].1))
    }

    function Mapping(kind: Kind): seq<Entry>
      reads this
    {
      match kind case Types => type_mapping case Functions => func_mapping case Variables => var_mapping
    }

    /** `generate_complex_name`: draws until a name is new and does not start with a digit. */
    method GenerateComplexName(draws: seq<string>) returns (name: Option<string>, rest: seq<string>)
      modifies this`used_names
      ensures name.Some? ==> name.value !in old(used_names) && !StartsWithDigit(name.value)
      ensures name.Some? ==> used_names == old(used_names) + {name.value}
      ensures name.Some? ==> |rest| < |draws| && name.value == draws[|draws| - |rest| - 1] && rest == draws[|draws| - |rest|..]
      ensures name.Some? ==> forall i :: 0 <= i < |draws| - |rest| - 1 ==>
        draws[i] in old(used_names) || StartsWithDigit(draws[i])
      ensures name.None? ==> used_names == old(used_names) && rest == []
      ensures name.None? ==> forall i :: 0 <= i < |draws| ==> draws[i] in used_names || StartsWithDigit(draws[i])
    {
      var i := 0;
      while i < |draws|
        invariant 0 <= i <= |draws| && used_names == old(used_names)
        invariant forall k :: 0 <= k < i ==> draws[k] in used_names || StartsWithDigit(draws[k])
      {
        if draws[i] !in used_names && !StartsWithDigit(draws[i]) {
          used_names := used_names + {draws[i]};
          return Some(draws[i]), draws[i + 1..];
        }
        i := i + 1;
      }
      return None, [];
    }

    /** Appends one entry to the dictionary of a kind. */
    method Append(kind: Kind, entry: Entry)
      requires Valid()
      requires !HasKey(Mapping(kind), entry.0)
      requires entry.1 in used_names && !StartsWithDigit(entry.1) && !IsValue(All(), entry.1)
      modifies this`var_mapping, this`func_mapping, this`type_mapping
      ensures Valid()
      ensures Mapping(kind) == old(Mapping(kind)) + [entry]
      ensures forall other :: other != kind ==> Mapping(other) == old(Mapping(other))
    {
      OneMoreKey(Mapping(kind), entry);
      ghost var before := All();
      match kind {
        case Types =>
          assert [] + type_mapping + (func_mapping + var_mapping) == before;
          InsertedEntry([], type_mapping, func_mapping + var_mapping, entry);
          type_mapping := type_mapping + [entry];
          assert All() == [] + type_mapping + (func_mapping + var_mapping);
        case Functions =>
          InsertedEntry(type_mapping, func_mapping, var_mapping, entry);
          func_mapping := func_mapping + [entry];
        case Variables =>
          assert type_mapping + func_mapping + var_mapping + [] == before;
          InsertedEntry(type_mapping + func_mapping, var_mapping, [], entry);
          var_mapping := var_mapping + [entry];
          assert All() == type_mapping + func_mapping + var_mapping + [];
      }
    }

    /** One collected name: it gets an entry if it passes the filter and has none. */
    method CollectName(kind: Kind, name: string, draws: seq<string>) returns (ok: bool, rest: seq<string>)
      requires Valid()
      modifies this
      ensures Valid()
      ensures var was := old(Mapping(kind));
        if ok && Eligible(kind, name) && name !in Keys(was)
          then |Mapping(kind)| == |was| + 1 && Mapping(kind)[..|was|] == was
            && Mapping(kind)[|was|].0 == name && Mapping(kind)[|was|].1 in draws
          else Mapping(kind) == was
      ensures forall other :: other != kind ==> Mapping(other) == old(Mapping(other))
      ensures old(used_names) <= used_names
      ensures forall d :: d in rest ==> d in draws
    {
      KeysAreKeys(Mapping(kind), name);
      if Eligible(kind, name) && !HasKey(Mapping(kind), name) {
        var drawn;
        drawn, rest := GenerateComplexName(draws);
        if drawn.None? {
          return false, rest;
        }
        Append(kind, (name, drawn.value));
        return true, rest;
      }
      return true, draws;
    }

    /**
     The collecting half of a pass: each name found in the text that passes the filter and has no entry yet
     gets one.  It fails only when the draws run out.
     */
    method Collect(kind: Kind, names: seq<string>, draws: seq<string>) returns (ok: bool)
      requires Valid()
      modifies this
      ensures Valid()
      ensures ok ==> Keys(Mapping(kind)) == Keys(old(Mapping(kind))) + NewKeys(kind, Keys(old(Mapping(kind))), names)
      ensures forall k :: 0 <= k < |old(Mapping(kind))| ==> k < |Mapping(kind)| && Mapping(kind)[k] == old(Mapping(kind)[k])
      ensures forall k :: |old(Mapping(kind))| <= k < |Mapping(kind)| ==> Mapping(kind)[k].1 in draws
      ensures forall other :: other != kind ==> Mapping(other) == old(Mapping(other))
      ensures old(used_names) <= used_names
    {
      hide NewKeys, Eligible;
      var left := draws;
      ghost var was := Mapping(kind);
      ghost var goal := Keys(was) + NewKeys(kind, Keys(was), names);
      assert names[0..] == names;
      for i := 0 to |names|
        invariant Valid()
        invariant forall d :: d in left ==> d in draws
        invariant Keys(Mapping(kind)) + NewKeys(kind, Keys(Mapping(kind)), names[i..]) == goal
        invariant |was| <= |Mapping(kind)| && Mapping(kind)[..|was|] == was
        invariant forall k :: |was| <= k < |Mapping(kind)| ==> Mapping(kind)[k].1 in draws
        invariant forall other :: other != kind ==> Mapping(other) == old(Mapping(other))
        invariant old(used_names) <= used_names
      {
        ghost var before := Mapping(kind);
        ok, left := CollectName(kind, names[i], left);
        if !ok {
          return;
        }
        NewKeysStep(kind, before, Mapping(kind), names[i..]);
        assert names[i..][1..] == names[i + 1..];
      }
      NoNewKeys(kind, Keys(Mapping(kind)), names[|names|..]);
      ok := true;
    }

    /** The substituting half of the type and variable passes, in any order of the entries. */
    method SubstituteWords(code: Code, order: seq<Entry>, kind: Kind) returns (r: Code)
      requires Valid() && multiset(order) == multiset(Mapping(kind)) && DistinctKeys(order)
      ensures r == Repeated(code, order)
      ensures ValuesAreNoKeys(Mapping(kind)) ==> r == Rename(code, Mapping(kind))
    {
      r := code;
      assert order[0..] == order;
      for i := 0 to |order|
        invariant Repeated(r, order[i..]) == Repeated(code, order)
      {
        assert order[i..][1..] == order[i + 1..];
        r := SubstituteWord(r, order[i].0, order[i].1);
      }
      ValuesOfOrder(order, kind);
      if ValuesAreNoKeys(Mapping(kind)) {
        AnyOrder(code, Mapping(kind), order);
      }
    }

    /** The substituting half of the function pass, in any order of the entries. */
    method SubstituteCalls(code: Code, order: seq<Entry>) returns (r: Code)
      requires Valid() && multiset(order) == multiset(func_mapping) && DistinctKeys(order)
      ensures r == RepeatedCalls(code, order)
      ensures ValuesAreNoKeys(func_mapping) ==> r == RenameCalls(code, func_mapping)
    {
      r := code;
      assert order[0..] == order;
      for i := 0 to |order|
        invariant RepeatedCalls(r, order[i..]) == RepeatedCalls(code, order)
      {
        assert order[i..][1..] == order[i + 1..];
        r := SubstituteCall(r, order[i].0, order[i].1);
      }
      ValuesOfOrder(order, Functions);
      if ValuesAreNoKeys(func_mapping) {
        AnyOrderOfCalls(code, func_mapping, order);
      }
    }

    /** `obfuscate_types`: entries are substituted in the order they were made. */
    method ObfuscateTypes(code: Code, names: seq<string>, draws: seq<string>) returns (ok: bool, r: Code)
      requires Valid() && type_mapping == []
      modifies this
      ensures Valid() && func_mapping == old(func_mapping) && var_mapping == old(var_mapping)
      ensures ok ==> Keys(type_mapping) == NewKeys(Types, [], names) && ValuesIn(type_mapping, draws)
      ensures ok && ValuesAreNoKeys(type_mapping) ==> r == Rename(code, type_mapping)
    {
      r := code;
      assert Keys([]) == [];
      ok := Collect(Types, names, draws);
      assert Mapping(Functions) == old(Mapping(Functions)) && Mapping(Variables) == old(Mapping(Variables));
      r := SubstituteWords(code, type_mapping, Types);
    }

    /** `obfuscate_functions`: longer names first. */
    method ObfuscateFunctions(code: Code, names: seq<string>, draws: seq<string>) returns (ok: bool, r: Code)
      requires Valid() && func_mapping == []
      modifies this
      ensures Valid() && type_mapping == old(type_mapping) && var_mapping == old(var_mapping)
      ensures ok ==> Keys(func_mapping) == NewKeys(Functions, [], names) && ValuesIn(func_mapping, draws)
      ensures ok && ValuesAreNoKeys(func_mapping) ==> r == RenameCalls(code, func_mapping)
    {
      assert Keys([]) == [];
      ok := Collect(Functions, names, draws);
      assert Mapping(Types) == old(Mapping(Types)) && Mapping(Variables) == old(Mapping(Variables));
      SortedIsPermutation(func_mapping);
      r := SubstituteCalls(code, SortByLength(func_mapping));
    }

    /** `obfuscate_variables`: longer names first. */
    method ObfuscateVariables(code: Code, names: seq<string>, draws: seq<string>) returns (ok: bool, r: Code)
      requires Valid() && var_mapping == []
      modifies this
      ensures Valid() && type_mapping == old(type_mapping) && func_mapping == old(func_mapping)
      ensures ok ==> Keys(var_mapping) == NewKeys(Variables, [], names) && ValuesIn(var_mapping, draws)
      ensures ok && ValuesAreNoKeys(var_mapping) ==> r == Rename(code, var_mapping)
    {
      assert Keys([]) == [];
      ok := Collect(Variables, names, draws);
      assert Mapping(Types) == old(Mapping(Types)) && Mapping(Functions) == old(Mapping(Functions));
      SortedIsPermutation(var_mapping);
      r := SubstituteWords(code, SortByLength(var_mapping), Variables);
    }

    /**
     The three renaming passes of a new obfuscator.  `find` stands for the patterns that collect names from
     a text and `draws` for the random names.
     */
    method ObfuscateNames(code: Code, find: (Kind, Code) -> seq<string>, draws: Kind -> seq<string>) returns (ok: bool, r: Code)
      requires Valid() && type_mapping == func_mapping == var_mapping == []
      requires forall kind, c, w :: w in find(kind, c) ==> Occurs(c, w)
      requires forall kind, w :: w in draws(kind) ==> !Occurs(code, w)
      modifies this
      ensures Valid()
      ensures ok ==> r == Passes(code, type_mapping, func_mapping, var_mapping)
      ensures ok ==> var back := Undo(r, type_mapping, func_mapping, var_mapping);
        Squeeze(back) == Squeeze(code) && (back == code <==> Gapless(Rename(code, type_mapping), func_mapping))
      ensures ok ==> KeysAreFound(code, find, type_mapping, func_mapping, var_mapping)
      ensures ok ==> CallPlaces.OldNamesGone(r, type_mapping, func_mapping, var_mapping)
    {
      ok, r := ObfuscateTypes(code, find(Types, code), draws(Types));
      if !ok { return; }
      KeysOccur(type_mapping, Types, find(Types, code), code);
      DrawnNamesAreFresh(code, type_mapping, [], [], draws(Types), [], []);
      FreshAfterTypes(code, type_mapping);
      var t := r;
      ok, r := ObfuscateFunctions(t, find(Functions, t), draws(Functions));
      if !ok { return; }
      KeysOccur(func_mapping, Functions, find(Functions, t), t);
      DrawnNamesAreFresh(code, type_mapping, func_mapping, [], draws(Types), draws(Functions), []);
      FreshAfterFunctions(code, type_mapping, func_mapping);
      var f := r;
      ok, r := ObfuscateVariables(f, find(Variables, f), draws(Variables));
      if !ok { return; }
      KeysOccur(var_mapping, Variables, find(Variables, f), f);
      DrawnNamesAreFresh(code, type_mapping, func_mapping, var_mapping, draws(Types), draws(Functions), draws(Variables));
      FreshAfterVariables(code, type_mapping, func_mapping, var_mapping);
      PassesUndone(code, type_mapping, func_mapping, var_mapping);
      OldNamesAreGone(code, type_mapping, func_mapping, var_mapping);
    }

    lemma ValuesOfOrder(order: seq<Entry>, kind: Kind)
      requires Valid() && multiset(order) == multiset(Mapping(kind)) && DistinctKeys(order)
      ensures DistinctKeys(Mapping(kind)) && DistinctValues(Mapping(kind)) && DistinctValues(order)
    {
      FreshPerPass([], type_mapping, func_mapping, var_mapping, "");
      ValuesPermuted(order, Mapping(kind));
    }
  }

  /** The keys of a dictionary that was empty are names found in the text. */
  lemma KeysOccur(d: seq<Entry>, kind: Kind, names: seq<string>, code: Code)
    requires Keys(d) == NewKeys(kind, [], names)
    requires forall w :: w in names ==> Occurs(code, w)
    ensures forall k :: 0 <= k < |d| ==> Occurs(code, d[k].0)
  {
    forall k | 0 <= k < |d|
      ensures Occurs(code, d[k].0)
    {
      NewKeysAreNames(kind, [], names, Keys(d)[k]);
    }
  }

  lemma {:induction false} NewKeysAreNames(kind: Kind, seen: seq<string>, names: seq<string>, w: string)
    requires w in NewKeys(kind, seen, names)
    ensures w in names
    decreases |names|
  {
    if Eligible(kind, names[0]) && names[0] !in seen {
      if w != names[0] {
        NewKeysAreNames(kind, seen + [names[0]], names[1..], w);
      }
    } else {
      NewKeysAreNames(kind, seen, names[1..], w);
    }
  }

  lemma FreshAfterTypes(code: Code, types: seq<Entry>)
    requires forall w :: IsValue(types, w) ==> !Occurs(code, w)
    requires forall k :: 0 <= k < |types| ==> Occurs(code, types[k].0)
    ensures ValuesAreNoKeys(types)
  {
    forall i, j | 0 <= i < |types| && 0 <= j < |types|
      ensures types[i].1 != types[j].0
    {
      assert IsValue(types, types[i].1);
    }
  }

  lemma FreshAfterFunctions(code: Code, types: seq<Entry>, functions: seq<Entry>)
    requires forall w :: IsValue(functions, w) ==> !Occurs(code, w) && !IsValue(types, w)
    requires forall k :: 0 <= k < |functions| ==> Occurs(Rename(code, types), functions[k].0)
    ensures ValuesAreNoKeys(functions)
  {
    forall i, j | 0 <= i < |functions| && 0 <= j < |functions|
      ensures functions[i].1 != functions[j].0
    {
      assert IsValue(functions, functions[i].1);
      OccursAfterRename(code, types, functions[j].0);
    }
  }

  lemma FreshAfterVariables(code: Code, types: seq<Entry>, functions: seq<Entry>, variables: seq<Entry>)
    requires forall w :: IsValue(variables, w) ==> !Occurs(code, w) && !IsValue(types, w) && !IsValue(functions, w)
    requires forall k :: 0 <= k < |variables| ==> Occurs(RenameCalls(Rename(code, types), functions), variables[k].0)
    ensures ValuesAreNoKeys(variables)
  {
    forall i, j | 0 <= i < |variables| && 0 <= j < |variables|
      ensures variables[i].1 != variables[j].0
    {
      assert IsValue(variables, variables[i].1);
      OccursAfterRenameCalls(Rename(code, types), functions, variables[j].0);
      if Occurs(Rename(code, types), variables[j].0) {
        OccursAfterRename(code, types, variables[j].0);
      }
    }
  }

  /** The values of a new obfuscator's dictionaries are fresh when no draw occurs in the source. */
  lemma DrawnNamesAreFresh(code: Code, types: seq<Entry>, functions: seq<Entry>, variables: seq<Entry>,
    t: seq<string>, f: seq<string>, v: seq<string>)
    requires DistinctValues(types + functions + variables)
    requires ValuesIn(types, t) && ValuesIn(functions, f) && ValuesIn(variables, v)
    requires forall w :: w in t || w in f || w in v ==> !Occurs(code, w)
    ensures FreshNames(code, types, functions, variables)
    ensures forall w :: IsValue(types, w) ==> !Occurs(code, w)
    ensures forall w :: IsValue(functions, w) ==> !Occurs(code, w) && !IsValue(types, w)
    ensures forall w :: IsValue(variables, w) ==> !Occurs(code, w) && !IsValue(types, w) && !IsValue(functions, w)
  {
    var all := types + functions + variables;
    forall w | IsValue(all, w)
      ensures !Occurs(code, w)
    {
      var i :| 0 <= i < |all| && all[i].1 == w;
      if i < |types| {
        assert all[i] == types[i];
      } else if i < |types| + |functions| {
        assert all[i] == functions[i - |types|];
      } else {
        assert all[i] == variables[i - |types| - |functions|];
      }
    }
    forall w {
      FreshPerPass(code, types, functions, variables, w);
    }
  }

  /** Names found in the texts, with fresh new names: nothing of the old names is left. */
  lemma OldNamesAreGone(code: Code, types: seq<Entry>, functions: seq<Entry>, variables: seq<Entry>)
    requires ValuesAreNoKeys(types) && ValuesAreNoKeys(functions) && ValuesAreNoKeys(variables)
    requires forall k :: 0 <= k < |types| ==> Occurs(code, types[k].0)
    requires forall k :: 0 <= k < |functions| ==> Occurs(Rename(code, types), functions[k].0)
    requires forall w :: IsValue(functions, w) ==> !Occurs(code, w) && !IsValue(types, w)
    requires forall w :: IsValue(variables, w) ==> !Occurs(code, w) && !IsValue(types, w) && !IsValue(functions, w)
    ensures CallPlaces.OldNamesGone(Passes(code, types, functions, variables), types, functions, variables)
  {
    forall w | HasKey(functions, w)
      ensures !IsValue(variables, w)
    {
      OccursAfterRename(code, types, w);
    }
    CallPlaces.PassesLeaveNoOldName(code, types, functions, variables);
  }

  // ---------------------------------------------------------------------------------------------
  // Which names are renamed
  // ---------------------------------------------------------------------------------------------

  /** Reserved names, names of one letter, and names with one or two underscores in front are never renamed. */
  lemma EligibleIff(name: string)
    ensures Eligible(Types, name) <==> |name| >= 1
    ensures Eligible(Functions, name) <==>
      (&& |name| >= 2 && !(name[0] == '_' && name[1] == '_')
       && name != "main" && name != "printf" && name != "scanf" && name != "malloc" && name != "free"
       && name != "if" && name != "for" && name != "while")
    ensures Eligible(Variables, name) <==>
      (&& |name| >= 2 && name[0] != '_'
       && name != "main" && name != "printf" && name != "scanf" && name != "malloc" && name != "free"
       && name != "sizeof" && name != "if" && name != "for" && name != "while")
  {}

  /** A dictionary made from found names has exactly the eligible ones among them, each once. */
  lemma {:induction false} NewKeysAre(kind: Kind, seen: seq<string>, names: seq<string>)
    ensures forall w :: w in NewKeys(kind, seen, names) <==> w in names && Eligible(kind, w) && w !in seen
    ensures forall i, j :: 0 <= i < j < |NewKeys(kind, seen, names)| ==> NewKeys(kind, seen, names)[i] != NewKeys(kind, seen, names)[j]
    decreases |names|
  {
    hide Eligible;
    if names != [] {
      var more := seen + [names[0]];
      if Eligible(kind, names[0]) && names[0] !in seen {
        NewKeysAre(kind, more, names[1..]);
      } else {
        NewKeysAre(kind, seen, names[1..]);
      }
      assert names == [names[0]] + names[1..];
    }
  }

  // ---------------------------------------------------------------------------------------------
  // The order of substitution
  // ---------------------------------------------------------------------------------------------

  ghost predicate Falling(d: seq<Entry>) {
    forall i, j :: 0 <= i < j < |d| ==> |d[i].0| >= |d[j].0|
  }

  /** The entries whose key has a given length, in order. */
  function OfLength(d: seq<Entry>, n: nat): seq<Entry> {
    if d == [] then [] else (if |d[0].0| == n then [d[0]] else []) + OfLength(d[1..], n)
  }

  lemma OfLengthStep(e: Entry, s: seq<Entry>, n: nat)
    ensures OfLength([e] + s, n) == (if |e.0| == n then [e] else []) + OfLength(s, n)
  {
    assert ([e] + s)[1..] == s;
  }

  lemma {:induction false} InsertedStays(e: Entry, s: seq<Entry>, n: nat)
    ensures OfLength(InsertByLength(e, s), n) == OfLength([e] + s, n)
  {
    hide OfLength;
    if s != [] && |e.0| < |s[0].0| {
      InsertedStays(e, s[1..], n);
      OfLengthStep(s[0], InsertByLength(e, s[1..]), n);
      OfLengthStep(e, s[1..], n);
      OfLengthStep(e, s, n);
      OfLengthStep(s[0], s[1..], n);
      assert [s[0]] + s[1..] == s;
    }
  }

  lemma {:induction false} InsertedFalls(e: Entry, s: seq<Entry>)
    requires Falling(s)
    ensures Falling(InsertByLength(e, s))
  {
    if s != [] && |e.0| < |s[0].0| {
      var r := InsertByLength(e, s[1..]);
      InsertedFalls(e, s[1..]);
      InsertedIsPermutation(e, s[1..]);
      forall k | 0 <= k < |r|
        ensures |r[k].0| <= |s[0].0|
      {
        assert r[k] in multiset(s[1..]) + multiset{e};
      }
      FallingStep(s[0], r);
    }
  }

  lemma FallingStep(e: Entry, s: seq<Entry>)
    requires Falling(s) && forall k :: 0 <= k < |s| ==> |s[k].0| <= |e.0|
    ensures Falling([e] + s)
  {}

  /** Entries are sorted by falling length of the key, and entries of one length keep their order. */
  lemma {:induction false} SortedFalls(d: seq<Entry>, n: nat)
    ensures Falling(SortByLength(d)) && OfLength(SortByLength(d), n) == OfLength(d, n)
  {
    if d != [] {
      SortedFalls(d[1..], n);
      InsertedFalls(d[0], SortByLength(d[1..]));
      InsertedStays(d[0], SortByLength(d[1..]), n);
      OfLengthStep(d[0], SortByLength(d[1..]), n);
      OfLengthStep(d[0], d[1..], n);
      assert [d[0]] + d[1..] == d;
    }
  }

  lemma {:induction false} InsertedIsPermutation(e: Entry, s: seq<Entry>)
    ensures multiset(InsertByLength(e, s)) == multiset(s) + multiset{e}
  {
    if s != [] && |e.0| < |s[0].0| {
      InsertedIsPermutation(e, s[1..]);
      assert s == [s[0]] + s[1..];
    }
  }

  lemma {:induction false} SortedIsPermutation(d: seq<Entry>)
    ensures multiset(SortByLength(d)) == multiset(d)
    ensures DistinctKeys(d) ==> DistinctKeys(SortByLength(d))
  {
    if d != [] {
      SortedIsPermutation(d[1..]);
      InsertedIsPermutation(d[0], SortByLength(d[1..]));
      assert d == [d[0]] + d[1..];
      if DistinctKeys(d) {
        forall k | 0 <= k < |SortByLength(d[1..])|
          ensures SortByLength(d[1..])[k].0 != d[0].0
        {
          assert SortByLength(d[1..])[k] in multiset(d[1..]);
        }
        InsertedKeys(d[0], SortByLength(d[1..]));
      }
    }
  }

  lemma {:induction false} InsertedKeys(e: Entry, s: seq<Entry>)
    requires DistinctKeys(s) && forall k :: 0 <= k < |s| ==> s[k].0 != e.0
    ensures DistinctKeys(InsertByLength(e, s))
  {
    if s != [] && |e.0| < |s[0].0| {
      InsertedKeys(e, s[1..]);
      InsertedIsPermutation(e, s[1..]);
      var r := InsertByLength(e, s[1..]);
      forall k | 0 <= k < |r|
        ensures r[k].0 != s[0].0
      {
        assert r[k] in multiset(s[1..]) + multiset{e};
      }
    }
  }

  lemma KeysAreKeys(d: seq<Entry>, w: string)
    ensures HasKey(d, w) <==> w in Keys(d)
  {
    if HasKey(d, w) {
      var k :| 0 <= k < |d| && d[k].0 == w;
      assert Keys(d)[k] == w;
    }
  }

  lemma OneMoreKey(d: seq<Entry>, entry: Entry)
    requires DistinctKeys(d) && !HasKey(d, entry.0)
    ensures DistinctKeys(d + [entry])
  {}

  /** Inserting an entry with a new value after the second of three parts keeps the values distinct. */
  lemma InsertedEntry(a: seq<Entry>, b: seq<Entry>, c: seq<Entry>, entry: Entry)
    requires DistinctValues(a + b + c) && !IsValue(a + b + c, entry.1)
    ensures DistinctValues(a + (b + [entry]) + c)
    ensures forall k :: 0 <= k < |a + (b + [entry]) + c| ==>
      (a + (b + [entry]) + c)[k] == entry || (a + (b + [entry]) + c)[k] in a + b + c
  {
    var d, r, at := a + b + c, a + (b + [entry]) + c, |a + b|;
    assert forall k :: 0 <= k < |r| ==> r[k] == if k < at then d[k] else if k == at then entry else d[k - 1];
    forall i, j | 0 <= i < j < |r|
      ensures r[i].1 != r[j].1
    {
      assert i != at ==> r[i] == d[if i < at then i else i - 1];
      assert j != at ==> r[j] == d[if j < at then j else j - 1];
    }
  }

  lemma NoNewKeys(kind: Kind, seen: seq<string>, names: seq<string>)
    requires names == []
    ensures NewKeys(kind, seen, names) == []
  {}

  lemma NewKeysStep(kind: Kind, before: seq<Entry>, after: seq<Entry>, names: seq<string>)
    requires names != []
    requires if Eligible(kind, names[0]) && names[0] !in Keys(before)
      then |after| == |before| + 1 && after[..|before|] == before && after[|before|].0 == names[0]
      else after == before
    ensures Keys(after) + NewKeys(kind, Keys(after), names[1..]) == Keys(before) + NewKeys(kind, Keys(before), names)
  {
    if Eligible(kind, names[0]) && names[0] !in Keys(before) {
      assert forall k :: 0 <= k < |before| ==> after[k] == after[..|before|][k];
      assert Keys(after) == Keys(before) + [names[0]];
    }
  }

  /** Distinct entries with distinct values stay so in another order. */
  lemma ValuesPermuted(order: seq<Entry>, d: seq<Entry>)
    requires multiset(order) == multiset(d) && DistinctKeys(order) && DistinctValues(d)
    ensures DistinctValues(order)
  {
    forall i, j | 0 <= i < j < |order|
      ensures order[i].1 != order[j].1
    {
      assert order[i] in multiset(d) && order[j] in multiset(d);
    }
  }
}
