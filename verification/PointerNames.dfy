/**
 Names with stars.  Two patterns of the variable pass also collect `*p` from the declaration of a pointer; the pattern
 `\b\*p\b` then matches where a word, the stars and the name stand side by side, which is a product and no pointer.
 */
module PointerNames {
  import opened Renaming

  /** An entry of the variable dictionary: a word, or stars and a word. */
  datatype VariableEntry = Plain(old_: string, new_: string) | Pointer(stars: nat, name: string, new_: string)

  /** The text starts with the stars and the name. */
  predicate StarsAhead(code: Code, stars: nat, name: string) {
    |code| > stars && (forall k :: 0 <= k < stars ==> code[k] == Other('*')) && code[stars] == Word(name)
  }

  /** A word is followed by the stars and the name. */
  predicate ProductAhead(code: Code, stars: nat, name: string) {
    code != [] && code[0].Word? && StarsAhead(code[1..], stars, name)
  }

  /** One call of `re.sub` for such a name: stars and name go, and the new name joins the word before them. */
  function SubstitutePointer(code: Code, stars: nat, name: string, new_: string): Code
    decreases |code|
  {
    if code == [] then []
    else if ProductAhead(code, stars, name) then
      SubstitutePointer([Word(code[0].name + new_)] + code[stars + 2..], stars, name, new_)
    else [code[0]] + SubstitutePointer(code[1..], stars, name, new_)
  }

  predicate NoProduct(code: Code, stars: nat, name: string) {
    forall k :: 0 <= k < |code| ==> !ProductAhead(code[k..], stars, name)
  }

  lemma NoProductStep(code: Code, stars: nat, name: string)
    requires code != []
    ensures NoProduct(code, stars, name) <==> !ProductAhead(code, stars, name) && NoProduct(code[1..], stars, name)
  {
    assert code[0..] == code;
    if NoProduct(code, stars, name) {
      forall k | 0 <= k < |code| - 1
        ensures !ProductAhead(code[1..][k..], stars, name)
      {
        assert code[1..][k..] == code[k + 1..];
      }
    }
    if !ProductAhead(code, stars, name) && NoProduct(code[1..], stars, name) {
      forall k | 0 <= k < |code|
        ensures !ProductAhead(code[k..], stars, name)
      {
        if k > 0 {
          assert code[1..][k - 1..] == code[k..];
        }
      }
    }
  }

  lemma SubstituteOther(x: Token, code: Code, stars: nat, name: string, new_: string)
    requires !ProductAhead([x] + code, stars, name)
    ensures SubstitutePointer([x] + code, stars, name, new_) == [x] + SubstitutePointer(code, stars, name, new_)
  {
    assert ([x] + code)[1..] == code;
  }

  lemma SubstituteProduct(w: string, stars: nat, name: string, new_: string, after: Code)
    ensures SubstitutePointer(Product(w, stars, name) + after, stars, name, new_)
      == SubstitutePointer([Word(w + new_)] + after, stars, name, new_)
  {
    var code := Product(w, stars, name) + after;
    assert code[stars + 2..] == after;
    assert code[1..][stars] == Word(name) && forall k :: 0 <= k < stars ==> code[1..][k] == Other('*');
    assert ProductAhead(code, stars, name);
  }

  /** Up to the first product nothing changes; there the new name joins the word, and the search goes on from that. */
  lemma {:induction false} FirstProductJoins(before: Code, w: string, stars: nat, name: string, new_: string, after: Code)
    requires forall k :: 0 <= k < |before| ==> !ProductAhead((before + Product(w, stars, name) + after)[k..], stars, name)
    ensures SubstitutePointer(before + Product(w, stars, name) + after, stars, name, new_)
      == before + SubstitutePointer([Word(w + new_)] + after, stars, name, new_)
    decreases |before|
  {
    hide SubstitutePointer, ProductAhead, Product;
    var tail := Product(w, stars, name) + after;
    if before == [] {
      SubstituteProduct(w, stars, name, new_, after);
      assert before + Product(w, stars, name) + after == tail;
    } else {
      var rest := before[1..] + Product(w, stars, name) + after;
      var code := before + Product(w, stars, name) + after;
      assert code == [before[0]] + rest && code[0..] == code && before == [before[0]] + before[1..];
      forall k | 0 <= k < |before[1..]|
        ensures !ProductAhead(rest[k..], stars, name)
      {
        assert rest[k..] == code[k + 1..];
      }
      FirstProductJoins(before[1..], w, stars, name, new_, after);
      SubstituteOther(before[0], rest, stars, name, new_);
    }
  }

  /** A word, stars and a name, side by side. */
  function Product(w: string, stars: nat, name: string): (r: Code)
    ensures |r| == stars + 2
    ensures r[0] == Word(w) && r[stars + 1] == Word(name) && forall k :: 1 <= k <= stars ==> r[k] == Other('*')
  {
    [Word(w)] + seq(stars, k => Other('*')) + [Word(name)]
  }

  /** Such a substitution shortens the text, unless there is no product, when it does nothing. */
  lemma {:induction false} PointerShortensIff(code: Code, stars: nat, name: string, new_: string)
    ensures |SubstitutePointer(code, stars, name, new_)| <= |code|
    ensures |SubstitutePointer(code, stars, name, new_)| == |code| <==> NoProduct(code, stars, name)
    ensures NoProduct(code, stars, name) ==> SubstitutePointer(code, stars, name, new_) == code
    decreases |code|
  {
    if code != [] {
      NoProductStep(code, stars, name);
      if ProductAhead(code, stars, name) {
        PointerShortensIff([Word(code[0].name + new_)] + code[stars + 2..], stars, name, new_);
      } else {
        PointerShortensIff(code[1..], stars, name, new_);
      }
    }
  }

  // ---------------------------------------------------------------------------------------------
  // The variable pass with such names
  // ---------------------------------------------------------------------------------------------

  function Substitute(code: Code, e: VariableEntry): Code {
    match e
    case Plain(old_, new_) => SubstituteWord(code, old_, new_)
    case Pointer(stars, name, new_) => SubstitutePointer(code, stars, name, new_)
  }

  function Mixed(code: Code, order: seq<VariableEntry>): Code
    decreases |order|
  {
    if order == [] then code else Mixed(Substitute(code, order[0]), order[1..])
  }

  /** The entries that are words. */
  function Words(order: seq<VariableEntry>): seq<Entry> {
    if order == [] then []
    else (if order[0].Plain? then [(order[0].old_, order[0].new_)] else []) + Words(order[1..])
  }

  /** No name with stars finds a product when its turn comes. */
  predicate Idle(code: Code, order: seq<VariableEntry>)
    decreases |order|
  {
    order == [] ||
    ((order[0].Pointer? ==> NoProduct(code, order[0].stars, order[0].name)) && Idle(Substitute(code, order[0]), order[1..]))
  }

  lemma {:induction false} MixedIff(code: Code, order: seq<VariableEntry>)
    ensures |Mixed(code, order)| <= |code|
    ensures |Mixed(code, order)| == |code| <==> Idle(code, order)
    ensures Idle(code, order) ==> Mixed(code, order) == Repeated(code, Words(order))
    decreases |order|
  {
    if order != [] {
      var e := order[0];
      MixedIff(Substitute(code, e), order[1..]);
      if e.Pointer? {
        PointerShortensIff(code, e.stars, e.name, e.new_);
        assert [] + Words(order[1..]) == Words(order[1..]);
      } else {
        assert Words(order) == [(e.old_, e.new_)] + Words(order[1..]);
        assert Words(order)[1..] == Words(order[1..]);
      }
    }
  }

  /**
   The exact condition for the pass with names of both kinds: if no name with stars meets a product it is the pass
   with the words alone, which mapping the generated names back undoes; otherwise no mapping of names restores the text.
   */
  lemma MixedPassIff(code: Code, order: seq<VariableEntry>)
    requires DistinctKeys(Words(order)) && DistinctValues(Words(order))
    requires forall k :: 0 <= k < |Words(order)| ==> !IsKey(Words(order), Words(order)[k].1) && !Occurs(code, Words(order)[k].1)
    ensures (exists d :: Rename(Mixed(code, order), d) == code) <==> Idle(code, order)
    ensures Idle(code, order) ==> Rename(Mixed(code, order), Inverse(Words(order))) == code
  {
    var d := Words(order);
    MixedIff(code, order);
    if Idle(code, order) {
      AnyOrder(code, d, d);
      UndoneIff(code, d);
      assert Rename(Mixed(code, order), Inverse(d)) == code;
    }
  }

  /** The input: a product with the pointer's name, once `*p` was collected from the declaration of `p`. */
  lemma ProductIsNotUndone(new_: string)
    ensures var code := [Word("a"), Other('*'), Word("p")];
      Mixed(code, [Pointer(1, "p", new_)]) == [Word("a" + new_)] && !Idle(code, [Pointer(1, "p", new_)])
  {
    var code := [Word("a"), Other('*'), Word("p")];
    assert code[0..] == code && ProductAhead(code, 1, "p") && code[3..] == [];
    assert [Word("a" + new_)] + code[3..] == [Word("a" + new_)];
    assert SubstitutePointer([Word("a" + new_)], 1, "p", new_) == [Word("a" + new_)];
    assert [Pointer(1, "p", new_)][1..] == [];
  }
}
