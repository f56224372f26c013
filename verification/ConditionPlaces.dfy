/**
 The condition rewriter described place by place: which conditions of a program are replaced, by which draw, and that
 nothing else of the program changes; and the value each of the five forms has.
 */
module ConditionPlaces {
  import opened ConditionRewriter

  /** Where a condition stands: at an `if` with braces, at one without, or at a loop. */
  datatype Place = Braced | Bare | Loop

  datatype Condition = Condition(c: Expr, place: Place)

  /** The conditions of a program, in the order of its text. */
  function Conditions(p: Stmt): seq<Condition> {
    match p
    case Seq(first, second) => Conditions(first) + Conditions(second)
    case If(c, thn, els, braced) => [Condition(c, if braced then Braced else Bare)] + Conditions(thn) + Conditions(els)
    case While(c, body) => [Condition(c, Loop)] + Conditions(body)
    case _ => []
  }

  /** The program without its conditions. */
  function Skeleton(p: Stmt): Stmt {
    match p
    case Seq(first, second) => Seq(Skeleton(first), Skeleton(second))
    case If(_, thn, els, braced) => If(Const(0), Skeleton(thn), Skeleton(els), braced)
    case While(_, body) => While(Const(0), Skeleton(body))
    case _ => p
  }

  /** How many of some conditions stand at an `if` with braces. */
  function BracedCount(conditions: seq<Condition>): nat {
    if conditions == [] then 0
    else BracedCount(conditions[..|conditions| - 1]) + if conditions[|conditions| - 1].place.Braced? then 1 else 0
  }

  lemma {:induction false} SameSize(p: Stmt, q: Stmt)
    requires Skeleton(p) == Skeleton(q)
    ensures |Conditions(p)| == |Conditions(q)|
  {
    match p
    case Seq(first, second) =>
      SameSize(first, q.first);
      SameSize(second, q.second);
    case If(_, thn, els, _) =>
      SameSize(thn, q.thn);
      SameSize(els, q.els);
    case While(_, body) => SameSize(body, q.body);
    case _ =>
  }

  lemma ConcatsAgree<T>(a: seq<T>, b: seq<T>, c: seq<T>, d: seq<T>)
    requires |a| == |c| && a + b == c + d
    ensures a == c && b == d
  {
    assert a == (a + b)[..|a|] && c == (c + d)[..|c|];
    assert b == (a + b)[|a|..] && d == (c + d)[|c|..];
  }

  /** A program is known by its skeleton and its conditions. */
  lemma {:induction false} ProgramIsKnown(p: Stmt, q: Stmt)
    requires Skeleton(p) == Skeleton(q) && Conditions(p) == Conditions(q)
    ensures p == q
    decreases p, 1
  {
    SameSize(p, q);
    match p
    case Seq(first, second) =>
      SameSize(first, q.first);
      ConcatsAgree(Conditions(first), Conditions(second), Conditions(q.first), Conditions(q.second));
      ProgramIsKnown(first, q.first);
      ProgramIsKnown(second, q.second);
    case If(c, thn, els, braced) => IfIsKnown(p, q);
    case While(c, body) =>
      ConcatsAgree([Condition(c, Loop)], Conditions(body), [Condition(q.c, Loop)], Conditions(q.body));
      ProgramIsKnown(body, q.body);
    case _ =>
  }

  lemma {:induction false} IfIsKnown(p: Stmt, q: Stmt)
    requires p.If? && Skeleton(p) == Skeleton(q) && Conditions(p) == Conditions(q)
    ensures p == q
    decreases p, 0
  {
    var here, there := Condition(p.c, if p.braced then Braced else Bare), Condition(q.c, if q.braced then Braced else Bare);
    SameSize(p.thn, q.thn);
    ConcatsAgree([here] + Conditions(p.thn), Conditions(p.els), [there] + Conditions(q.thn), Conditions(q.els));
    ConcatsAgree([here], Conditions(p.thn), [there], Conditions(q.thn));
    ProgramIsKnown(p.thn, q.thn);
    ProgramIsKnown(p.els, q.els);
  }

  // ---------------------------------------------------------------------------------------------
  // What the rewriter replaces
  // ---------------------------------------------------------------------------------------------

  /** The conditions after a rewriting that starts with draw `n`. */
  ghost predicate Replaced(was: seq<Condition>, now: seq<Condition>, draw: nat -> Form, n: nat) {
    && |now| == |was|
    && forall j :: 0 <= j < |was| ==>
         now[j] == if was[j].place.Braced? then Condition(Complexify(was[j].c, draw(n + BracedCount(was[..j]))), Braced) else was[j]
  }

  lemma {:induction false} BracedOfConcat(a: seq<Condition>, b: seq<Condition>)
    ensures BracedCount(a + b) == BracedCount(a) + BracedCount(b)
    decreases |b|
  {
    if b == [] {
      assert a + b == a;
    } else {
      var n := |b| - 1;
      assert (a + b)[..|a| + n] == a + b[..n];
      BracedOfConcat(a, b[..n]);
    }
  }

  lemma ReplacedConcat(a: seq<Condition>, a': seq<Condition>, b: seq<Condition>, b': seq<Condition>, draw: nat -> Form, n: nat)
    requires Replaced(a, a', draw, n) && Replaced(b, b', draw, n + BracedCount(a))
    ensures Replaced(a + b, a' + b', draw, n)
  {
    hide Complexify, BracedCount;
    forall j | 0 <= j < |a + b|
      ensures (a' + b')[j] == if (a + b)[j].place.Braced?
        then Condition(Complexify((a + b)[j].c, draw(n + BracedCount((a + b)[..j]))), Braced) else (a + b)[j]
    {
      if j < |a| {
        assert (a + b)[..j] == a[..j];
      } else {
        assert (a + b)[..j] == a + b[..j - |a|];
        BracedOfConcat(a, b[..j - |a|]);
        assert (a' + b')[j] == b'[j - |a|] && (a + b)[j] == b[j - |a|];
      }
    }
  }

  lemma ReplacedOne(c: Expr, place: Place, draw: nat -> Form, n: nat)
    ensures BracedCount([Condition(c, place)]) == if place.Braced? then 1 else 0
    ensures Replaced([Condition(c, place)], [Condition(if place.Braced? then Complexify(c, draw(n)) else c, place)], draw, n)
  {
    hide Complexify;
    assert [Condition(c, place)][..0] == [];
  }

  /**
   Rewriting replaces exactly the conditions of the `if`s with braces, in the order of the text, each by the form of the
   next draw; the conditions of loops and bare `if`s stay, and so does everything else.
   */
  lemma {:induction false} RewriteReplaces(p: Stmt, draw: nat -> Form, n: nat)
    ensures var (q, m) := Rewrite(p, draw, n);
      && Skeleton(q) == Skeleton(p)
      && Replaced(Conditions(p), Conditions(q), draw, n)
      && m == n + BracedCount(Conditions(p))
    decreases p, 1
  {
    hide Replaced, Complexify, BracedCount;
    match p
    case Seq(first, second) =>
      var i := Rewrite(first, draw, n).1;
      RewriteReplaces(first, draw, n);
      RewriteReplaces(second, draw, i);
      BracedOfConcat(Conditions(first), Conditions(second));
      ReplacedConcat(Conditions(first), Conditions(Rewrite(first, draw, n).0), Conditions(second),
        Conditions(Rewrite(second, draw, i).0), draw, n);
    case If(c, thn, els, braced) => IfReplaces(p, draw, n);
    case While(c, body) =>
      RewriteReplaces(body, draw, n);
      ReplacedOne(c, Loop, draw, n);
      BracedOfConcat([Condition(c, Loop)], Conditions(body));
      ReplacedConcat([Condition(c, Loop)], [Condition(c, Loop)], Conditions(body), Conditions(Rewrite(body, draw, n).0), draw, n);
    case _ => NothingReplaced(p, draw, n);
  }

  lemma NothingReplaced(p: Stmt, draw: nat -> Form, n: nat)
    requires !p.Seq? && !p.If? && !p.While?
    ensures Replaced(Conditions(p), Conditions(p), draw, n) && BracedCount(Conditions(p)) == 0
  {}

  lemma {:induction false} IfReplaces(p: Stmt, draw: nat -> Form, n: nat)
    requires p.If?
    ensures var (q, m) := Rewrite(p, draw, n);
      && Skeleton(q) == Skeleton(p)
      && Replaced(Conditions(p), Conditions(q), draw, n)
      && m == n + BracedCount(Conditions(p))
    decreases p, 0
  {
    hide Replaced, Complexify, BracedCount;
    var place := if p.braced then Braced else Bare;
    var here, new_ := Condition(p.c, place), Condition(if p.braced then Complexify(p.c, draw(n)) else p.c, place);
    var n1 := if p.braced then n + 1 else n;
    var (a, i) := Rewrite(p.thn, draw, n1);
    var (b, j) := Rewrite(p.els, draw, i);
    RewriteReplaces(p.thn, draw, n1);
    RewriteReplaces(p.els, draw, i);
    ReplacedOne(p.c, place, draw, n);
    BracedOfConcat([here], Conditions(p.thn));
    BracedOfConcat([here] + Conditions(p.thn), Conditions(p.els));
    ReplacedConcat([here], [new_], Conditions(p.thn), Conditions(a), draw, n);
    ReplacedConcat([here] + Conditions(p.thn), [new_] + Conditions(a), Conditions(p.els), Conditions(b), draw, n);
  }

  // ---------------------------------------------------------------------------------------------
  // The five forms
  // ---------------------------------------------------------------------------------------------

  function Size(e: Expr): nat {
    match e
    case Const(_) => 1
    case Var(_) => 1
    case Assign(_, e1) => 1 + Size(e1)
    case Call(_, e1) => 1 + Size(e1)
    case Probe(_, e1) => 1 + Size(e1)
    case Bin(_, l, r) => 1 + Size(l) + Size(r)
    case Div(l, r) => 1 + Size(l) + Size(r)
    case Not(e1) => 1 + Size(e1)
    case And(l, r) => 1 + Size(l) + Size(r)
    case Or(l, r) => 1 + Size(l) + Size(r)
  }

  lemma TestSize(e: Expr)
    requires e.Bin? && e.l.Const? && e.r.Const?
    ensures Size(e) == 3
  {}

  lemma BinarySize(l: Expr, r: Expr, op: Op)
    ensures Size(And(l, r)) == Size(Or(l, r)) == Size(Bin(op, l, r)) == 1 + Size(l) + Size(r)
    ensures Size(Not(l)) == 1 + Size(l)
  {}

  lemma ConstSize(e: Expr)
    requires e.Const?
    ensures Size(e) == 1
  {}

  /** The forms are larger than the condition by 4, 6, 2, 2 and 4. */
  lemma FormSize(c: Expr, form: Form)
    ensures Size(Complexify(c, form)) == Size(c) +
      match form case AndMask(_) => 4 case OrMask(_) => 6 case NotNot => 2 case XorZero => 2 case PlusZero => 4
  {
    hide Size, Complexify;
    match form
    case AndMask(mask) => AndMaskSize(c, mask);
    case OrMask(mask) => OrMaskSize(c, mask);
    case NotNot => NotNotSize(c);
    case XorZero => XorZeroSize(c);
    case PlusZero => PlusZeroSize(c);
  }

  lemma AndMaskSize(c: Expr, mask: bv16)
    ensures Size(Complexify(c, AndMask(mask))) == Size(c) + 4
  {
    hide Size;
    var test := Bin(NotEqual, Const(mask as bv32), Const(0xDEAD));
    TestSize(test);
    BinarySize(c, test, Add);
  }

  lemma OrMaskSize(c: Expr, mask: bv16)
    ensures Size(Complexify(c, OrMask(mask))) == Size(c) + 6
  {
    hide Size;
    var test := Bin(Equal, Const(mask as bv32), Const(0xBEEF));
    TestSize(test);
    ConstSize(Const(0));
    BinarySize(Const(0), test, Add);
    BinarySize(c, And(Const(0), test), Add);
  }

  lemma NotNotSize(c: Expr)
    ensures Size(Complexify(c, NotNot)) == Size(c) + 2
  {
    hide Size;
    BinarySize(c, c, Add);
    BinarySize(Not(c), c, Add);
  }

  lemma XorZeroSize(c: Expr)
    ensures Size(Complexify(c, XorZero)) == Size(c) + 2
  {
    hide Size;
    ConstSize(Const(0));
    BinarySize(c, Const(0), BitXor);
  }

  lemma PlusZeroSize(c: Expr)
    ensures Size(Complexify(c, PlusZero)) == Size(c) + 4
  {
    hide Size;
    ConstSize(Const(0));
    BinarySize(c, Const(0), Add);
    BinarySize(Bin(Add, c, Const(0)), Const(0), NotEqual);
  }

  /** No condition stays as it was. */
  lemma FormsDiffer(c: Expr, form: Form)
    ensures Complexify(c, form) != c
  {
    hide Size, Complexify;
    FormSize(c, form);
  }

  /** The value of each form: the exclusive or with zero keeps it, the others make it a truth value. */
  function FormValue(form: Form, w: Word): Word {
    match form
    case AndMask(mask) => Flag(w != 0 && mask != 0xDEAD)
    case XorZero => w
    case _ => Flag(w != 0)
  }

  lemma FormValues(c: Expr, form: Form, s: State, world: World)
    requires Eval(c, s, world).Value?
    ensures var v := Eval(c, s, world); Eval(Complexify(c, form), s, world) == Value(FormValue(form, v.w), v.s)
  {
    hide Eval, Flag, Apply;
    match form
    case AndMask(mask) => AndMaskEffects(c, mask, s, world);
    case OrMask(mask) => OrMaskEffects(c, mask, s, world);
    case NotNot => NotNotEffects(c, s, world);
    case XorZero =>
      ConstOperand(BitXor, c, 0, s, world);
      XorWithZero(Eval(c, s, world).w);
    case PlusZero => PlusZeroEffects(c, s, world);
  }

  lemma XorWithZero(w: Word)
    ensures Apply(BitXor, w, 0) == w
  {}
}
