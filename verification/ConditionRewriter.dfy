/**
 The obfuscator's condition rewriter on a small C-like language: every braced `if` condition is replaced
 by one of five longer conditions, drawn at random.  Conditions may assign, call external functions and
 crash, so that a condition evaluated twice, or not at all, is seen in the final state.
 */
module ConditionRewriter {
  type Word = bv32

  datatype Op = Add | Sub | Mul | Less | Equal | NotEqual | BitAnd | BitOr | BitXor

  datatype Expr =
    | Const(w: Word)
    | Var(x: string)
    | Assign(x: string, e: Expr)
    | Call(f: string, arg: Expr)
    | Probe(id: nat, e: Expr)
    | Bin(op: Op, l: Expr, r: Expr)
    | Div(l: Expr, r: Expr)
    | Not(e: Expr)
    | And(l: Expr, r: Expr)
    | Or(l: Expr, r: Expr)

  datatype Stmt =
    | Skip
    | Do(e: Expr)
    | Seq(first: Stmt, second: Stmt)
    | If(c: Expr, thn: Stmt, els: Stmt, braced: bool)
    | While(c: Expr, body: Stmt)
    | Break
    | Return(e: Expr)

  // ---------------------------------------------------------------------------------------------
  // The interpreter
  // ---------------------------------------------------------------------------------------------

  /** What the outside sees: calls with their answers, and probes passed. */
  datatype Event = Called(f: string, arg: Word, answer: Word) | Probed(id: nat)

  datatype State = State(vars: map<string, Word>, log: seq<Event>)

  /** The answer of the outside to a call may depend on everything seen before. */
  type World = (seq<Event>, string, Word) -> Word

  datatype Result = Crash | Value(w: Word, s: State)

  datatype Outcome = Crashed | OutOfFuel | Ended(s: State) | Broke(s: State) | Returned(w: Word, s: State)

  function Flag(b: bool): Word { if b then 1 else 0 }

  function Apply(op: Op, a: Word, b: Word): Word {
    match op
    case Add => a + b
    case Sub => a - b
    case Mul => a * b
    case Less => Flag(a ^ 0x8000_0000 < b ^ 0x8000_0000)
    case Equal => Flag(a == b)
    case NotEqual => Flag(a != b)
    case BitAnd => a & b
    case BitOr => a | b
    case BitXor => a ^ b
  }

  predicate Negative(a: Word) { a & 0x8000_0000 != 0 }

  function Magnitude(a: Word): Word { if Negative(a) then 0 - a else a }

  /** Signed division truncates toward zero; it traps on zero and when the quotient does not fit. */
  function Quotient(a: Word, b: Word): Word
    requires b != 0
  {
    var q := Magnitude(a) / Magnitude(b);
    if Negative(a) == Negative(b) then q else 0 - q
  }

  predicate DivisionTraps(a: Word, b: Word) {
    b == 0 || (a == 0x8000_0000 && b == 0xFFFF_FFFF)
  }

  /** Operands are evaluated from left to right; `&&` and `||` stop early. */
  function Eval(e: Expr, s: State, world: World): Result {
    match e
    case Const(w) => Value(w, s)
    case Var(x) => Value(if x in s.vars then s.vars[x] else 0, s)
    case Assign(x, e1) =>
      (match Eval(e1, s, world)
       case Crash => Crash
       case Value(w, s1) => Value(w, s1.(vars := s1.vars[x := w])))
    case Call(f, e1) =>
      (match Eval(e1, s, world)
       case Crash => Crash
       case Value(w, s1) =>
         var answer := world(s1.log, f, w);
         Value(answer, s1.(log := s1.log + [Called(f, w, answer)])))
    case Probe(id, e1) => Eval(e1, s.(log := s.log + [Probed(id)]), world)
    case Bin(op, l, r) =>
      (match Eval(l, s, world)
       case Crash => Crash
       case Value(a, s1) =>
         match Eval(r, s1, world)
         case Crash => Crash
         case Value(b, s2) => Value(Apply(op, a, b), s2))
    case Div(l, r) =>
      (match Eval(l, s, world)
       case Crash => Crash
       case Value(a, s1) =>
         match Eval(r, s1, world)
         case Crash => Crash
         case Value(b, s2) => if DivisionTraps(a, b) then Crash else Value(Quotient(a, b), s2))
    case Not(e1) =>
      (match Eval(e1, s, world)
       case Crash => Crash
       case Value(w, s1) => Value(Flag(w == 0), s1))
    case And(l, r) =>
      (match Eval(l, s, world)
       case Crash => Crash
       case Value(a, s1) =>
         if a == 0 then Value(0, s1)
         else
           match Eval(r, s1, world)
           case Crash => Crash
           case Value(b, s2) => Value(Flag(b != 0), s2))
    case Or(l, r) =>
      (match Eval(l, s, world)
       case Crash => Crash
       case Value(a, s1) =>
         if a != 0 then Value(1, s1)
         else
           match Eval(r, s1, world)
           case Crash => Crash
           case Value(b, s2) => Value(Flag(b != 0), s2))
  }

  /** `fuel` bounds the number of loop iterations; every theorem below holds for every amount of it. */
  function Exec(p: Stmt, s: State, world: World, fuel: nat): Outcome
    decreases fuel, p
  {
    match p
    case Skip => Ended(s)
    case Do(e) =>
      (match Eval(e, s, world)
       case Crash => Crashed
       case Value(_, s1) => Ended(s1))
    case Seq(first, second) =>
      (match Exec(first, s, world, fuel)
       case Ended(s1) => Exec(second, s1, world, fuel)
       case other => other)
    case If(c, thn, els, _) =>
      (match Eval(c, s, world)
       case Crash => Crashed
       case Value(w, s1) => if w != 0 then Exec(thn, s1, world, fuel) else Exec(els, s1, world, fuel))
    case While(c, body) =>
      if fuel == 0 then OutOfFuel
      else
        (match Eval(c, s, world)
         case Crash => Crashed
         case Value(w, s1) =>
           if w == 0 then Ended(s1)
           else
             match Exec(body, s1, world, fuel)
             case Ended(s2) => Exec(p, s2, world, fuel - 1)
             case Broke(s2) => Ended(s2)
             case other => other)
    case Break => Broke(s)
    case Return(e) =>
      (match Eval(e, s, world)
       case Crash => Crashed
       case Value(w, s1) => Returned(w, s1))
  }

  // ---------------------------------------------------------------------------------------------
  // The rewriter
  // ---------------------------------------------------------------------------------------------

  /** The five replacements; the first two hold a mask drawn from 0 to 0xFFFF. */
  datatype Form = AndMask(mask: bv16) | OrMask(mask: bv16) | NotNot | XorZero | PlusZero

  function Complexify(c: Expr, form: Form): Expr {
    match form
    case AndMask(mask) => And(c, Bin(NotEqual, Const(mask as bv32), Const(0xDEAD)))
    case OrMask(mask) => Or(c, And(Const(0), Bin(Equal, Const(mask as bv32), Const(0xBEEF))))
    case NotNot => Not(Not(c))
    case XorZero => Bin(BitXor, c, Const(0))
    case PlusZero => Bin(NotEqual, Bin(Add, c, Const(0)), Const(0))
  }

  /** The `n`-th braced `if` of the text gets the `n`-th draw; conditions of loops and bare `if`s stay. */
  function Rewrite(p: Stmt, draw: nat -> Form, n: nat): (Stmt, nat) {
    match p
    case Seq(first, second) =>
      var (a, i) := Rewrite(first, draw, n);
      var (b, j) := Rewrite(second, draw, i);
      (Seq(a, b), j)
    case If(c, thn, els, braced) =>
      var (a, i) := Rewrite(thn, draw, if braced then n + 1 else n);
      var (b, j) := Rewrite(els, draw, i);
      (If(if braced then Complexify(c, draw(n)) else c, a, b, braced), j)
    case While(c, body) =>
      var (a, i) := Rewrite(body, draw, n);
      (While(c, a), i)
    case _ => (p, n)
  }

  // ---------------------------------------------------------------------------------------------
  // One condition
  // ---------------------------------------------------------------------------------------------

  const LOSING_FORM: Form := AndMask(0xDEAD)

  /** Two results agree when the same branch is taken in the same state. */
  predicate SameBranch(a: Result, b: Result) {
    match (a, b)
    case (Crash, Crash) => true
    case (Value(v, s), Value(w, t)) => s == t && (v != 0 <==> w != 0)
    case _ => false
  }

  lemma ConstOperand(op: Op, e: Expr, k: Word, s: State, world: World)
    ensures Eval(Bin(op, e, Const(k)), s, world)
         == match Eval(e, s, world) case Crash => Crash case Value(w, s1) => Value(Apply(op, w, k), s1)
  {}

  lemma WideMask(mask: bv16)
    ensures mask as bv32 == 0xDEAD <==> mask == 0xDEAD
  {}

  lemma MaskTest(mask: bv16, s: State, world: World)
    ensures Eval(Bin(NotEqual, Const(mask as bv32), Const(0xDEAD)), s, world) == Value(Flag(mask != 0xDEAD), s)
  {
    WideMask(mask);
    ConstOperand(NotEqual, Const(mask as bv32), 0xDEAD, s, world);
    assert Eval(Const(mask as bv32), s, world) == Value(mask as bv32, s);
  }

  lemma AndMeans(l: Expr, r: Expr, s: State, world: World)
    ensures Eval(And(l, r), s, world)
         == match Eval(l, s, world) case Crash => Crash
            case Value(a, s1) => if a == 0 then Value(0, s1) else
              match Eval(r, s1, world) case Crash => Crash case Value(b, s2) => Value(Flag(b != 0), s2)
  {
    hide Apply, Quotient, DivisionTraps;
  }

  lemma OrMeans(l: Expr, r: Expr, s: State, world: World)
    ensures Eval(Or(l, r), s, world)
         == match Eval(l, s, world) case Crash => Crash
            case Value(a, s1) => if a != 0 then Value(1, s1) else
              match Eval(r, s1, world) case Crash => Crash case Value(b, s2) => Value(Flag(b != 0), s2)
  {
    hide Apply, Quotient, DivisionTraps;
  }

  lemma AndEffects(l: Expr, r: Expr, s: State, world: World, b: Word)
    requires Eval(l, s, world).Value? ==> Eval(r, Eval(l, s, world).s, world) == Value(b, Eval(l, s, world).s)
    ensures Eval(And(l, r), s, world)
         == match Eval(l, s, world) case Crash => Crash
            case Value(w, s1) => Value(Flag(w != 0 && b != 0), s1)
  {
    hide Eval;
    AndMeans(l, r, s, world);
  }

  lemma AndMaskEffects(c: Expr, mask: bv16, s: State, world: World)
    ensures Eval(Complexify(c, AndMask(mask)), s, world)
         == match Eval(c, s, world) case Crash => Crash
            case Value(w, s1) => Value(Flag(w != 0 && mask != 0xDEAD), s1)
  {
    hide Eval;
    var test := Bin(NotEqual, Const(mask as bv32), Const(0xDEAD));
    if Eval(c, s, world).Value? {
      MaskTest(mask, Eval(c, s, world).s, world);
    }
    AndEffects(c, test, s, world, Flag(mask != 0xDEAD));
  }

  lemma OrMaskEffects(c: Expr, mask: bv16, s: State, world: World)
    ensures Eval(Complexify(c, OrMask(mask)), s, world)
         == match Eval(c, s, world) case Crash => Crash case Value(w, s1) => Value(Flag(w != 0), s1)
  {
    hide Eval;
    var never := And(Const(0), Bin(Equal, Const(mask as bv32), Const(0xBEEF)));
    OrMeans(c, never, s, world);
    if Eval(c, s, world).Value? {
      var s1 := Eval(c, s, world).s;
      AndMeans(Const(0), never.r, s1, world);
      ConstMeans(0, s1, world);
    }
  }

  lemma ConstMeans(w: Word, s: State, world: World)
    ensures Eval(Const(w), s, world) == Value(w, s)
  {}

  lemma NotNotEffects(c: Expr, s: State, world: World)
    ensures Eval(Complexify(c, NotNot), s, world)
         == match Eval(c, s, world) case Crash => Crash case Value(w, s1) => Value(Flag(w != 0), s1)
  {
    assert Eval(Not(c), s, world)
        == match Eval(c, s, world) case Crash => Crash case Value(w, s1) => Value(Flag(w == 0), s1);
  }

  lemma PlusZeroEffects(c: Expr, s: State, world: World)
    ensures Eval(Complexify(c, PlusZero), s, world)
         == match Eval(c, s, world) case Crash => Crash case Value(w, s1) => Value(Flag(w != 0), s1)
  {
    ConstOperand(Add, c, 0, s, world);
    ConstOperand(NotEqual, Bin(Add, c, Const(0)), 0, s, world);
  }

  /** Whatever the form, the condition runs once, with its effects, and crashes when it did before. */
  lemma ComplexifiedEffects(c: Expr, form: Form, s: State, world: World)
    ensures Eval(c, s, world).Crash? <==> Eval(Complexify(c, form), s, world).Crash?
    ensures Eval(c, s, world).Value? ==>
      var v, w := Eval(c, s, world), Eval(Complexify(c, form), s, world);
      w.s == v.s && (w.w != 0 <==> v.w != 0 && form != LOSING_FORM)
  {
    hide Eval;
    match form
    case AndMask(mask) => AndMaskEffects(c, mask, s, world);
    case OrMask(mask) => OrMaskEffects(c, mask, s, world);
    case NotNot => NotNotEffects(c, s, world);
    case XorZero => ConstOperand(BitXor, c, 0, s, world);
    case PlusZero => PlusZeroEffects(c, s, world);
  }

  /** The exact condition: a rewritten condition takes the old branch unless the drawn mask is 0xDEAD and it was true. */
  lemma SameBranchIff(c: Expr, form: Form, s: State, world: World)
    ensures SameBranch(Eval(c, s, world), Eval(Complexify(c, form), s, world))
      <==> form != LOSING_FORM || Eval(c, s, world).Crash? || Eval(c, s, world).w == 0
  {
    ComplexifiedEffects(c, form, s, world);
  }

  // ---------------------------------------------------------------------------------------------
  // Exactly once
  // ---------------------------------------------------------------------------------------------

  predicate HasProbe(e: Expr, id: nat) {
    match e
    case Const(_) => false
    case Var(_) => false
    case Assign(_, e1) => HasProbe(e1, id)
    case Call(_, e1) => HasProbe(e1, id)
    case Probe(k, e1) => k == id || HasProbe(e1, id)
    case Bin(_, l, r) => HasProbe(l, id) || HasProbe(r, id)
    case Div(l, r) => HasProbe(l, id) || HasProbe(r, id)
    case Not(e1) => HasProbe(e1, id)
    case And(l, r) => HasProbe(l, id) || HasProbe(r, id)
    case Or(l, r) => HasProbe(l, id) || HasProbe(r, id)
  }

  function Passes(log: seq<Event>, id: nat): nat {
    if log == [] then 0 else Passes(log[..|log| - 1], id) + if log[|log| - 1] == Probed(id) then 1 else 0
  }

  lemma PassesOfAppend(log: seq<Event>, e: Event, id: nat)
    ensures Passes(log + [e], id) == Passes(log, id) + if e == Probed(id) then 1 else 0
  {
    assert (log + [e])[..|log|] == log;
  }

  predicate Binary(e: Expr) { e.Bin? || e.Div? || e.And? || e.Or? }

  /** The log after a binary expression is the log after its left operand, or after both operands. */
  lemma BinaryLog(e: Expr, s: State, world: World)
    requires Binary(e) && Eval(e, s, world).Value?
    ensures var left := Eval(e.l, s, world);
      && left.Value?
      && (Eval(e, s, world).s == left.s
          || (Eval(e.r, left.s, world).Value? && Eval(e, s, world).s == Eval(e.r, left.s, world).s))
  {}

  function Operand(e: Expr): Expr
    requires e.Assign? || e.Call? || e.Not?
  {
    match e case Assign(_, e1) => e1 case Call(_, e1) => e1 case Not(e1) => e1
  }

  lemma UnaryPasses(e: Expr, id: nat, s: State, world: World)
    requires e.Assign? || e.Call? || e.Not?
    requires Eval(e, s, world).Value?
    ensures var r := Eval(Operand(e), s, world);
      r.Value? && Passes(Eval(e, s, world).s.log, id) == Passes(r.s.log, id)
  {
    var r := Eval(Operand(e), s, world);
    if e.Call? {
      PassesOfAppend(r.s.log, Called(e.f, r.w, world(r.s.log, e.f, r.w)), id);
    }
  }

  /** Evaluation adds no probe event that the expression does not hold. */
  lemma {:induction false} EvalPassesNoOther(e: Expr, id: nat, s: State, world: World)
    requires !HasProbe(e, id) && Eval(e, s, world).Value?
    ensures Passes(Eval(e, s, world).s.log, id) == Passes(s.log, id)
  {
    if Binary(e) {
      var s1 := Eval(e.l, s, world);
      BinaryLog(e, s, world);
      EvalPassesNoOther(e.l, id, s, world);
      if Eval(e.r, s1.s, world).Value? {
        EvalPassesNoOther(e.r, id, s1.s, world);
      }
    } else if e.Probe? {
      PassesOfAppend(s.log, Probed(e.id), id);
      EvalPassesNoOther(e.e, id, s.(log := s.log + [Probed(e.id)]), world);
    } else if e.Assign? || e.Call? || e.Not? {
      UnaryPasses(e, id, s, world);
      EvalPassesNoOther(Operand(e), id, s, world);
    }
  }

  /** A probe put on the original condition is passed exactly once by the rewritten one. */
  lemma EvaluatedOnce(c: Expr, form: Form, id: nat, s: State, world: World)
    requires !HasProbe(c, id)
    ensures var r := Eval(Complexify(Probe(id, c), form), s, world);
      r.Value? ==> Passes(r.s.log, id) == Passes(s.log, id) + 1
  {
    ComplexifiedEffects(Probe(id, c), form, s, world);
    PassesOfAppend(s.log, Probed(id), id);
    if Eval(Probe(id, c), s, world).Value? {
      EvalPassesNoOther(c, id, s.(log := s.log + [Probed(id)]), world);
    }
  }

  // ---------------------------------------------------------------------------------------------
  // Whole programs
  // ---------------------------------------------------------------------------------------------

  /** The draws that a rewriting uses are those from `n` up to the number it returns. */
  lemma {:induction false} RewriteCounts(p: Stmt, draw: nat -> Form, n: nat)
    ensures n <= Rewrite(p, draw, n).1
  {
    match p
    case Seq(first, second) =>
      RewriteCounts(first, draw, n);
      RewriteCounts(second, draw, Rewrite(first, draw, n).1);
    case If(c, thn, els, braced) =>
      var n1 := if braced then n + 1 else n;
      RewriteCounts(thn, draw, n1);
      RewriteCounts(els, draw, Rewrite(thn, draw, n1).1);
    case While(c, body) => RewriteCounts(body, draw, n);
    case _ =>
  }

  ghost predicate NoneLosing(draw: nat -> Form, from: nat, to: nat) {
    forall k :: from <= k < to ==> draw(k) != LOSING_FORM
  }

  /** Rewriting every braced condition of a program changes no run of it, if no draw it uses is the losing one. */
  lemma {:induction false} MeaningPreserved(p: Stmt, draw: nat -> Form, n: nat, s: State, world: World, fuel: nat)
    requires NoneLosing(draw, n, Rewrite(p, draw, n).1)
    ensures Exec(Rewrite(p, draw, n).0, s, world, fuel) == Exec(p, s, world, fuel)
    decreases fuel, p
  {
    hide Eval, Complexify;
    match p
    case Seq(first, second) =>
      var i := Rewrite(first, draw, n).1;
      RewriteCounts(first, draw, n);
      RewriteCounts(second, draw, i);
      MeaningPreserved(first, draw, n, s, world, fuel);
      var r := Exec(first, s, world, fuel);
      if r.Ended? {
        MeaningPreserved(second, draw, i, r.s, world, fuel);
      }
    case If(c, thn, els, braced) =>
      var n1 := if braced then n + 1 else n;
      var i := Rewrite(thn, draw, n1).1;
      RewriteCounts(thn, draw, n1);
      RewriteCounts(els, draw, i);
      if braced {
        ComplexifiedEffects(c, draw(n), s, world);
      }
      var r := Eval(c, s, world);
      if r.Value? {
        MeaningPreserved(thn, draw, n1, r.s, world, fuel);
        MeaningPreserved(els, draw, i, r.s, world, fuel);
      }
    case While(c, body) =>
      var r := Eval(c, s, world);
      if fuel > 0 && r.Value? && r.w != 0 {
        MeaningPreserved(body, draw, n, r.s, world, fuel);
        var b := Exec(body, r.s, world, fuel);
        if b.Ended? {
          MeaningPreserved(p, draw, n, b.s, world, fuel - 1);
        }
      }
    case _ =>
  }

  /** A program whose last condition gets the draw after `k` others. */
  function Padded(k: nat): Stmt {
    if k == 0 then If(Const(1), Return(Const(1)), Return(Const(2)), true)
    else Seq(If(Const(0), Skip, Skip, true), Padded(k - 1))
  }

  lemma {:induction false} PaddedRuns(k: nat, s: State, world: World, fuel: nat)
    ensures Exec(Padded(k), s, world, fuel) == Returned(1, s)
  {
    if k > 0 {
      PaddedRuns(k - 1, s, world, fuel);
      assert Exec(If(Const(0), Skip, Skip, true), s, world, fuel) == Ended(s);
    }
  }

  lemma RewrittenPadding(k: nat, draw: nat -> Form, n: nat)
    requires k > 0
    ensures Rewrite(Padded(k), draw, n).0
      == Seq(If(Complexify(Const(0), draw(n)), Skip, Skip, true), Rewrite(Padded(k - 1), draw, n + 1).0)
  {
    var first := If(Const(0), Skip, Skip, true);
    assert Rewrite(Skip, draw, n + 1) == (Skip, n + 1);
    assert Rewrite(first, draw, n) == (If(Complexify(Const(0), draw(n)), Skip, Skip, true), n + 1);
  }

  lemma PaddingEnds(form: Form, s: State, world: World, fuel: nat)
    ensures Exec(If(Complexify(Const(0), form), Skip, Skip, true), s, world, fuel) == Ended(s)
  {
    ComplexifiedEffects(Const(0), form, s, world);
    assert Exec(Skip, s, world, fuel) == Ended(s);
  }

  lemma SecondRuns(first: Stmt, second: Stmt, s: State, world: World, fuel: nat)
    requires Exec(first, s, world, fuel) == Ended(s)
    ensures Exec(Seq(first, second), s, world, fuel) == Exec(second, s, world, fuel)
  {
    hide Eval;
  }

  lemma LosingDraw(draw: nat -> Form, n: nat, s: State, world: World, fuel: nat)
    requires draw(n) == LOSING_FORM
    ensures Exec(Rewrite(Padded(0), draw, n).0, s, world, fuel) == Returned(2, s)
  {
    ComplexifiedEffects(Const(1), LOSING_FORM, s, world);
  }

  lemma {:induction false} PaddedLoses(k: nat, draw: nat -> Form, n: nat, s: State, world: World, fuel: nat)
    requires draw(n + k) == LOSING_FORM
    ensures Exec(Rewrite(Padded(k), draw, n).0, s, world, fuel) == Returned(2, s)
  {
    if k == 0 {
      LosingDraw(draw, n, s, world, fuel);
    } else {
      hide Rewrite, Padded, Exec, Eval, Complexify;
      RewrittenPadding(k, draw, n);
      PaddingEnds(draw(n), s, world, fuel);
      PaddedLoses(k - 1, draw, n + 1, s, world, fuel);
      SecondRuns(If(Complexify(Const(0), draw(n)), Skip, Skip, true), Rewrite(Padded(k - 1), draw, n + 1).0, s, world, fuel);
    }
  }

  ghost predicate KeepsAllRuns(draw: nat -> Form, n: nat) {
    forall p, s, world, fuel :: Exec(Rewrite(p, draw, n).0, s, world, fuel) == Exec(p, s, world, fuel)
  }

  /** The exact condition for whole programs: all of them keep all their runs if and only if no draw is the losing one. */
  lemma AllMeaningsPreservedIff(draw: nat -> Form, n: nat)
    ensures KeepsAllRuns(draw, n) <==> forall k :: n <= k ==> draw(k) != LOSING_FORM
  {
    hide Exec, Rewrite, Padded;
    if k: nat :| n <= k && draw(k) == LOSING_FORM {
      var s, world: World := State(map[], []), (log, f, w) => 0;
      PaddedRuns(k - n, s, world, 0);
      PaddedLoses(k - n, draw, n, s, world, 0);
    } else {
      forall p, s, world, fuel
        ensures Exec(Rewrite(p, draw, n).0, s, world, fuel) == Exec(p, s, world, fuel)
      {
        MeaningPreserved(p, draw, n, s, world, fuel);
      }
    }
  }

  /** With the mask 0xDEAD a program whose condition holds does change. */
  lemma LosingDrawChangesProgram(s: State, world: World, fuel: nat)
    ensures var p := If(Const(1), Return(Const(1)), Return(Const(2)), true);
      && Exec(p, s, world, fuel) == Returned(1, s)
      && Exec(Rewrite(p, (k: nat) => LOSING_FORM, 0).0, s, world, fuel) == Returned(2, s)
  {
    ComplexifiedEffects(Const(1), LOSING_FORM, s, world);
  }
}
