/** Constant folding and the evaluator it must agree with: three-valued logic, short circuits, and a reference
    that may resolve to any value or unwind as cyclic. */
module Folding {
  import opened Bytes

  // Scalars; a real is its bit pattern.
  datatype Value = Undef | Err | B(b: bool) | I(i: int) | R(bits: nat) | S(s: seq<byte>)

  datatype Scope = My | Target | Parent | Unscoped

  datatype Expr =
    | Lit(v: Value)
    | Ref(scope: Scope, name: string)
    | Paren(e: Expr)
    | Un(op: string, e: Expr)
    | Bin(op: string, l: Expr, r: Expr)
    | And(l: Expr, r: Expr)
    | Or(l: Expr, r: Expr)
    | Cond(c: Expr, t: Expr, f: Expr)
    | Elvis(l: Expr, r: Expr)
    | IfThenElse(c: Expr, t: Expr, f: Expr)

  // A value, or the panic that unwinds to the entry point: a reference cycle, or the depth bound.
  datatype Outcome = Val(v: Value) | Cyclic | TooDeep

  // The strict operators, on values; whether a real is zero; the time.
  datatype Sem = Sem(bin: (string, Value, Value) -> Value, un: (string, Value) -> Value, zero: nat -> bool, now: int)

  const CURRENT_TIME := "currenttime"

  // A reference to the clock: CurrentTime, in any case, in the ad's own scope.
  predicate IsNow(scope: Scope, name: string) { (scope == Unscoped || scope == My) && name == CURRENT_TIME }

  type Resolver = (Scope, string) -> Outcome

  // ---------------------------------------------------------------- three-valued logic

  datatype Logical = LTrue | LFalse | LUndef | LErr

  function View(sem: Sem, v: Value): (r: Logical)
  {
    match v
    case B(b) => if b then LTrue else LFalse
    case I(i) => if i != 0 then LTrue else LFalse
    case R(x) => if sem.zero(x) then LFalse else LTrue
    case Undef => LUndef
    case _ => LErr
  }

  function MapState(s: Logical): (v: Value)
  {
    match s case LTrue => B(true) case LFalse => B(false) case LUndef => Undef case LErr => Err
  }

  function AndV(sem: Sem, l: Value, r: Value): (v: Value)
  {
    match View(sem, l)
    case LFalse => B(false)
    case LErr => Err
    case LTrue => MapState(View(sem, r))
    case LUndef => match View(sem, r) { case LFalse => B(false) case LErr => Err case _ => Undef }
  }

  function OrV(sem: Sem, l: Value, r: Value): (v: Value)
  {
    match View(sem, l)
    case LTrue => B(true)
    case LErr => Err
    case LFalse => MapState(View(sem, r))
    case LUndef => match View(sem, r) { case LTrue => B(true) case LErr => Err case _ => Undef }
  }

  // ---------------------------------------------------------------- evaluation

  function Eval(sem: Sem, rho: Resolver, e: Expr): (o: Outcome)
  {
    match e
    case Lit(v) => Val(v)
    case Ref(scope, name) => rho(scope, name)
    case Paren(x) => Eval(sem, rho, x)
    case Un(op, x) =>
      var a := Eval(sem, rho, x);
      if a.Val? then Val(sem.un(op, a.v)) else a
    case Bin(op, l, r) =>
      var a := Eval(sem, rho, l);
      if !a.Val? then a else
      var b := Eval(sem, rho, r);
      if b.Val? then Val(sem.bin(op, a.v, b.v)) else b
    case And(l, r) =>
      var a := Eval(sem, rho, l);
      if !a.Val? then a
      else if View(sem, a.v) == LErr then Val(Err)
      else if View(sem, a.v) == LFalse then Val(B(false)) else
      var b := Eval(sem, rho, r);
      if b.Val? then Val(AndV(sem, a.v, b.v)) else b
    case Or(l, r) =>
      var a := Eval(sem, rho, l);
      if !a.Val? then a
      else if View(sem, a.v) == LErr then Val(Err)
      else if View(sem, a.v) == LTrue then Val(B(true)) else
      var b := Eval(sem, rho, r);
      if b.Val? then Val(OrV(sem, a.v, b.v)) else b
    case Cond(c, t, f) =>
      var a := Eval(sem, rho, c);
      if !a.Val? then a else
      (match View(sem, a.v)
       case LTrue => Eval(sem, rho, t)
       case LFalse => Eval(sem, rho, f)
       case LUndef =>
         var x, y := Eval(sem, rho, t), Eval(sem, rho, f);
         if !x.Val? then x else if !y.Val? then y else Val(Undef)
       case LErr => Val(Err))
    case Elvis(l, r) =>
      var a := Eval(sem, rho, l);
      if a == Val(Undef) then Eval(sem, rho, r) else a
    case IfThenElse(c, t, f) =>
      var a := Eval(sem, rho, c);
      if !a.Val? then a else
      (match View(sem, a.v)
       case LTrue => Eval(sem, rho, t)
       case LFalse => Eval(sem, rho, f)
       case LUndef => Val(Undef)
       case LErr => Val(Err))
  }

  // ---------------------------------------------------------------- folding

  // A literal's value; anything else counts as undefined.
  function LitVal(e: Expr): (v: Value) { if e.Lit? then e.v else Undef }

  predicate Concrete(v: Value) { v != Undef && v != Err }

  function FoldAnd(sem: Sem, l: Expr, r: Expr): (e: Expr)
  {
    var a, b := LitVal(l), LitVal(r);
    if a.B? then (if a.b then r else Lit(B(false)))
    else if b.B? then (if b.b then l else Lit(B(false)))
    else if a != Undef && b != Undef && Concrete(AndV(sem, a, b)) then Lit(AndV(sem, a, b))
    else And(l, r)
  }

  function FoldOr(sem: Sem, l: Expr, r: Expr): (e: Expr)
  {
    var a, b := LitVal(l), LitVal(r);
    if a.B? then (if a.b then Lit(B(true)) else r)
    else if b.B? then (if b.b then Lit(B(true)) else l)
    else if a != Undef && b != Undef && Concrete(OrV(sem, a, b)) then Lit(OrV(sem, a, b))
    else Or(l, r)
  }

  function FoldBin(sem: Sem, op: string, l: Expr, r: Expr): (e: Expr)
  {
    var a, b := LitVal(l), LitVal(r);
    if (op == "is" || op == "isnt") && l.Lit? && r.Lit? && sem.bin(op, a, b).B? then Lit(sem.bin(op, a, b))
    else if a != Undef && b != Undef && Concrete(sem.bin(op, a, b)) then Lit(sem.bin(op, a, b))
    else Bin(op, l, r)
  }

  function FoldUn(sem: Sem, op: string, x: Expr): (e: Expr)
  {
    var a := LitVal(x);
    if a != Undef && Concrete(sem.un(op, a)) then Lit(sem.un(op, a)) else Un(op, x)
  }

  // Parentheses stay only around an operator.
  function FoldParen(x: Expr): (e: Expr)
  {
    if x.Bin? || x.And? || x.Or? || x.Un? || x.Cond? || x.Elvis? then Paren(x) else x
  }

  function Fold(sem: Sem, e: Expr): (r: Expr)
  {
    match e
    case Lit(_) => e
    case Ref(scope, name) => if IsNow(scope, name) then Lit(I(sem.now)) else e
    case Paren(x) => FoldParen(Fold(sem, x))
    case Un(op, x) => FoldUn(sem, op, Fold(sem, x))
    case Bin(op, l, r) => FoldBin(sem, op, Fold(sem, l), Fold(sem, r))
    case And(l, r) => FoldAnd(sem, Fold(sem, l), Fold(sem, r))
    case Or(l, r) => FoldOr(sem, Fold(sem, l), Fold(sem, r))
    case Cond(c, t, f) =>
      var k := LitVal(Fold(sem, c));
      if k.B? then (if k.b then Fold(sem, t) else Fold(sem, f)) else Cond(Fold(sem, c), Fold(sem, t), Fold(sem, f))
    case Elvis(l, r) => if LitVal(Fold(sem, l)) == Undef then Fold(sem, r) else Elvis(Fold(sem, l), Fold(sem, r))
    case IfThenElse(c, t, f) =>
      var k := LitVal(Fold(sem, c));
      if k.B? then (if k.b then Fold(sem, t) else Fold(sem, f))
        else IfThenElse(Fold(sem, c), Fold(sem, t), Fold(sem, f))
  }

  // ---------------------------------------------------------------- when each rule is exact

  // A boolean, undefined, an error, or an unwinding: what && and || pass through unchanged.
  predicate Passed(o: Outcome) { o.Val? ==> o.v.B? || o.v.Undef? || o.v.Err? }

  // A truth value && and || can take: no error, no unwinding.
  predicate Decided(sem: Sem, o: Outcome) { o.Val? && View(sem, o.v) != LErr }

  // Each short-circuit rule keeps the value exactly when its other operand is of the right kind.
  lemma AndRulesExactly(sem: Sem, rho: Resolver, x: Expr)
    ensures Eval(sem, rho, And(Lit(B(false)), x)) == Val(B(false))
    ensures Eval(sem, rho, And(Lit(B(true)), x)) == Eval(sem, rho, x) <==> Passed(Eval(sem, rho, x))
    ensures Eval(sem, rho, And(x, Lit(B(true)))) == Eval(sem, rho, x) <==> Passed(Eval(sem, rho, x))
    ensures Eval(sem, rho, And(x, Lit(B(false)))) == Val(B(false)) <==> Decided(sem, Eval(sem, rho, x))
  {
  }

  lemma OrRulesExactly(sem: Sem, rho: Resolver, x: Expr)
    ensures Eval(sem, rho, Or(Lit(B(true)), x)) == Val(B(true))
    ensures Eval(sem, rho, Or(Lit(B(false)), x)) == Eval(sem, rho, x) <==> Passed(Eval(sem, rho, x))
    ensures Eval(sem, rho, Or(x, Lit(B(false)))) == Eval(sem, rho, x) <==> Passed(Eval(sem, rho, x))
    ensures Eval(sem, rho, Or(x, Lit(B(true)))) == Val(B(true)) <==> Decided(sem, Eval(sem, rho, x))
  {
  }

  // Dropping the left of ?: keeps the value exactly when it was undefined or equal to the right.
  lemma ElvisRuleExactly(sem: Sem, rho: Resolver, l: Expr, r: Expr)
    ensures Eval(sem, rho, Elvis(l, r)) == Eval(sem, rho, r) <==>
      Eval(sem, rho, l) == Val(Undef) || Eval(sem, rho, l) == Eval(sem, rho, r)
  {
  }

  // ---------------------------------------------------------------- folding preserves meaning

  // Where the rule at a node fires, its operands come to what makes it exact.
  predicate ShortSite(sem: Sem, and: bool, p: Value, q: Value, a: Outcome, b: Outcome)
  {
    (p == B(and) ==> Passed(b)) && (!p.B? && q == B(and) ==> Passed(a)) && (!p.B? && q == B(!and) ==> Decided(sem, a))
  }

  predicate AndSite(sem: Sem, l: Expr, r: Expr, a: Outcome, b: Outcome)
  {
    ShortSite(sem, true, LitVal(Fold(sem, l)), LitVal(Fold(sem, r)), a, b)
  }

  predicate OrSite(sem: Sem, l: Expr, r: Expr, a: Outcome, b: Outcome)
  {
    ShortSite(sem, false, LitVal(Fold(sem, l)), LitVal(Fold(sem, r)), a, b)
  }

  predicate ElvisSite(sem: Sem, l: Expr, a: Outcome, b: Outcome)
  {
    LitVal(Fold(sem, l)) == Undef ==> a == Val(Undef) || a == b
  }

  // The clock is folded in: exact where the ad gives the reference no value of its own.
  predicate NowSite(sem: Sem, scope: Scope, name: string, o: Outcome) { IsNow(scope, name) ==> o == Val(I(sem.now)) }

  predicate SiteOK(sem: Sem, rho: Resolver, e: Expr)
  {
    match e
    case Ref(scope, name) => NowSite(sem, scope, name, rho(scope, name))
    case And(l, r) => AndSite(sem, l, r, Eval(sem, rho, l), Eval(sem, rho, r))
    case Or(l, r) => OrSite(sem, l, r, Eval(sem, rho, l), Eval(sem, rho, r))
    case Elvis(l, r) => ElvisSite(sem, l, Eval(sem, rho, l), Eval(sem, rho, r))
    case _ => true
  }

  function Operands(e: Expr): (s: seq<Expr>)
    ensures forall x :: x in s ==> x < e
  {
    match e
    case Lit(_) => []
    case Ref(_, _) => []
    case Paren(x) => [x]
    case Un(_, x) => [x]
    case Bin(_, l, r) => [l, r]
    case And(l, r) => [l, r]
    case Or(l, r) => [l, r]
    case Cond(c, t, f) => [c, t, f]
    case Elvis(l, r) => [l, r]
    case IfThenElse(c, t, f) => [c, t, f]
  }

  // Every place a rule fires, it is exact there.
  ghost predicate SitesOK(sem: Sem, rho: Resolver, e: Expr)
    decreases e
  {
    SiteOK(sem, rho, e) && forall x :: x in Operands(e) ==> SitesOK(sem, rho, x)
  }

  ghost predicate Exact(sem: Sem, rho: Resolver, e: Expr) { Eval(sem, rho, Fold(sem, e)) == Eval(sem, rho, e) }

  // Where the operands fold exactly, a node does if and only if its own rule is exact.
  lemma NodeExactly(sem: Sem, rho: Resolver, e: Expr)
    requires forall x :: x in Operands(e) ==> Exact(sem, rho, x)
    ensures Exact(sem, rho, e) <==> SiteOK(sem, rho, e)
  {
    hide Exact, AndSite, OrSite, ElvisSite, NowSite;
    match e
    case Lit(_) => LeafNode(sem, rho, e);
    case Ref(_, _) => LeafNode(sem, rho, e);
    case Paren(x) => UnaryNodes(sem, rho, "", x);
    case Un(op, x) => UnaryNodes(sem, rho, op, x);
    case Bin(op, l, r) => BinNode(sem, rho, op, l, r);
    case And(l, r) => AndNode(sem, rho, l, r);
    case Or(l, r) => OrNode(sem, rho, l, r);
    case Cond(c, t, f) => CondNode(sem, rho, c, t, f);
    case Elvis(l, r) => ElvisNode(sem, rho, l, r);
    case IfThenElse(c, t, f) => IfNode(sem, rho, c, t, f);
  }

  lemma LeafNode(sem: Sem, rho: Resolver, e: Expr)
    requires e.Lit? || e.Ref?
    ensures Exact(sem, rho, e) <==> SiteOK(sem, rho, e)
  {
  }

  lemma UnaryNodes(sem: Sem, rho: Resolver, op: string, x: Expr)
    requires Exact(sem, rho, x)
    ensures Exact(sem, rho, Paren(x)) && Exact(sem, rho, Un(op, x))
  {
  }

  lemma BinNode(sem: Sem, rho: Resolver, op: string, l: Expr, r: Expr)
    requires Exact(sem, rho, l) && Exact(sem, rho, r)
    ensures Exact(sem, rho, Bin(op, l, r))
  {
  }

  lemma AndNode(sem: Sem, rho: Resolver, l: Expr, r: Expr)
    requires Exact(sem, rho, l) && Exact(sem, rho, r)
    ensures Exact(sem, rho, And(l, r)) <==> AndSite(sem, l, r, Eval(sem, rho, l), Eval(sem, rho, r))
  {
    assert Fold(sem, And(l, r)) == FoldAnd(sem, Fold(sem, l), Fold(sem, r));
    hide Fold;
  }

  lemma OrNode(sem: Sem, rho: Resolver, l: Expr, r: Expr)
    requires Exact(sem, rho, l) && Exact(sem, rho, r)
    ensures Exact(sem, rho, Or(l, r)) <==> OrSite(sem, l, r, Eval(sem, rho, l), Eval(sem, rho, r))
  {
    assert Fold(sem, Or(l, r)) == FoldOr(sem, Fold(sem, l), Fold(sem, r));
    hide Fold;
  }

  lemma CondNode(sem: Sem, rho: Resolver, c: Expr, t: Expr, f: Expr)
    requires Exact(sem, rho, c) && Exact(sem, rho, t) && Exact(sem, rho, f)
    ensures Exact(sem, rho, Cond(c, t, f))
  {
  }

  lemma IfNode(sem: Sem, rho: Resolver, c: Expr, t: Expr, f: Expr)
    requires Exact(sem, rho, c) && Exact(sem, rho, t) && Exact(sem, rho, f)
    ensures Exact(sem, rho, IfThenElse(c, t, f))
  {
  }

  lemma ElvisNode(sem: Sem, rho: Resolver, l: Expr, r: Expr)
    requires Exact(sem, rho, l) && Exact(sem, rho, r)
    ensures Exact(sem, rho, Elvis(l, r)) <==> ElvisSite(sem, l, Eval(sem, rho, l), Eval(sem, rho, r))
  {
  }

  // Folding preserves the value in every ad where each rule that fires is exact; the evaluator's depth bound is not
  // part of this.
  lemma {:induction false} FoldPreserves(sem: Sem, rho: Resolver, e: Expr)
    requires SitesOK(sem, rho, e)
    ensures Eval(sem, rho, Fold(sem, e)) == Eval(sem, rho, e)
    decreases e
  {
    hide Fold, Eval, SiteOK;
    forall x | x in Operands(e) ensures Exact(sem, rho, x) { FoldPreserves(sem, rho, x); }
    NodeExactly(sem, rho, e);
  }

  // Folding a folded expression changes nothing: no rule can fire any more.
  lemma {:induction false} FoldIdempotent(sem: Sem, e: Expr)
    ensures Fold(sem, Fold(sem, e)) == Fold(sem, e)
    decreases e
  {
    forall x | x in Operands(e) ensures Fold(sem, Fold(sem, x)) == Fold(sem, x) { FoldIdempotent(sem, x); }
    match e
    case Lit(_) =>
    case Ref(_, _) =>
    case Paren(x) => assert x in Operands(e);
    case Un(op, x) => assert x in Operands(e);
    case Bin(op, l, r) => assert l in Operands(e) && r in Operands(e);
    case And(l, r) => assert l in Operands(e) && r in Operands(e);
    case Or(l, r) => assert l in Operands(e) && r in Operands(e);
    case Cond(c, t, f) => assert c in Operands(e) && t in Operands(e) && f in Operands(e);
    case Elvis(l, r) => assert l in Operands(e) && r in Operands(e);
    case IfThenElse(c, t, f) => assert c in Operands(e) && t in Operands(e) && f in Operands(e);
  }

  // ---------------------------------------------------------------- the usual query

  predicate Boolish(o: Outcome) { o.Val? && (o.v.B? || o.v.Undef?) }

  // The operands of && and || are boolean or undefined, the left of ?: folds to a literal, and the clock is the clock.
  predicate PlainAt(sem: Sem, e: Expr, a: Outcome, b: Outcome)
  {
    if e.And? || e.Or? then Boolish(a) && Boolish(b) else if e.Elvis? then Fold(sem, e.l).Lit? else true
  }

  predicate PlainNode(sem: Sem, rho: Resolver, e: Expr)
  {
    if e.Ref? then NowSite(sem, e.scope, e.name, rho(e.scope, e.name)) else e.And? || e.Or? || e.Elvis? ==>
      PlainAt(sem, e, Eval(sem, rho, e.l), Eval(sem, rho, e.r))
  }

  ghost predicate Plain(sem: Sem, rho: Resolver, e: Expr)
    decreases e
  {
    PlainNode(sem, rho, e) && forall x :: x in Operands(e) ==> Plain(sem, rho, x)
  }

  lemma {:induction false} PlainSites(sem: Sem, rho: Resolver, e: Expr)
    requires Plain(sem, rho, e)
    ensures SitesOK(sem, rho, e)
    decreases e
  {
    forall x | x in Operands(e) ensures SitesOK(sem, rho, x) { PlainSites(sem, rho, x); }
    if e.Elvis? {
      assert e.l in Operands(e);
      FoldPreserves(sem, rho, e.l);
    }
  }

  // For such expressions folding preserves the value in every ad.
  lemma PlainPreserved(sem: Sem, rho: Resolver, e: Expr)
    requires Plain(sem, rho, e)
    ensures Eval(sem, rho, Fold(sem, e)) == Eval(sem, rho, e)
  {
    PlainSites(sem, rho, e);
    FoldPreserves(sem, rho, e);
  }

  // A reference on the left of ?: is folded away even where it is defined.
  lemma ElvisLosesValue(sem: Sem)
    ensures var e := Elvis(Ref(Unscoped, "x"), Lit(I(1))); var rho := (s: Scope, n: string) => Val(I(5));
      Eval(sem, rho, e) == Val(I(5)) && Eval(sem, rho, Fold(sem, e)) == Val(I(1))
  {
  }

  // x && true folds to x, so a number survives where the evaluator would give its truth.
  lemma AndTrueLosesCoercion(sem: Sem)
    ensures var e := And(Ref(Unscoped, "x"), Lit(B(true))); var rho := (s: Scope, n: string) => Val(I(5));
      Eval(sem, rho, e) == Val(B(true)) && Eval(sem, rho, Fold(sem, e)) == Val(I(5))
  {
  }

  // The clock is folded in even where the ad defines CurrentTime itself.
  lemma NowLosesValue(sem: Sem)
    requires sem.now != 5
    ensures var e := Ref(Unscoped, CURRENT_TIME); var rho := (s: Scope, n: string) => Val(I(5));
      Eval(sem, rho, e) == Val(I(5)) && Eval(sem, rho, Fold(sem, e)) == Val(I(sem.now))
  {
  }

  // No reference to the clock is left.
  predicate Timeless(e: Expr)
    decreases e
  {
    if e.Ref? then !IsNow(e.scope, e.name) else forall x :: x in Operands(e) ==> Timeless(x)
  }

  lemma {:induction false} FoldTimeless(sem: Sem, e: Expr)
    ensures Timeless(Fold(sem, e))
    decreases e
  {
    forall x | x in Operands(e) ensures Timeless(Fold(sem, x)) { FoldTimeless(sem, x); }
    match e
    case Lit(_) =>
    case Ref(_, _) =>
    case Paren(x) => assert x in Operands(e);
    case Un(op, x) => assert x in Operands(e);
    case Bin(op, l, r) => assert l in Operands(e) && r in Operands(e);
    case And(l, r) => assert l in Operands(e) && r in Operands(e);
    case Or(l, r) => assert l in Operands(e) && r in Operands(e);
    case Cond(c, t, f) => assert c in Operands(e) && t in Operands(e) && f in Operands(e);
    case Elvis(l, r) => assert l in Operands(e) && r in Operands(e);
    case IfThenElse(c, t, f) => assert c in Operands(e) && t in Operands(e) && f in Operands(e);
  }

  // ---------------------------------------------------------------- what is folded away

  // The value of an expression over concrete literals and the clock, every step of it concrete, as arithmetic has it;
  // && and || of two booleans, and a condition that is one.
  function ConstOf(sem: Sem, e: Expr): (v: Option<Value>)
    decreases e
  {
    match e
    case Lit(v) => if Concrete(v) then Some(v) else None
    case Ref(scope, name) => if IsNow(scope, name) then Some(I(sem.now)) else None
    case Paren(x) => ConstOf(sem, x)
    case Un(op, x) =>
      (match ConstOf(sem, x)
       case None => None
       case Some(a) => if Concrete(sem.un(op, a)) then Some(sem.un(op, a)) else None)
    case Bin(op, l, r) =>
      (match (ConstOf(sem, l), ConstOf(sem, r))
       case (Some(a), Some(b)) => if Concrete(sem.bin(op, a, b)) then Some(sem.bin(op, a, b)) else None
       case _ => None)
    case And(l, r) => Both(ConstOf(sem, l), ConstOf(sem, r), true)
    case Or(l, r) => Both(ConstOf(sem, l), ConstOf(sem, r), false)
    case Cond(c, t, f) => Chosen(ConstOf(sem, c), ConstOf(sem, t), ConstOf(sem, f))
    case IfThenElse(c, t, f) => Chosen(ConstOf(sem, c), ConstOf(sem, t), ConstOf(sem, f))
    case Elvis(_, _) => None
  }

  function Both(a: Option<Value>, b: Option<Value>, and: bool): (v: Option<Value>)
  {
    match (a, b)
    case (Some(B(x)), Some(B(y))) => Some(B(if and then x && y else x || y))
    case _ => None
  }

  function Chosen(c: Option<Value>, t: Option<Value>, f: Option<Value>): (v: Option<Value>)
  {
    match c case Some(B(b)) => if b then t else f case _ => None
  }

  // An operator on literals is folded exactly where its value is neither undefined nor an error and no operand is
  // undefined; the two that compare undefined, exactly where they come to a boolean as well.
  lemma OperatorFolds(sem: Sem, op: string, a: Value, b: Value)
    ensures var v := sem.bin(op, a, b);
      Fold(sem, Bin(op, Lit(a), Lit(b))) ==
        if ((op == "is" || op == "isnt") && v.B?) || !(Undef in [a, b, v] || v == Err) then Lit(v)
        else Bin(op, Lit(a), Lit(b))
    ensures var v := sem.un(op, a);
      Fold(sem, Un(op, Lit(a))) == if Undef in [a, v] || v == Err then Un(op, Lit(a)) else Lit(v)
  {
  }

  // The folder leaves nothing of such an expression but its value, which is what the evaluator gives.
  lemma {:induction false} ConstantFolds(sem: Sem, rho: Resolver, e: Expr)
    requires ConstOf(sem, e).Some?
    requires forall scope, name :: IsNow(scope, name) ==> rho(scope, name) == Val(I(sem.now))
    ensures Fold(sem, e) == Lit(ConstOf(sem, e).value) && Eval(sem, rho, e) == Val(ConstOf(sem, e).value)
    ensures Concrete(ConstOf(sem, e).value)
    decreases e
  {
    hide IsNow;
    match e
    case Lit(_) =>
    case Ref(_, _) =>
    case Paren(x) => ConstantFolds(sem, rho, x);
    case Un(_, x) => ConstantFolds(sem, rho, x);
    case Bin(_, l, r) =>
      ConstantFolds(sem, rho, l);
      ConstantFolds(sem, rho, r);
    case And(l, r) =>
      ConstantFolds(sem, rho, l);
      ConstantFolds(sem, rho, r);
    case Or(l, r) =>
      ConstantFolds(sem, rho, l);
      ConstantFolds(sem, rho, r);
    case Cond(c, t, f) =>
      ConstantFolds(sem, rho, c);
      ConstantFolds(sem, rho, if ConstOf(sem, c).value.b then t else f);
    case IfThenElse(c, t, f) =>
      ConstantFolds(sem, rho, c);
      ConstantFolds(sem, rho, if ConstOf(sem, c).value.b then t else f);
  }
}
